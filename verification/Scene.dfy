/** What the compositor draws, pixel by pixel (compositor/comp.c). Blending, glyphs and
    shadows are functions the caller supplies; which pixels each primitive may reach, in what
    order, and under which early returns is modelled here. */
module Scene {
  import opened Geometry
  import opened Wrappers

  type Color = int

  const DECO_H := 30
  const MODE_PERFORMANCE := 2
  const MAX_NOTIFS := 3
  /** How many windows, front first, one repaint looks at. */
  const MAX_PAINTED := 64
  /** ml_shadow_margin(16): how far a shadow reaches, and the margin of win_damage_all. */
  const MARGIN := 34

  /** A window as the compositor sees it. `uid` stands for its address; `client` is the connection
      that owns it; `surf` maps local pixels to the client's colours; `fading` says that it holds an
      opacity animation, and `glide` is the rectangle its geometry animation ends at, if it holds one. */
  datatype Win = Win(
    uid: nat, id: int, client: Option<nat>, title: string,
    borderless: bool, topmost: bool, bottom: bool, noFocus: bool,
    cur: Rect, tgt: Rect, ws: int,
    mapped: bool, closing: bool, minimized: bool, maximized: bool, focused: bool,
    fading: bool, glide: Option<Rect>,
    opacity: real, scale: real, surf: Option<map<Point, Color>>)

  /** A notification slot; `off` is the slide-in offset in pixels, `leaving` says that it holds a
      closing animation. An empty title is a free slot. */
  datatype Notice = Notice(title: string, body: string, icon: string, off: nat, dying: bool, leaving: bool)

  /** The primitives, as functions of the pixel and the colour already there. */
  datatype Painter = Painter(
    wallpaper: Point -> Color,
    blend: (Color, int, Color) -> Color,
    blitScaled: (map<Point, Color>, Rect, int, Point, Color) -> Color,
    shadow: (Rect, int, Point, Color) -> Color,
    deco: (string, Rect, bool, real, Point, Color) -> Color,
    hairline: (Rect, int, Point, Color) -> Color,
    notice: (string, string, string, Rect, bool, Point, Color) -> Color,
    pointer: (Point, Point, Color) -> Color)

  /** Everything a repaint reads. */
  datatype View = View(screen: Rect, mode: nat, curWs: int, z: seq<Win>, notices: seq<Notice>)

  function Frame(w: Win): Rect {
    if w.borderless then w.cur
    else Rect(w.cur.x, w.cur.y - DECO_H, w.cur.w, w.cur.h + DECO_H)
  }

  predicate Visible(w: Win, ws: int) {
    w.mapped && !w.closing && !w.minimized && w.opacity > 0.01 && (w.ws == ws || w.topmost || w.bottom)
  }

  /** The window is visible and its frame has p. */
  predicate Under(w: Win, ws: int, p: Point) { Visible(w, ws) && Frame(w).Has(p) }

  /** The index of the frontmost window under p, or |z| (win_at). */
  function HitIndex(z: seq<Win>, ws: int, p: Point): (k: nat)
    ensures k <= |z| && (k < |z| ==> Under(z[k], ws, p))
    ensures forall i :: 0 <= i < k ==> !Under(z[i], ws, p)
  {
    if z == [] then 0
    else if Under(z[0], ws, p) then 0
    else 1 + HitIndex(z[1..], ws, p)
  }

  function Op(w: Win): int {
    (255.0 * (if w.opacity < 0.0 then 0.0 else if w.opacity > 1.0 then 1.0 else w.opacity)).Floor
  }

  // ------------------------------------------------------------ one window

  /** The scale of an opening or minimizing window counts when it is not close to 1. */
  predicate Scaled(w: Win) { w.scale > 0.02 && (w.scale < 0.996 || w.scale > 1.004) }

  /** C's conversion to int. */
  function Trunc(r: real): int { if r >= 0.0 then r.Floor else -((-r).Floor) }

  /** A side of length n after scaling, and where it starts when it was at x. */
  function Shrunk(n: int, scale: real): int { Trunc(n as real * scale) }

  function Inset(x: int, n: int, scale: real): int { Trunc(x as real + n as real / 2.0 - n as real * scale / 2.0) }

  /** The rectangle a scaled blit fills, computed from the window's place at paint time. */
  function Target(w: Win): Rect {
    Rect(Inset(w.cur.x, w.cur.w, w.scale), Inset(w.cur.y, w.cur.h, w.scale), Shrunk(w.cur.w, w.scale), Shrunk(w.cur.h, w.scale))
  }

  lemma TruncNear(r: real)
    ensures r - 1.0 < Trunc(r) as real < r + 1.0 && (r >= 0.0 ==> Trunc(r) as real <= r)
  {
  }

  lemma PartOf(m: real, scale: real)
    requires m >= 0.0 && 0.0 <= scale <= 1.0
    ensures 0.0 <= m * scale <= m
  {
    assert m * scale <= m * 1.0;
  }

  /** Shrinking around the middle stays within one pixel of the side. */
  lemma InsetInside(x: int, n: int, scale: real)
    requires n >= 0 && 0.0 <= scale <= 1.0
    ensures x - 1 <= Inset(x, n, scale) && Inset(x, n, scale) + Shrunk(n, scale) <= x + n + 1
  {
    var m := n as real;
    var q := m * scale;
    PartOf(m, scale);
    Halves(x, n, q);
  }

  lemma Halves(x: int, n: int, q: real)
    requires 0.0 <= q <= n as real
    ensures x - 1 <= Trunc(x as real + n as real / 2.0 - q / 2.0) && Trunc(x as real + n as real / 2.0 - q / 2.0) + Trunc(q) <= x + n + 1
  {
    TruncNear(x as real + n as real / 2.0 - q / 2.0);
    TruncNear(q);
    hide Trunc;
  }

  function TitleBar(w: Win): Rect { Rect(w.cur.x, w.cur.y - DECO_H, w.cur.w, DECO_H) }

  /** The pixels the decoration may touch: the rounded bar (ten pixels taller than the title
      bar), the three buttons and the title box, which is drawn only when it is not empty. */
  predicate DecoInk(w: Win, p: Point) {
    var tb := TitleBar(w);
    || Rect(tb.x, tb.y, tb.w, DECO_H + 10).Has(p)
    || Rect(tb.x + 14, tb.y + 9, 12, 12).Has(p)
    || Rect(tb.x + 34, tb.y + 9, 12, 12).Has(p)
    || Rect(tb.x + 54, tb.y + 9, 12, 12).Has(p)
    || Rect(tb.x + 84, tb.y, tb.w - 168, DECO_H).Has(p)
  }

  function ContentPixel(P: Painter, w: Win, clip: Rect, p: Point, c: Color): Color {
    if w.surf.None? || Intersect(w.cur, clip).Empty() then c
    else if Scaled(w) then
      var dst := Intersect(Target(w), clip);
      if dst.Has(p) then P.blitScaled(w.surf.value, dst, Op(w), p, c) else c
    else
      var local := Point(p.x - w.cur.x, p.y - w.cur.y);
      if w.cur.Has(p) && local in w.surf.value then P.blend(w.surf.value[local], Op(w), c) else c
  }

  /** Colour of pixel p of the clip after paint_window, given colour c before it. */
  function WindowPixel(P: Painter, mode: nat, front: nat, w: Win, clip: Rect, p: Point, c: Color): Color {
    var frame := Frame(w);
    if Intersect(frame, clip).Empty() || Op(w) == 0 then c
    else
      var c1 := if mode != MODE_PERFORMANCE && !w.borderless && frame.Grown(MARGIN).Has(p)
                then P.shadow(frame, Op(w), p, c) else c;
      var c2 := if !w.borderless && DecoInk(w, p)
                then P.deco(w.title, TitleBar(w), w.uid == front, w.opacity, p, c1) else c1;
      var c3 := ContentPixel(P, w, clip, p, c2);
      if frame.Has(p) then P.hairline(frame, Op(w), p, c3) else c3
  }

  function PaintedPixel(P: Painter, v: View, front: nat, w: Win, clip: Rect, p: Point, c: Color): Color {
    if Visible(w, v.curWs) then WindowPixel(P, v.mode, front, w, clip, p, c) else c
  }

  /** The windows of z painted back to front over c. */
  function WindowsPixel(P: Painter, v: View, front: nat, z: seq<Win>, clip: Rect, p: Point, c: Color): Color {
    if z == [] then c
    else PaintedPixel(P, v, front, z[0], clip, p, WindowsPixel(P, v, front, z[1..], clip, p, c))
  }

  // ------------------------------------------------------------ notifications

  function NoticeBox(screen: Rect, n: Notice, y: int): Rect {
    Rect(screen.w - 352 + n.off, y, 340, 76)
  }

  /** The notification slots from slot i on, the first used one at height y. */
  function NoticesPixel(P: Painter, v: View, i: nat, y: int, clip: Rect, p: Point, c: Color): Color
    decreases |v.notices| - i
  {
    if i >= |v.notices| then c
    else if v.notices[i].title == "" then NoticesPixel(P, v, i + 1, y, clip, p, c)
    else NoticesPixel(P, v, i + 1, y + 86, clip, p, NoticePixel(P, v, v.notices[i], y, clip, p, c))
  }

  /** One notification: nothing when its box misses the clip, its shadow only outside
      PERFORMANCE mode, and otherwise ink inside its box. */
  function NoticePixel(P: Painter, v: View, n: Notice, y: int, clip: Rect, p: Point, c: Color): Color {
    var box := NoticeBox(v.screen, n, y);
    var reach := if v.mode != MODE_PERFORMANCE then box.Grown(MARGIN) else box;
    if !box.Meets(clip) || !reach.Has(p) then c
    else P.notice(n.title, n.body, n.icon, box, v.mode != MODE_PERFORMANCE, p, c)
  }

  // ------------------------------------------------------------ the scene

  /** The address of the front window; an empty list has none, and then it does not matter. */
  function FrontUid(z: seq<Win>): nat { if z == [] then 0 else z[0].uid }

  function Painted(z: seq<Win>): seq<Win> { if |z| <= MAX_PAINTED then z else z[..MAX_PAINTED] }

  /** The scene at p as a repaint clipped to `clip` computes it. */
  function ClippedPixel(P: Painter, v: View, clip: Rect, p: Point): Color {
    NoticesPixel(P, v, 0, 34, clip, p,
      WindowsPixel(P, v, FrontUid(v.z), Painted(v.z), clip, p, P.wallpaper(p)))
  }

  /** The reference: the scene at p as a repaint of the whole screen computes it. */
  function ScenePixel(P: Painter, v: View, p: Point): Color {
    ClippedPixel(P, v, v.screen, p)
  }

  // ------------------------------------------------------------ clip independence

  /** A window whose paint does not depend on the clip. */
  ghost predicate ClipFree(P: Painter, mode: nat, front: nat, w: Win, screen: Rect) {
    forall clip, p, c :: screen.Contains(clip) && clip.Has(p) ==>
      WindowPixel(P, mode, front, w, clip, p, c) == WindowPixel(P, mode, front, w, screen, p, c)
  }

  /** The window changes no pixel of the screen outside its frame. */
  ghost predicate InkInFrame(P: Painter, mode: nat, front: nat, w: Win, screen: Rect) {
    forall p, c :: screen.Has(p) && !Frame(w).Has(p) ==> WindowPixel(P, mode, front, w, screen, p, c) == c
  }

  lemma MeetsAt(a: Rect, b: Rect, p: Point)
    requires a.Has(p) && b.Has(p)
    ensures !Intersect(a, b).Empty()
  {
    assert Intersect(a, b).Has(p);
  }

  /** Painting an unscaled window is independent of the clip exactly when all its ink on the
      screen is inside its frame. */
  lemma ClipFreeIffInkInFrame(P: Painter, mode: nat, front: nat, w: Win, screen: Rect)
    requires !Scaled(w)
    ensures ClipFree(P, mode, front, w, screen) <==> InkInFrame(P, mode, front, w, screen)
  {
    if ClipFree(P, mode, front, w, screen) {
      forall p, c | screen.Has(p) && !Frame(w).Has(p)
        ensures WindowPixel(P, mode, front, w, screen, p, c) == c
      {
        var clip := Rect(p.x, p.y, 1, 1);
        assert screen.Contains(clip) && clip.Has(p);
        OnePixelMisses(Frame(w), p);
        assert WindowPixel(P, mode, front, w, clip, p, c) == c;
      }
    }
    if InkInFrame(P, mode, front, w, screen) {
      forall clip, p, c | screen.Contains(clip) && clip.Has(p)
        ensures WindowPixel(P, mode, front, w, clip, p, c) == WindowPixel(P, mode, front, w, screen, p, c)
      {
        assert screen.Has(p);
        UnscaledSamePixel(P, mode, front, w, screen, clip, p, c);
      }
    }
  }

  lemma OnePixelMisses(f: Rect, p: Point)
    requires !f.Has(p)
    ensures Intersect(f, Rect(p.x, p.y, 1, 1)).Empty()
  {
  }

  /** An unscaled window paints p the same under every clip that meets its frame. */
  lemma UnscaledSamePixel(P: Painter, mode: nat, front: nat, w: Win, screen: Rect, clip: Rect, p: Point, c: Color)
    requires !Scaled(w) && screen.Contains(clip) && clip.Has(p)
    ensures WindowPixel(P, mode, front, w, clip, p, c) ==
            if Intersect(Frame(w), clip).Empty() then c else WindowPixel(P, mode, front, w, screen, p, c)
    ensures Frame(w).Has(p) ==> !Intersect(Frame(w), clip).Empty()
  {
    if Frame(w).Has(p) { MeetsAt(Frame(w), clip, p); }
    if !Intersect(Frame(w), clip).Empty() {
      var q := Intersect(Frame(w), clip);
      assert q.Has(Point(q.x, q.y));
      MeetsAt(Frame(w), screen, Point(q.x, q.y));
    }
    if w.cur.Has(p) {
      MeetsAt(w.cur, clip, p);
      MeetsAt(w.cur, screen, p);
    }
  }

  /** A window drawn without shadow or scaling and large enough for its own decoration. */
  predicate Plain(w: Win, mode: nat) {
    && !Scaled(w)
    && (w.borderless || (mode == MODE_PERFORMANCE && w.cur.w >= 66 && w.cur.h >= 10))
  }

  lemma PlainIsClipFree(P: Painter, mode: nat, front: nat, w: Win, screen: Rect)
    requires Plain(w, mode)
    ensures ClipFree(P, mode, front, w, screen)
  {
    ClipFreeIffInkInFrame(P, mode, front, w, screen);
  }

  /** In PERFORMANCE mode a notification's paint does not depend on the clip either. */
  lemma NoticesClipFree(P: Painter, v: View, i: nat, y: int, clip: Rect, p: Point, c: Color)
    requires v.mode == MODE_PERFORMANCE && v.screen.Contains(clip) && clip.Has(p)
    ensures NoticesPixel(P, v, i, y, clip, p, c) == NoticesPixel(P, v, i, y, v.screen, p, c)
    decreases |v.notices| - i
  {
    if i < |v.notices| {
      var box := NoticeBox(v.screen, v.notices[i], y);
      if box.Has(p) {
        MeetsAt(box, clip, p);
        MeetsAt(box, v.screen, p);
      }
      NoticesClipFree(P, v, i + 1, y, clip, p, c);
      NoticesClipFree(P, v, i + 1, y + 86, clip, p, NoticePixel(P, v, v.notices[i], y, clip, p, c));
    }
  }

  // ------------------------------------------------------------ pixels that do not depend on the clip

  /** The box win_damage_all invalidates. */
  function Reach(w: Win): Rect { Frame(w).Grown(MARGIN) }

  /** The window is large enough for its decoration to stay inside Reach, and not blown up. */
  predicate Fits(w: Win) {
    && (w.borderless || (w.cur.w >= 32 && w.cur.h >= 0))
    && w.scale <= 1.0
  }

  /** A scaled blit is centred on its window, but for rounding. */
  lemma TargetCentred(w: Win)
    requires w.scale >= 0.0 && w.cur.w >= 0 && w.cur.h >= 0
    ensures var r := Target(w);
            && -3 <= (2 * r.x + r.w) - (2 * w.cur.x + w.cur.w) <= 3 && -3 <= (2 * r.y + r.h) - (2 * w.cur.y + w.cur.h) <= 3
            && r.w as real <= w.cur.w as real * w.scale < r.w as real + 1.0
            && r.h as real <= w.cur.h as real * w.scale < r.h as real + 1.0
  {
    SideCentred(w.cur.x, w.cur.w, w.scale);
    SideCentred(w.cur.y, w.cur.h, w.scale);
  }

  lemma SideCentred(x: int, n: int, scale: real)
    requires scale >= 0.0 && n >= 0
    ensures -3 <= (2 * Inset(x, n, scale) + Shrunk(n, scale)) - (2 * x + n) <= 3
    ensures Shrunk(n, scale) as real <= n as real * scale < Shrunk(n, scale) as real + 1.0
  {
    assert n as real * scale >= 0.0;
    TruncNear(x as real + n as real / 2.0 - n as real * scale / 2.0);
    TruncNear(n as real * scale);
  }

  /** A scaled window that fits does not blit outside its reach. */
  lemma TargetInReach(w: Win)
    requires Fits(w) && Scaled(w) && !w.cur.Empty()
    ensures Reach(w).Contains(Target(w))
  {
    hide Inset, Shrunk;
    InsetInside(w.cur.x, w.cur.w, w.scale);
    InsetInside(w.cur.y, w.cur.h, w.scale);
  }

  /** The pixels outside its frame that a window's shadow and decoration may touch. */
  predicate SpillsAt(w: Win, mode: nat, p: Point) {
    !w.borderless && !Frame(w).Has(p) && (DecoInk(w, p) || (mode != MODE_PERFORMANCE && Reach(w).Has(p)))
  }

  /** A window that fits changes nothing outside its reach. */
  lemma MissedWindow(P: Painter, mode: nat, front: nat, w: Win, clip: Rect, p: Point, c: Color)
    requires Fits(w) && !Reach(w).Has(p)
    ensures WindowPixel(P, mode, front, w, clip, p, c) == c
  {
    hide Target;
    if Scaled(w) && !w.cur.Empty() { TargetInReach(w); }
  }

  /** The window stays away from p, or what it paints there is the same under every clip. */
  predicate SmoothAt(w: Win, mode: nat, p: Point) {
    (!Scaled(w) && !SpillsAt(w, mode, p)) || (Fits(w) && !Reach(w).Has(p))
  }

  lemma SmoothWindow(P: Painter, mode: nat, front: nat, w: Win, screen: Rect, clip: Rect, p: Point, c: Color)
    requires SmoothAt(w, mode, p) && screen.Contains(clip) && clip.Has(p)
    ensures WindowPixel(P, mode, front, w, clip, p, c) == WindowPixel(P, mode, front, w, screen, p, c)
  {
    if !Scaled(w) && !SpillsAt(w, mode, p) {
      UnscaledSamePixel(P, mode, front, w, screen, clip, p, c);
    } else {
      MissedWindow(P, mode, front, w, clip, p, c);
      MissedWindow(P, mode, front, w, screen, p, c);
    }
  }

  /** A notification as it is painted: its texts and its box. */
  datatype Slot = Slot(title: string, body: string, icon: string, box: Rect)

  /** The used slots from slot i on that paint at p, in order. */
  function SlotsAt(v: View, i: nat, y: int, p: Point): seq<Slot>
    decreases |v.notices| - i
  {
    if i >= |v.notices| then []
    else if v.notices[i].title == "" then SlotsAt(v, i + 1, y, p)
    else
      var n, box := v.notices[i], NoticeBox(v.screen, v.notices[i], y);
      var reach := if v.mode != MODE_PERFORMANCE then box.Grown(MARGIN) else box;
      (if box.Meets(v.screen) && reach.Has(p) then [Slot(n.title, n.body, n.icon, box)] else []) + SlotsAt(v, i + 1, y + 86, p)
  }

  function Slots(v: View, p: Point): seq<Slot> { SlotsAt(v, 0, 34, p) }

  function SlotsPixel(P: Painter, mode: nat, slots: seq<Slot>, p: Point, c: Color): Color {
    if slots == [] then c
    else
      var s := slots[0];
      SlotsPixel(P, mode, slots[1..], p, P.notice(s.title, s.body, s.icon, s.box, mode != MODE_PERFORMANCE, p, c))
  }

  /** What notifications paint at p is decided by the slots there. */
  lemma NoticesAreSlots(P: Painter, v: View, i: nat, y: int, p: Point, c: Color)
    ensures NoticesPixel(P, v, i, y, v.screen, p, c) == SlotsPixel(P, v.mode, SlotsAt(v, i, y, p), p, c)
    decreases |v.notices| - i
  {
    if i < |v.notices| && v.notices[i].title == "" {
      NoticesAreSlots(P, v, i + 1, y, p, c);
    } else if i < |v.notices| {
      var rest := SlotsAt(v, i + 1, y + 86, p);
      NoticesAreSlots(P, v, i + 1, y + 86, p, NoticePixel(P, v, v.notices[i], y, v.screen, p, c));
      var n := v.notices[i];
      var slot := Slot(n.title, n.body, n.icon, NoticeBox(v.screen, n, y));
      assert ([slot] + rest)[1..] == rest;
      assert [] + rest == rest;
    }
  }

  /** No notification casts its shadow on p from outside. */
  predicate AllInside(slots: seq<Slot>, p: Point) { forall i :: 0 <= i < |slots| ==> slots[i].box.Has(p) }

  predicate NoticesSmooth(v: View, p: Point) { v.mode == MODE_PERFORMANCE || AllInside(Slots(v, p), p) }

  lemma MeetsLess(box: Rect, screen: Rect, clip: Rect)
    requires screen.Contains(clip) && box.Meets(clip)
    ensures box.Meets(screen)
  {
  }

  lemma NoticeSameClip(P: Painter, v: View, n: Notice, y: int, clip: Rect, p: Point, c: Color)
    requires v.screen.Contains(clip) && clip.Has(p)
    requires var box := NoticeBox(v.screen, n, y);
             box.Meets(v.screen) && (if v.mode != MODE_PERFORMANCE then box.Grown(MARGIN) else box).Has(p) ==> box.Has(p)
    ensures NoticePixel(P, v, n, y, clip, p, c) == NoticePixel(P, v, n, y, v.screen, p, c)
  {
    var box := NoticeBox(v.screen, n, y);
    if box.Meets(clip) { MeetsLess(box, v.screen, clip); }
    if box.Has(p) { MeetsAt(box, clip, p); }
  }

  lemma InsideParts(a: seq<Slot>, b: seq<Slot>, p: Point)
    requires AllInside(a + b, p)
    ensures AllInside(a, p) && AllInside(b, p)
  {
    assert forall i :: 0 <= i < |a| ==> (a + b)[i] == a[i];
    assert forall i :: 0 <= i < |b| ==> (a + b)[|a| + i] == b[i];
  }

  /** Where no shadow falls from outside, notifications paint the same under every clip. */
  lemma NoticesSameClip(P: Painter, v: View, i: nat, y: int, clip: Rect, p: Point, c: Color)
    requires v.screen.Contains(clip) && clip.Has(p) && AllInside(SlotsAt(v, i, y, p), p)
    ensures NoticesPixel(P, v, i, y, clip, p, c) == NoticesPixel(P, v, i, y, v.screen, p, c)
    decreases |v.notices| - i
  {
    hide NoticePixel;
    if i < |v.notices| && v.notices[i].title == "" {
      NoticesSameClip(P, v, i + 1, y, clip, p, c);
    } else if i < |v.notices| {
      var n, rest := v.notices[i], SlotsAt(v, i + 1, y + 86, p);
      var slot := Slot(n.title, n.body, n.icon, NoticeBox(v.screen, n, y));
      InsideParts(if SlotsAt(v, i, y, p) == [slot] + rest then [slot] else [], rest, p);
      assert [slot][0] == slot;
      NoticeSameClip(P, v, n, y, clip, p, c);
      NoticesSameClip(P, v, i + 1, y + 86, clip, p, NoticePixel(P, v, n, y, clip, p, c));
    }
  }

  /** Nothing that would be painted at p depends on the clip: every visible window is unscaled and
      does not spill over its frame there, or stays away. */
  predicate Smooth(v: View, p: Point) {
    NoticesSmooth(v, p) && forall i :: 0 <= i < |v.z| && Visible(v.z[i], v.curWs) ==> SmoothAt(v.z[i], v.mode, p)
  }

  lemma WindowsSmooth(P: Painter, v: View, front: nat, z: seq<Win>, clip: Rect, p: Point, c: Color)
    requires forall i :: 0 <= i < |z| && Visible(z[i], v.curWs) ==> SmoothAt(z[i], v.mode, p)
    requires v.screen.Contains(clip) && clip.Has(p)
    ensures WindowsPixel(P, v, front, z, clip, p, c) == WindowsPixel(P, v, front, z, v.screen, p, c)
  {
    if z != [] {
      WindowsSmooth(P, v, front, z[1..], clip, p, c);
      if Visible(z[0], v.curWs) {
        SmoothWindow(P, v.mode, front, z[0], v.screen, clip, p, WindowsPixel(P, v, front, z[1..], clip, p, c));
      }
    }
  }

  /** A smooth pixel has the same colour under every clip that has it, whatever the rest of the
      scene looks like. */
  lemma SmoothScene(P: Painter, v: View, clip: Rect, p: Point)
    requires Smooth(v, p) && v.screen.Contains(clip) && clip.Has(p)
    ensures ClippedPixel(P, v, clip, p) == ScenePixel(P, v, p)
  {
    var c := P.wallpaper(p);
    var w := WindowsPixel(P, v, FrontUid(v.z), Painted(v.z), clip, p, c);
    WindowsSmooth(P, v, FrontUid(v.z), Painted(v.z), clip, p, c);
    if v.mode == MODE_PERFORMANCE {
      NoticesClipFree(P, v, 0, 34, clip, p, w);
    } else {
      NoticesSameClip(P, v, 0, 34, clip, p, w);
    }
  }

  /** Every window that would be painted is plain, and notifications carry no shadow. */
  predicate Settled(v: View) {
    && v.mode == MODE_PERFORMANCE
    && forall i :: 0 <= i < |v.z| && Visible(v.z[i], v.curWs) ==> Plain(v.z[i], v.mode)
  }

  /** A settled scene is smooth everywhere. */
  lemma SettledIsSmooth(v: View, p: Point)
    requires Settled(v)
    ensures Smooth(v, p)
  {
  }

  /** The decoration of w, if it were the front window or ceased to be, would look different at p. */
  predicate ShowsFocus(v: View, w: Win, p: Point) {
    && Visible(w, v.curWs) && !w.borderless && Op(w) != 0
    && !Intersect(Frame(w), v.screen).Empty() && DecoInk(w, p)
  }

  /** Among plain windows, the one win_at finds is the last one painted at p: the windows in
      front of it leave p alone, and where it finds none, p keeps the colour below. */
  lemma HitIsPaintedLast(P: Painter, v: View, front: nat, z: seq<Win>, p: Point, c: Color)
    requires forall i :: 0 <= i < |z| && Visible(z[i], v.curWs) ==> Plain(z[i], v.mode)
    requires v.screen.Has(p)
    ensures var k := HitIndex(z, v.curWs, p);
            WindowsPixel(P, v, front, z, v.screen, p, c) ==
            if k == |z| then c
            else WindowPixel(P, v.mode, front, z[k], v.screen, p, WindowsPixel(P, v, front, z[k + 1..], v.screen, p, c))
  {
    if z != [] {
      HitStep(z, v.curWs, p);
      WindowsStep(P, v, front, z, v.screen, p, c);
      if Under(z[0], v.curWs, p) {
        hide WindowPixel, WindowsPixel, HitIndex, Plain;
      } else {
        if Visible(z[0], v.curWs) {
          PlainMisses(P, v.mode, front, z[0], v.screen, p, WindowsPixel(P, v, front, z[1..], v.screen, p, c));
        }
        hide *;
        HitIsPaintedLast(P, v, front, z[1..], p, c);
        var k := HitIndex(z[1..], v.curWs, p);
        if k < |z[1..]| { assert z[1..][k] == z[k + 1] && z[1..][k + 1..] == z[k + 2..]; }
      }
    }
  }

  lemma HitStep(z: seq<Win>, ws: int, p: Point)
    requires z != []
    ensures HitIndex(z, ws, p) == if Under(z[0], ws, p) then 0 else 1 + HitIndex(z[1..], ws, p)
    ensures HitIndex(z[1..], ws, p) <= |z| - 1
  {
  }

  lemma WindowsStep(P: Painter, v: View, front: nat, z: seq<Win>, clip: Rect, p: Point, c: Color)
    requires z != []
    ensures var below := WindowsPixel(P, v, front, z[1..], clip, p, c);
            WindowsPixel(P, v, front, z, clip, p, c) ==
            if Visible(z[0], v.curWs) then WindowPixel(P, v.mode, front, z[0], clip, p, below) else below
  {
    hide WindowPixel, Visible;
  }

  lemma PlainMisses(P: Painter, mode: nat, front: nat, w: Win, screen: Rect, p: Point, c: Color)
    requires Plain(w, mode) && screen.Has(p) && !Frame(w).Has(p)
    ensures WindowPixel(P, mode, front, w, screen, p, c) == c
  {
    PlainIsClipFree(P, mode, front, w, screen);
    ClipFreeIffInkInFrame(P, mode, front, w, screen);
  }
}
