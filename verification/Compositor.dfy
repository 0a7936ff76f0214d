/** The compositor's state and event handlers (compositor/comp.c). */
module Compositor {
  import opened Geometry
  import opened Numbers
  import opened Wrappers
  import opened Stacking
  import opened Scene
  import opened Damage
  import opened Repaint
  import opened Animation
  import Region
  import EffectReduction

  const N_WS := 4

  /** damage_add: the part of r on the screen joins the damage. */
  function Added(g: seq<Rect>, r: Rect, screen: Rect): (g': seq<Rect>)
    ensures Region.NonEmpty(g) ==> Region.NonEmpty(g')
    ensures AllIn(g, screen) ==> AllIn(g', screen)
  {
    if Intersect(r, screen).Empty() then g else g + [Intersect(r, screen)]
  }

  lemma AddedCovers(g: seq<Rect>, r: Rect, screen: Rect, p: Point)
    ensures Covers(Added(g, r, screen), p) <==> Covers(g, p) || (r.Has(p) && screen.Has(p))
  {
    CoversAppend(g, Intersect(r, screen), p);
    if r.Has(p) && screen.Has(p) { MeetsAt(r, screen, p); }
  }

  /** The addresses of the listed windows. */
  function Uids(z: seq<Win>): set<nat> { set w | w in z :: w.uid }

  predicate Listed(uids: set<nat>, u: Option<nat>) { u.Some? ==> u.value in uids }

  /** The index of the first window with the client's id, or |z|. */
  function IndexOf(z: seq<Win>, id: int): (k: nat)
    ensures k <= |z| && (k < |z| ==> z[k].id == id) && forall i :: 0 <= i < k ==> z[i].id != id
  {
    if z == [] then 0
    else if z[0].id == id then 0
    else 1 + IndexOf(z[1..], id)
  }

  /** The list one repaint can show in full, with every window large enough for its frame. */
  predicate Sane(z: seq<Win>) {
    |z| <= MAX_PAINTED && forall i :: 0 <= i < |z| ==> Fits(z[i])
  }

  /** The new pixels agree with the window's at a local point. */
  predicate Agrees(w: Win, surf: map<Point, Color>, q: Point) {
    w.surf.Some? && (q in surf <==> q in w.surf.value) && (q in surf ==> surf[q] == w.surf.value[q])
  }

  function Local(w: Win, p: Point): Point { Point(p.x - w.cur.x, p.y - w.cur.y) }

  /** Where a commit of the first n damage rectangles changes the window's contents without
      reporting it. No rectangles report the whole window. */
  ghost function Unreported(w: Win, surf: map<Point, Color>, n: nat, rects: seq<Rect>): iset<Point>
    requires |rects| == 32
  {
    iset p: Point | n > 0 && !Agrees(w, surf, Local(w, p)) && !Covers(rects[..Min(n, 32)], Local(w, p))
  }

  function Dragged(w: Win, dx: int, dy: int): Win {
    w.(cur := w.cur.Moved(dx, dy), tgt := w.cur.Moved(dx, dy))
  }

  /** MC_WIN_PLACE and MC_WIN_RESIZE on one window. */
  function Placed(w: Win, x: int, y: int): Win { w.(cur := w.cur.(x := x, y := y), tgt := w.tgt.(x := x, y := y)) }

  function Resized(w: Win, width: int, height: int, surf: map<Point, Color>): Win {
    w.(surf := Some(surf), cur := w.cur.(w := width, h := height), tgt := w.tgt.(w := width, h := height))
  }

  /** A window resized from its bottom right corner, within the limits input_move sets. */
  function Stretched(w: Win, dx: int, dy: int, screen: Rect): Win {
    var cur := w.cur.(w := Clamp(w.cur.w + dx, 240, screen.w), h := Clamp(w.cur.h + dy, 160, screen.h));
    w.(cur := cur, tgt := cur)
  }

  lemma SameBox(w: Win, w': Win)
    requires w'.cur == w.cur && w'.borderless == w.borderless && w'.scale == w.scale
    ensures Frame(w') == Frame(w) && Reach(w') == Reach(w) && (Fits(w) ==> Fits(w'))
  {
  }

  lemma SaneTouched(z: seq<Win>, k: nat, w: Win)
    requires k < |z| && Sane(z) && w.cur == z[k].cur && w.borderless == z[k].borderless && w.scale == z[k].scale
    ensures Sane(z[k := w])
  {
    assert Fits(z[k]);
  }

  function SlotFor(n: seq<Notice>): (s: nat)
    requires |n| == MAX_NOTIFS
    ensures s < MAX_NOTIFS && if n[s].title == "" then forall i :: 0 <= i < s ==> n[i].title != ""
                              else s == 0 && forall i :: 0 <= i < MAX_NOTIFS ==> n[i].title != ""
  {
    if n[0].title == "" then 0 else if n[1].title == "" then 1 else if n[2].title == "" then 2 else 0
  }

  /** A commit changes the scene at a smooth pixel only under the damage it reports and where it
      fails to report. */
  lemma CommitSound(P: Painter, v: View, k: nat, surf: map<Point, Color>, n: nat, rects: seq<Rect>, p: Point)
    requires k < |v.z| && Sane(v.z) && DistinctUids(v.z) && |rects| == 32
    requires Smooth(v.(z := v.z[k := v.z[k].(surf := Some(surf))]), p) && p !in Unreported(v.z[k], surf, n, rects)
    requires n == 0 ==> !Reach(v.z[k]).Has(p)
    requires forall j :: 0 <= j < Min(n, 32) ==> !rects[j].Moved(v.z[k].cur.x, v.z[k].cur.y).Has(p)
    ensures ScenePixel(P, v, p) == ScenePixel(P, v.(z := v.z[k := v.z[k].(surf := Some(surf))]), p)
  {
    var w := v.z[k].(surf := Some(surf));
    var v' := v.(z := v.z[k := w]);
    assert v'.z[k] == w;
    if n == 0 || (Fits(w) && !Reach(w).Has(p)) {
      assert Fits(v.z[k]);
      WindowChangeSound(P, v, k, w, p);
    } else {
      CommitAgrees(v.z[k], surf, n, rects, p);
      assert Visible(w, v.curWs) ==> SmoothAt(w, v.mode, p);
      hide Smooth, Sane;
      forall c ensures PaintedPixel(P, v, FrontUid(v.z), v.z[k], v.screen, p, c)
                    == PaintedPixel(P, v, FrontUid(v.z), w, v.screen, p, c)
      {
        if Visible(w, v.curWs) { SameSurfacePixel(P, v, v.z[k], surf, p, c); }
      }
      SamePaintSound(P, v, k, w, p);
    }
  }

  lemma CommitAgrees(w: Win, surf: map<Point, Color>, n: nat, rects: seq<Rect>, p: Point)
    requires |rects| == 32 && n > 0 && p !in Unreported(w, surf, n, rects)
    requires forall j :: 0 <= j < Min(n, 32) ==> !rects[j].Moved(w.cur.x, w.cur.y).Has(p)
    ensures Agrees(w, surf, Local(w, p))
  {
    var sent := rects[..Min(n, 32)];
    if Covers(sent, Local(w, p)) {
      var j :| 0 <= j < |sent| && sent[j].Has(Local(w, p));
      assert rects[j].Moved(w.cur.x, w.cur.y).Has(p);
    }
  }

  /** Outside the reach of the window that changed, what is smooth after was smooth before. */
  lemma SmoothReplaced(v: View, k: nat, w: Win, p: Point)
    requires k < |v.z| && Smooth(v.(z := v.z[k := w]), p) && Fits(v.z[k]) && !Reach(v.z[k]).Has(p)
    ensures Smooth(v, p)
  {
    SlotsFields(v, v.(z := v.z[k := w]), 0, 34, p);
    var z := v.z[k := w];
    forall i | 0 <= i < |v.z| && Visible(v.z[i], v.curWs) ensures SmoothAt(v.z[i], v.mode, p) {
      assert i != k ==> z[i] == v.z[i];
    }
  }

  lemma SmoothSurface(v: View, k: nat, surf: map<Point, Color>, p: Point)
    requires k < |v.z| && Smooth(v.(z := v.z[k := v.z[k].(surf := Some(surf))]), p)
    ensures Smooth(v, p)
  {
    SlotsFields(v, v.(z := v.z[k := v.z[k].(surf := Some(surf))]), 0, 34, p);
    var w := v.z[k].(surf := Some(surf));
    var z := v.z[k := w];
    assert Frame(w) == Frame(v.z[k]) && TitleBar(w) == TitleBar(v.z[k]);
    assert SmoothAt(w, v.mode, p) ==> SmoothAt(v.z[k], v.mode, p);
    forall i | 0 <= i < |v.z| && Visible(v.z[i], v.curWs) ensures SmoothAt(v.z[i], v.mode, p) {
      assert i != k ==> z[i] == v.z[i];
      assert Visible(z[i], v.curWs);
    }
  }

  lemma SmoothRemoved(v: View, k: nat, p: Point)
    requires k < |v.z| && Smooth(v.(z := RemoveAt(v.z, k)), p) && Misses(v.z[k], v.curWs, p)
    ensures Smooth(v, p)
  {
    SlotsFields(v, v.(z := RemoveAt(v.z, k)), 0, 34, p);
    var z := RemoveAt(v.z, k);
    forall i | 0 <= i < |v.z| && Visible(v.z[i], v.curWs) ensures SmoothAt(v.z[i], v.mode, p) {
      if i < k { assert z[i] == v.z[i]; } else if i > k { assert z[i - 1] == v.z[i]; }
    }
  }

  lemma SmoothFocused(v: View, k: nat, p: Point)
    requires 0 < k < |v.z| && Smooth(v.(z := Focused(v.z, k)), p)
    requires Fits(v.z[0]) && Fits(v.z[k]) && !Reach(v.z[0]).Has(p) && !Reach(v.z[k]).Has(p)
    ensures Smooth(v, p)
  {
    SlotsFields(v, v.(z := Focused(v.z, k)), 0, 34, p);
    var z := Focused(v.z, k);
    forall i | 0 <= i < |v.z| && Visible(v.z[i], v.curWs) ensures SmoothAt(v.z[i], v.mode, p) {
      if 0 < i < k { assert z[i + 1] == v.z[i]; } else if i > k { assert z[i] == v.z[i]; }
    }
  }

  /** Damaging the old and the new box of a changed window keeps the framebuffer in step. */
  lemma WindowTracks(P: Painter, s: Sprite, v: View, k: nat, w: Win, fb: Framebuffer,
                     g: seq<Rect>, g': seq<Rect>, stale: iset<Point>, at: Option<Point>)
    requires k < |v.z| <= MAX_PAINTED && DistinctUids(v.z) && w.uid == v.z[k].uid && Fits(w) && Fits(v.z[k])
    requires Tracks(P, s, v, fb, g, stale, at) && forall p :: Covers(g, p) ==> Covers(g', p)
    requires forall p :: v.screen.Has(p) && (Reach(v.z[k]).Has(p) || Reach(w).Has(p)) ==> Covers(g', p)
    ensures Tracks(P, s, v.(z := v.z[k := w]), fb, g', stale, at)
  {
    var v' := v.(z := v.z[k := w]);
    hide Smooth, Tracks;
    forall p | v.screen.Has(p) && !Covers(g', p) && p !in stale && Smooth(v', p)
      ensures Smooth(v, p) && ScenePixel(P, v, p) == ScenePixel(P, v', p)
    {
      SmoothReplaced(v, k, w, p);
      WindowChangeSound(P, v, k, w, p);
    }
    TracksStep(P, s, v, v', fb, g, g', stale, stale, at);
  }

  lemma CommitTracks(P: Painter, s: Sprite, v: View, k: nat, surf: map<Point, Color>, n: nat, rects: seq<Rect>,
                     fb: Framebuffer, g: seq<Rect>, g': seq<Rect>, stale: iset<Point>, at: Option<Point>)
    requires k < |v.z| && Sane(v.z) && DistinctUids(v.z) && |rects| == 32
    requires Tracks(P, s, v, fb, g, stale, at) && forall p :: Covers(g, p) ==> Covers(g', p)
    requires n == 0 ==> forall p :: v.screen.Has(p) && Reach(v.z[k]).Has(p) ==> Covers(g', p)
    requires forall p, j ::
      0 <= j < Min(n, 32) && v.screen.Has(p) && rects[j].Moved(v.z[k].cur.x, v.z[k].cur.y).Has(p) ==> Covers(g', p)
    ensures Tracks(P, s, v.(z := v.z[k := v.z[k].(surf := Some(surf))]), fb, g', stale + Unreported(v.z[k], surf, n, rects), at)
  {
    var v' := v.(z := v.z[k := v.z[k].(surf := Some(surf))]);
    var stale' := stale + Unreported(v.z[k], surf, n, rects);
    hide Smooth, Tracks, Unreported, Sane;
    forall p | v.screen.Has(p) && !Covers(g', p) && p !in stale' && Smooth(v', p)
      ensures Smooth(v, p) && ScenePixel(P, v, p) == ScenePixel(P, v', p)
    {
      SmoothSurface(v, k, surf, p);
      CommitSound(P, v, k, surf, n, rects, p);
    }
    TracksStep(P, s, v, v', fb, g, g', stale, stale', at);
  }

  /** A new surface with the same colour under p paints p the same, unless the window is scaled there. */
  lemma SameSurfacePixel(P: Painter, v: View, w: Win, surf: map<Point, Color>, p: Point, c: Color)
    requires Agrees(w, surf, Local(w, p)) && !Scaled(w)
    ensures forall front :: PaintedPixel(P, v, front, w, v.screen, p, c)
                         == PaintedPixel(P, v, front, w.(surf := Some(surf)), v.screen, p, c)
  {
    var w' := w.(surf := Some(surf));
    forall d ensures ContentPixel(P, w, v.screen, p, d) == ContentPixel(P, w', v.screen, p, d) {
      SameContentPixel(P, w, surf, v.screen, p, d);
    }
    forall front ensures PaintedPixel(P, v, front, w, v.screen, p, c) == PaintedPixel(P, v, front, w', v.screen, p, c) {
      SameButSurface(P, v, front, w, w', p, c);
    }
  }

  lemma SameContentPixel(P: Painter, w: Win, surf: map<Point, Color>, clip: Rect, p: Point, c: Color)
    requires Agrees(w, surf, Local(w, p)) && !Scaled(w)
    ensures ContentPixel(P, w, clip, p, c) == ContentPixel(P, w.(surf := Some(surf)), clip, p, c)
  {
  }

  lemma SameButSurface(P: Painter, v: View, front: nat, w: Win, w': Win, p: Point, c: Color)
    requires w' == w.(surf := w'.surf)
    requires forall d :: ContentPixel(P, w, v.screen, p, d) == ContentPixel(P, w', v.screen, p, d)
    ensures PaintedPixel(P, v, front, w, v.screen, p, c) == PaintedPixel(P, v, front, w', v.screen, p, c)
  {
    assert Frame(w) == Frame(w') && Op(w) == Op(w') && TitleBar(w) == TitleBar(w') && DecoInk(w, p) == DecoInk(w', p);
  }

  /** The window list after focus_win on window k. */
  function FocusedList(z: seq<Win>, k: nat): seq<Win>
    requires k < |z|
  {
    if z[k].noFocus || (k == 0 && z[0].focused) then z
    else if k == 0 then z[0 := z[0].(focused := true)]
    else Focused(z, k)
  }

  /** The frontmost window other than k that can take focus, or |z|. */
  function NextFocus(z: seq<Win>, ws: int, k: nat): (n: nat)
    ensures n <= |z| && (n < |z| ==> n != k && Visible(z[n], ws) && !z[n].noFocus)
    ensures forall i :: 0 <= i < n ==> i == k || !Visible(z[i], ws) || z[i].noFocus
  {
    NextFocusFrom(z, ws, k, 0)
  }

  function NextFocusFrom(z: seq<Win>, ws: int, k: nat, i: nat): (n: nat)
    requires i <= |z| && forall j :: 0 <= j < i ==> j == k || !Visible(z[j], ws) || z[j].noFocus
    ensures n <= |z| && (n < |z| ==> n != k && Visible(z[n], ws) && !z[n].noFocus)
    ensures forall j :: 0 <= j < n ==> j == k || !Visible(z[j], ws) || z[j].noFocus
    decreases |z| - i
  {
    if i == |z| then i
    else if i != k && Visible(z[i], ws) && !z[i].noFocus then i
    else NextFocusFrom(z, ws, k, i + 1)
  }

  /** The list after win_close, minimize_win and toggle_maximize on window k. */
  function ClosedList(z: seq<Win>, k: nat, pool: bool): seq<Win>
    requires k < |z|
  {
    if z[k].closing then z else z[k := z[k].(closing := true, fading := pool)]
  }

  /** A window of a client that has gone loses it and closes. */
  function Orphaned(w: Win, client: nat, pool: nat -> bool): Win {
    if w.client == Some(client) && !w.closing then w.(client := None, closing := true, fading := pool(w.uid)) else w
  }

  function OrphanedList(z: seq<Win>, client: nat, pool: nat -> bool): seq<Win> {
    seq(|z|, i requires 0 <= i < |z| => Orphaned(z[i], client, pool))
  }

  /** How many of the first n windows start to fade then. */
  function Fades(z: seq<Win>, client: nat, pool: nat -> bool, n: nat): nat
    requires n <= |z|
  {
    if n == 0 then 0
    else
      var w := z[n - 1];
      Fades(z, client, pool, n - 1) + if w.client == Some(client) && !w.closing && pool(w.uid) then 1 else 0
  }

  lemma OrphanedBox(w: Win, client: nat, pool: nat -> bool)
    ensures var o := Orphaned(w, client, pool);
            o.uid == w.uid && Frame(o) == Frame(w) && (Fits(w) ==> Fits(o)) && (Homed(w) ==> Homed(o))
  {
  }

  function MinimizedList(z: seq<Win>, k: nat, pool: bool, ws: int): seq<Win>
    requires k < |z|
  {
    if z[k].minimized then z else
      var z1 := z[k := z[k].(minimized := true, closing := false, fading := pool)];
      var n := NextFocus(z1, ws, k);
      if n == |z1| then z1 else FocusedList(z1, n)
  }

  function Maximized(w: Win, pool: bool, screen: Rect): Win {
    var to := if w.maximized then Rect(120, 120, screen.w - 240, screen.h - 240)
              else Rect(0, DECO_H + 2, screen.w, screen.h - DECO_H - 2 - 84);
    w.(tgt := to, maximized := !w.maximized, glide := if pool then Some(to) else None)
  }

  lemma MaximizedBox(w: Win, pool: bool, screen: Rect)
    ensures var m := Maximized(w, pool, screen); m.uid == w.uid && Frame(m) == Frame(w) && (Fits(w) ==> Fits(m))
  {
  }

  function MaximizedList(z: seq<Win>, k: nat, pool: bool, screen: Rect): seq<Win>
    requires k < |z|
  {
    z[k := Maximized(z[k], pool, screen)]
  }

  /** What a press on title-bar button db does. */
  function Decorated(z: seq<Win>, k: nat, db: nat, pool: bool, ws: int, screen: Rect): seq<Win>
    requires k < |z|
  {
    if db == 0 then ClosedList(z, k, pool)
    else if db == 1 then MinimizedList(z, k, pool, ws)
    else MaximizedList(z, k, pool, screen)
  }

  /** in_deco of win_at, for the window that was hit. */
  predicate OnDeco(w: Win, p: Point) { !w.borderless && p.y < w.cur.y }

  /** For a window that is hit: the title bar. */
  lemma OnDecoExactly(w: Win, p: Point)
    requires Frame(w).Has(p)
    ensures OnDeco(w, p) <==> !w.borderless && TitleBar(w).Has(p)
    ensures !OnDeco(w, p) <==> w.cur.Has(p)
  {
  }

  function DecoratedBack(z: seq<Win>, k: nat, db: nat, pool: bool, ws: int, back: Option<nat>): Option<nat>
    requires k < |z|
  {
    if db == 1 then MinimizedBack(z, k, pool, ws, back) else back
  }

  /** deco_button_at: 0 close, 1 minimize, 2 maximize, 3 none. */
  function DecoButton(w: Win, p: Point): nat {
    var y := w.cur.y - DECO_H + 9;
    if w.borderless then 3
    else if Rect(w.cur.x + 14, y, 12, 12).Has(p) then 0
    else if Rect(w.cur.x + 34, y, 12, 12).Has(p) then 1
    else if Rect(w.cur.x + 54, y, 12, 12).Has(p) then 2
    else 3
  }

  /** The three buttons: 12 pixels square, 20 apart, in the title bar, where the decoration is drawn; a press
      elsewhere hits none. */
  lemma DecoButtonExactly(w: Win, p: Point, i: nat)
    requires i < 3
    ensures DecoButton(w, p) == i <==>
      !w.borderless && Rect(w.cur.x + 14 + 20 * i, w.cur.y - DECO_H + 9, 12, 12).Has(p)
    ensures DecoButton(w, p) == i ==> OnDeco(w, p) && DecoInk(w, p) && (w.cur.w >= 66 && w.cur.h >= 0 ==> Frame(w).Has(p))
  {
  }

  /** Maximizing heads for the whole width between the top margin and the dock, title bar included. */
  lemma MaximizedFills(w: Win, pool: bool, screen: Rect)
    requires !w.maximized
    ensures var m := Maximized(w, pool, screen);
            && m.maximized && m.cur == w.cur && m.glide == (if pool then Some(m.tgt) else None)
            && m.tgt.x == 0 && m.tgt.w == screen.w && m.tgt.y - DECO_H == 2 && m.tgt.y + m.tgt.h == screen.h - 84
  {
  }

  /** Undoing it does not bring back where the window was: the target is what it was before exactly if
      that was one fixed rectangle. */
  lemma UnmaximizedExactly(w: Win, pool: bool, screen: Rect)
    requires !w.maximized
    ensures var u := Maximized(Maximized(w, pool, screen), pool, screen);
            !u.maximized && (u.tgt == w.tgt <==> w.tgt == Rect(120, 120, screen.w - 240, screen.h - 240))
  {
    MaximizedFills(w, pool, screen);
    hide Maximized;
    Unmaximized(Maximized(w, pool, screen), pool, screen);
  }

  lemma Unmaximized(m: Win, pool: bool, screen: Rect)
    requires m.maximized
    ensures var u := Maximized(m, pool, screen); !u.maximized && u.tgt == Rect(120, 120, screen.w - 240, screen.h - 240)
  {
  }

  /** A new window is centred on the screen but for the cascade: of one size they step down to the right,
      and the seventh lies on the first. */
  lemma CascadeSteps(r: Request, uid: nat, uid': nat, n: nat, ws: int, screen: Rect)
    ensures var a, b := Requested(r, uid, n, ws, screen).cur, Requested(r, uid', n + 1, ws, screen).cur;
            n % 6 != 5 ==> b == a.Moved(28, 24)
    ensures Requested(r, uid, n, ws, screen).cur == Requested(r, uid', n + 6, ws, screen).cur
    ensures var a := Requested(r, uid, n, ws, screen).cur;
            && a.w == r.w && a.h == r.h
            && -1 <= (2 * a.x + a.w - screen.w) - (56 * (n % 6) - 168) <= 1
            && -1 <= (2 * a.y + a.h - screen.h) - (48 * (n % 6) - 120) <= 1
  {
  }

  lemma UidsReplaced(z: seq<Win>, k: nat, w: Win)
    requires k < |z| && w.uid == z[k].uid
    ensures Uids(z[k := w]) == Uids(z) && (DistinctUids(z) ==> DistinctUids(z[k := w]))
  {
    var r := z[k := w];
    assert forall i :: 0 <= i < |z| ==> r[i].uid == z[i].uid && r[i] in r && z[i] in z;
  }

  /** The index of the listed window with this address. */
  function UidIndex(z: seq<Win>, u: nat): (k: nat)
    requires u in Uids(z)
    ensures k < |z| && z[k].uid == u && forall i :: 0 <= i < k ==> z[i].uid != u
  {
    if z[0].uid == u then 0
    else
      assert u in Uids(z[1..]) by { var w :| w in z && w.uid == u; assert w in z[1..]; }
      1 + UidIndex(z[1..], u)
  }

  /** The windows of a list after the pointer moved by (dx, dy): the dragged one moves, otherwise the
      resized one stretches, if it is among them. */
  function Followed(z: seq<Win>, drag: Option<nat>, resizing: Option<nat>, dx: int, dy: int, screen: Rect): seq<Win> {
    if drag.Some? then
      if drag.value in Uids(z) then var k := UidIndex(z, drag.value); z[k := Dragged(z[k], dx, dy)] else z
    else if resizing.Some? && resizing.value in Uids(z) then
      var k := UidIndex(z, resizing.value); z[k := Stretched(z[k], dx, dy, screen)]
    else z
  }

  /** The window at p. */
  function Hit(z: seq<Win>, ws: int, p: Point): Option<nat> {
    var k := HitIndex(z, ws, p);
    if k < |z| then Some(z[k].uid) else None
  }

  /** Only place and target of window k have changed. */
  predicate OnlyMoved(z: seq<Win>, r: seq<Win>, k: nat) {
    k < |z| == |r| && r == z[k := z[k].(cur := r[k].cur, tgt := r[k].tgt)]
  }

  /** Window k was carried along by the pointer: it keeps its size and the pointer its place in it. */
  predicate Carried(z: seq<Win>, r: seq<Win>, k: nat, from: Point, to: Point) {
    && OnlyMoved(z, r, k) && r[k].tgt == r[k].cur
    && Local(r[k], to) == Local(z[k], from) && r[k].cur.w == z[k].cur.w && r[k].cur.h == z[k].cur.h
  }

  /** One edge follows the pointer between two limits: it keeps its distance, or it stops at a limit. */
  predicate Tugged(size: int, size': int, from: int, to: int, least: int, most: int) {
    if least <= size + (to - from) <= most then to - size' == from - size
    else size' == if size + (to - from) < least && least <= most then least else most
  }

  /** The lower right corner of window k followed the pointer, as far as the limits allow. */
  predicate Pulled(z: seq<Win>, r: seq<Win>, k: nat, from: Point, to: Point, screen: Rect) {
    && OnlyMoved(z, r, k) && r[k].tgt == r[k].cur && r[k].cur.x == z[k].cur.x && r[k].cur.y == z[k].cur.y
    && Tugged(z[k].cur.w, r[k].cur.w, from.x, to.x, 240, screen.w)
    && Tugged(z[k].cur.h, r[k].cur.h, from.y, to.y, 160, screen.h)
  }

  /** What a pointer move does to the windows: the dragged one is carried, otherwise the resized one is
      pulled at its corner, and nothing else changes. */
  lemma FollowedMeans(z: seq<Win>, drag: Option<nat>, resizing: Option<nat>, from: Point, to: Point, screen: Rect)
    ensures var r := Followed(z, drag, resizing, to.x - from.x, to.y - from.y, screen);
            if drag.Some? && drag.value in Uids(z) then Carried(z, r, UidIndex(z, drag.value), from, to)
            else if drag.None? && resizing.Some? && resizing.value in Uids(z) then
              Pulled(z, r, UidIndex(z, resizing.value), from, to, screen)
            else r == z
  {
  }

  /** Where window i of the raised list was before window k was raised. */
  function Origin(k: nat, i: nat): nat { if i == 0 then k else if i <= k then i - 1 else i }

  lemma FocusedOrigin(z: seq<Win>, k: nat, i: nat)
    requires 0 < k < |z| && i < |z|
    ensures var r := Focused(z, k);
            |r| == |z| && r[i].uid == z[Origin(k, i)].uid && Frame(r[i]) == Frame(z[Origin(k, i)])
            && (Fits(z[Origin(k, i)]) ==> Fits(r[i]))
  {
  }

  /** Raising keeps the windows, their addresses and their sizes. */
  lemma FocusedFacts(z: seq<Win>, k: nat)
    requires 0 < k < |z| && DistinctUids(z)
    ensures var r := Focused(z, k);
            |r| == |z| && DistinctUids(r) && Uids(r) == Uids(z) && (Sane(z) ==> Sane(r)) && Reach(r[0]) == Reach(z[k])
  {
    var r := Focused(z, k);
    forall i | 0 <= i < |z|
      ensures r[i].uid == z[Origin(k, i)].uid && (Fits(z[Origin(k, i)]) ==> Fits(r[i]))
    {
      FocusedOrigin(z, k, i);
    }
    FocusedUids(z, k);
  }

  lemma FocusedUids(z: seq<Win>, k: nat)
    requires 0 < k < |z|
    ensures Uids(Focused(z, k)) == Uids(z)
  {
    var r := Focused(z, k);
    forall u | u in Uids(r) ensures u in Uids(z) {
      var i :| 0 <= i < |r| && r[i].uid == u;
      FocusedOrigin(z, k, i);
      assert z[Origin(k, i)] in z;
    }
    forall u | u in Uids(z) ensures u in Uids(r) {
      var i :| 0 <= i < |z| && z[i].uid == u;
      var j := if i == k then 0 else if i < k then i + 1 else i;
      FocusedOrigin(z, k, j);
      assert Origin(k, j) == i && r[j] in r;
    }
  }

  lemma FocusedListFacts(z: seq<Win>, k: nat)
    requires k < |z| && DistinctUids(z)
    ensures var r := FocusedList(z, k);
            |r| == |z| && DistinctUids(r) && Uids(r) == Uids(z) && (Sane(z) ==> Sane(r)) && z[k].uid in Uids(r)
  {
    assert z[k] in z;
    if k > 0 { FocusedFacts(z, k); } else { UidsReplaced(z, 0, z[0].(focused := true)); }
  }

  // ------------------------------------------------------------ how a window comes and goes

  /** Once its opening fade has ended a new window shows unscaled, provided an animation could be started;
      without one it stays transparent through every tick. */
  lemma OpensExactly(w: Win, pool: bool, t: WinTick, ws: int)
    requires !w.closing && !w.minimized && !w.fading && !t.fadeRuns && (w.ws == ws || w.topmost || w.bottom)
    ensures Visible(Faded(Opened(w, pool), t), ws) <==> pool
    ensures pool ==> !Scaled(Faded(Opened(w, pool), t))
  {
  }

  /** A closed window is hidden at once, and it is released at the end of its fade exactly if one could be
      started: otherwise no tick releases it. */
  lemma ClosesExactly(z: seq<Win>, k: nat, pool: bool, t: WinTick, ws: int)
    requires k < |z| && !z[k].closing
    ensures var w := ClosedList(z, k, pool)[k]; !Visible(w, ws) && (Released(w, t) <==> pool && !t.fadeRuns)
  {
  }

  /** A minimized window is hidden. */
  lemma MinimizedHides(z: seq<Win>, k: nat, pool: bool, ws: int, x: Win)
    requires k < |z| && !z[k].minimized && DistinctUids(z) && x in MinimizedList(z, k, pool, ws) && x.uid == z[k].uid
    ensures x.minimized && !Visible(x, ws)
  {
    var w := z[k].(minimized := true, closing := false, fading := pool);
    var z1 := z[k := w];
    UidsReplaced(z, k, w);
    hide Visible, FocusedList, Uids;
    var n := NextFocus(z1, ws, k);
    if n < |z1| { FocusedKept(z1, n, k, x); }
    MinimizedInvisible(x, ws);
  }

  lemma MinimizedInvisible(w: Win, ws: int)
    ensures w.minimized ==> !Visible(w, ws)
  {
  }

  /** The foremost other window that shows and can take the focus is raised and has it; if there is none,
      no other window changes. */
  lemma MinimizedHandsOn(z: seq<Win>, k: nat, pool: bool, ws: int, i: nat)
    requires k < |z| && !z[k].minimized && i <= |z|
    requires forall j :: 0 <= j < i && j != k ==> !Visible(z[j], ws) || z[j].noFocus
    requires i < |z| ==> i != k && Visible(z[i], ws) && !z[i].noFocus
    ensures var r := MinimizedList(z, k, pool, ws);
            |r| == |z| && if i == |z| then r == z[k := r[k]] else r[0].uid == z[i].uid && r[0].focused
  {
    var w := z[k].(minimized := true, closing := false, fading := pool);
    var z1 := z[k := w];
    var n := NextFocus(z1, ws, k);
    hide Visible, FocusedList;
    assert forall j :: 0 <= j < |z| && j != k ==> z1[j] == z[j];
    assert n == i;
    if i < |z| { FrontAfter(z1, i); }
  }

  lemma FrontAfter(z: seq<Win>, n: nat)
    requires n < |z| && !z[n].noFocus
    ensures var r := FocusedList(z, n); |r| == |z| && r[0].uid == z[n].uid && r[0].focused
  {
  }

  lemma FocusedKept(z: seq<Win>, n: nat, k: nat, x: Win)
    requires n < |z| && k < |z| && DistinctUids(z) && x in FocusedList(z, n) && x.uid == z[k].uid
    ensures x.minimized == z[k].minimized
  {
    var r := FocusedList(z, n);
    var i :| 0 <= i < |r| && r[i] == x;
    if !z[n].noFocus && n > 0 {
      FocusedOrigin(z, n, i);
      assert x.minimized == z[Origin(n, i)].minimized;
    }
  }

  /** The back pointer after z_raise of window k: a raised back window leaves it to the last of the
      others, and a missing one is set to the raised window. */
  function RaisedBack(z: seq<Win>, k: nat, back: Option<nat>): (b: Option<nat>)
    requires k < |z|
    ensures Listed(Uids(z), back) ==> Listed(Uids(z), b)
  {
    if k == 0 then back
    else
      var rest := RemoveAt(z, k);
      assert rest[|rest| - 1] in z && z[k] in z;
      if back == Some(z[k].uid) then Some(rest[|rest| - 1].uid)
      else if back.None? then Some(z[k].uid)
      else back
  }

  function FocusedBack(z: seq<Win>, k: nat, back: Option<nat>): Option<nat>
    requires k < |z|
  {
    if z[k].noFocus then back else RaisedBack(z, k, back)
  }

  function MinimizedBack(z: seq<Win>, k: nat, pool: bool, ws: int, back: Option<nat>): Option<nat>
    requires k < |z|
  {
    if z[k].minimized then back else
      var z1 := z[k := z[k].(minimized := true, closing := false, fading := pool)];
      var n := NextFocus(z1, ws, k);
      if n == |z1| then back else FocusedBack(z1, n, back)
  }

  /** What a client asks for in MC_WIN_NEW. */
  datatype Request = Request(id: int, client: nat, w: int, h: int, title: string, borderless: bool, topmost: bool,
                             bottom: bool, noFocus: bool, surf: map<Point, Color>)

  /** The window record before it is mapped: centred, with a cascade of six steps. */
  function Requested(r: Request, uid: nat, cascade: nat, ws: int, screen: Rect): Win {
    var cur := Rect(Half(screen.w - r.w) + cascade % 6 * 28 - 84, Half(screen.h - r.h) + cascade % 6 * 24 - 60, r.w, r.h);
    Win(uid, r.id, Some(r.client), r.title, r.borderless, r.topmost, r.bottom, r.noFocus, cur, cur, ws,
        false, false, false, false, false, false, None, 1.0, 1.0, Some(r.surf))
  }

  /** Mapped, transparent, at the start of its opening animation. */
  function Opened(w: Win, pool: bool): Win { w.(mapped := true, opacity := 0.0, scale := 0.94, fading := pool) }

  /** z_push_bottom and z_raise of a window that is not listed: without a back pointer a bottom
      window becomes the whole list. */
  function Entered(z: seq<Win>, back: Option<nat>, w: Win): seq<Win> {
    if !w.bottom then [w] + z else if back.Some? then z + [w] else [w]
  }

  function EnteredBack(back: Option<nat>, w: Win): Option<nat> {
    if w.bottom || back.None? then Some(w.uid) else back
  }

  /** No window drops out of the list. */
  predicate Holds(z: seq<Win>, back: Option<nat>, bottom: bool) { bottom ==> back.Some? || z == [] }

  /** A window that enters drops no other one exactly if it is not a bottom window, or there is a
      back pointer, or there is no other window. */
  lemma EnteredKeepsExactly(z: seq<Win>, back: Option<nat>, w: Win)
    requires forall x :: x in z ==> x.uid < w.uid
    ensures (forall x :: x in z ==> x in Entered(z, back, w)) <==> Holds(z, back, w.bottom)
  {
    if !Holds(z, back, w.bottom) { assert z[0] in z && z[0] != w; }
  }

  /** The list with a new window, focused if it is not a bottom window, and opened. */
  function WithNew(z: seq<Win>, back: Option<nat>, w: Win, pool: bool): seq<Win> {
    var r := Entered(z, back, w);
    if w.bottom then r[|r| - 1 := Opened(w, pool)]
    else var f := FocusedList(r, 0); f[0 := Opened(f[0], pool)]
  }

  lemma NewShape(z: seq<Win>, back: Option<nat>, w: Win, pool: bool)
    ensures var r, e := WithNew(z, back, w, pool), Entered(z, back, w);
            var n := if w.bottom then |e| - 1 else 0;
            && e != [] && e[n] == w && |r| == |e| && (forall j :: 0 <= j < |e| && j != n ==> r[j] == e[j])
            && exists f :: r[n] == Opened(w.(focused := f), pool)
  {
    EnteredAt(z, back, w);
    SameFocus(w);
    hide Opened, Entered;
    if w.bottom { assert WithNew(z, back, w, pool)[|Entered(z, back, w)| - 1] == Opened(w.(focused := w.focused), pool); }
    else { FrontFocus(Entered(z, back, w)); }
  }

  lemma EnteredAt(z: seq<Win>, back: Option<nat>, w: Win)
    ensures var e := Entered(z, back, w); e != [] && e[if w.bottom then |e| - 1 else 0] == w
  {
  }

  lemma SameFocus(w: Win)
    ensures w.(focused := w.focused) == w
  {
  }

  lemma FrontFocus(z: seq<Win>)
    requires z != []
    ensures var f := FocusedList(z, 0);
            |f| == |z| && (forall j :: 0 < j < |z| ==> f[j] == z[j])
            && f[0] == z[0].(focused := z[0].focused || !z[0].noFocus)
  {
    SameFocus(z[0]);
  }

  lemma NewSane(z: seq<Win>, back: Option<nat>, w: Win, pool: bool)
    requires !w.focused && w.scale == 1.0 && Sane(WithNew(z, back, w, pool))
    ensures Fits(w) && Fits(w.(focused := !w.noFocus)) && Sane(Entered(z, back, w))
  {
    hide WithNew, Entered, Opened, Fits;
    var r, e := WithNew(z, back, w, pool), Entered(z, back, w);
    NewShape(z, back, w, pool);
    var n := if w.bottom then |e| - 1 else 0;
    var f :| r[n] == Opened(w.(focused := f), pool);
    assert Fits(r[n]);
    NewFits(w, f, pool);
  }

  lemma NewFits(w: Win, f: bool, pool: bool)
    requires w.scale == 1.0 && Fits(Opened(w.(focused := f), pool))
    ensures Fits(w) && Fits(w.(focused := !w.noFocus))
  {
  }

  lemma CalmAt(z: seq<Win>, env: nat -> WinTick, j: nat)
    requires AllCalm(z, env) && j < |z|
    ensures Calm(z[j], env(z[j].uid))
  {
  }

  /** The area is damaged or not: the framebuffer keeps in step, the marks aside. */
  lemma NoticeTracks(P: Painter, s: Sprite, v: View, n: seq<Notice>, fb: Framebuffer, g: seq<Rect>, g': seq<Rect>,
                     stale: iset<Point>, at: Option<Point>, damaged: bool)
    requires Tracks(P, s, v, fb, g, stale, at) && forall p :: Covers(g, p) ==> Covers(g', p)
    requires damaged ==> forall p :: NoticeArea(v.screen).Has(p) && v.screen.Has(p) ==> Covers(g', p)
    ensures Tracks(P, s, v.(notices := n), fb, g', stale + NoticeMarks(v, n, damaged), at)
  {
    var v' := v.(notices := n);
    var stale' := stale + NoticeMarks(v, n, damaged);
    forall p | v.screen.Has(p) && !Covers(g', p) && p !in stale' && Smooth(v', p)
      ensures Smooth(v, p) && ScenePixel(P, v, p) == ScenePixel(P, v', p)
    {
      SameSlotsSound(P, v, n, p);
    }
    TracksStep(P, s, v, v', fb, g, g', stale, stale', at);
  }

  /** One step of the window loop: i windows kept so far, j windows looked at. */
  lemma TickedStep(z0: seq<Win>, j: nat, z: seq<Win>, i: nat, env: nat -> WinTick)
    requires i < |z| && j < |z0| && z[i..] == z0[j..] && z[..i] + Ticked(z0[j..], env) == Ticked(z0, env)
    ensures var t := env(z[i].uid);
            if Released(z[i], t) then
              RemoveAt(z, i)[i..] == z0[j + 1..] && RemoveAt(z, i)[..i] + Ticked(z0[j + 1..], env) == Ticked(z0, env)
            else
              z[i := Glided(Faded(z[i], t), t)][i + 1..] == z0[j + 1..] &&
              z[i := Glided(Faded(z[i], t), t)][..i + 1] + Ticked(z0[j + 1..], env) == Ticked(z0, env)
  {
    assert z[i] == z[i..][0] == z0[j..][0];
    assert z0[j..][1..] == z0[j + 1..];
    assert z[i..][1..] == z[i + 1..];
    Spliced(z, i, Glided(Faded(z[i], env(z[i].uid)), env(z[i].uid)), Ticked(z0[j + 1..], env));
  }

  /** What a tick leaves stale: titles of windows that come to the front by a release, and slots that
      move without damage. */
  ghost function TickMarks(v: View, env: nat -> WinTick, ticks: seq<NoticeTick>): iset<Point>
    requires |v.notices| == |ticks|
  {
    TickTitles(v, env) + NoticeMarks(v, NoticesAfter(v.notices, ticks), AnyDamaged(v.notices, ticks))
  }

  /** Window j is released: what that marks is the title of the next window, if all before it went too. */
  lemma MarksComing(v0: View, env: nat -> WinTick, v: View, i: nat, j: nat)
    requires v0.screen == v.screen && v0.curWs == v.curWs && i < |v.z| && j < |v0.z| && v.z[i..] == v0.z[j..]
    requires i == 0 <==> AllReleased(v0.z, env, j)
    requires Released(v0.z[j], env(v0.z[j].uid))
    ensures TitlesTo(v0, env, j + 1) == TitlesTo(v0, env, j) + RemovalMarks(v, i)
    ensures i == 0 <==> AllReleased(v0.z, env, j + 1)
  {
    hide Released, ShowsFocus;
    assert |v.z| - i == |v0.z| - j;
    if |v.z| > i + 1 { assert v.z[i + 1] == v.z[i..][1] == v0.z[j..][1] == v0.z[j + 1]; }
    forall p ensures SomeTitle(v0, env, j + 1, p) <==> SomeTitle(v0, env, j, p) || p in RemovalMarks(v, i) {
      OneTitleMore(v0, env, j, p);
      if j + 1 < |v0.z| { FocusShown(v0, v, v0.z[j + 1], p); }
    }
  }

  lemma OneTitleMore(v: View, env: nat -> WinTick, j: nat, p: Point)
    ensures SomeTitle(v, env, j + 1, p) <==> SomeTitle(v, env, j, p) || (j + 1 < |v.z| && TitleComes(v, env, j + 1, p))
  {
    hide TitleComes;
    if j + 1 < |v.z| && TitleComes(v, env, j + 1, p) { assert SomeTitle(v, env, j + 1, p); }
  }

  lemma FocusShown(v0: View, v: View, w: Win, p: Point)
    requires v0.screen == v.screen && v0.curWs == v.curWs
    ensures ShowsFocus(v0, w, p) <==> ShowsFocus(v, w, p)
  {
  }

  /** Window j stays: no later one comes to the front. */
  lemma MarksKept(v0: View, env: nat -> WinTick, j: nat)
    requires j < |v0.z| && !Released(v0.z[j], env(v0.z[j].uid))
    ensures TitlesTo(v0, env, j + 1) == TitlesTo(v0, env, j) && !AllReleased(v0.z, env, j + 1)
  {
    hide Released, ShowsFocus;
    assert !AllReleased(v0.z, env, j + 1);
    forall p ensures SomeTitle(v0, env, j + 1, p) <==> SomeTitle(v0, env, j, p) { OneTitleMore(v0, env, j, p); }
  }

  /** The marks of the notifications do not depend on the windows. */
  lemma MarksOfNotices(v: View, v': View, n: seq<Notice>, damaged: bool)
    requires v.screen == v'.screen && v.mode == v'.mode && v.notices == v'.notices
    ensures NoticeMarks(v, n, damaged) == NoticeMarks(v', n, damaged)
  {
    forall p ensures Slots(v, p) == Slots(v', p) && Slots(v.(notices := n), p) == Slots(v'.(notices := n), p) {
      SlotsFields(v, v', 0, 34, p);
      SlotsFields(v.(notices := n), v'.(notices := n), 0, 34, p);
    }
  }

  lemma TickedBackStep(z0: seq<Win>, j: nat, z: seq<Win>, i: nat, env: nat -> WinTick, back: Option<nat>)
    requires i < |z| && j < |z0| && z[i..] == z0[j..]
    ensures TickedBack(z0[j..], env, back) ==
      TickedBack(z0[j + 1..], env, if Released(z[i], env(z[i].uid)) then ReleasedBack(z, i, back) else back)
  {
    assert z[i] == z[i..][0] == z0[j..][0];
    assert z0[j..][1..] == z0[j + 1..];
    if i + 1 < |z| { assert z[i + 1] == z[i..][1] == z0[j..][1]; } else { assert |z0[j..]| == 1; }
  }

  lemma Spliced<T>(z: seq<T>, i: nat, w: T, rest: seq<T>)
    requires i < |z|
    ensures RemoveAt(z, i)[i..] == z[i + 1..] && RemoveAt(z, i)[..i] == z[..i]
    ensures z[i := w][i + 1..] == z[i + 1..]
    ensures z[i := w][..i + 1] + rest == z[..i] + ([w] + rest)
  {
    assert z[i := w][..i + 1] == z[..i] + [w];
  }

  lemma SaneRemoved(z: seq<Win>, k: nat)
    requires k < |z|
    ensures Sane(z) ==> Sane(RemoveAt(z, k))
  {
  }

  lemma SaneReplaced(z: seq<Win>, k: nat, w: Win)
    requires k < |z|
    ensures Sane(z) && Fits(w) ==> Sane(z[k := w])
  {
  }

  lemma ArrivalFacts(z: seq<Win>, w: Win, r: seq<Win>)
    requires DistinctUids(z) && forall u :: u in Uids(z) ==> u < w.uid
    requires r == z + [w] || r == [w] + z
    ensures DistinctUids(r) && Uids(r) == Uids(z) + {w.uid}
  {
    assert forall i :: 0 <= i < |z| ==> z[i] in z && z[i].uid in Uids(z);
    assert forall x :: x in r <==> x in z || x == w;
  }

  lemma RemovalFacts(z: seq<Win>, k: nat)
    requires k < |z| && DistinctUids(z)
    ensures DistinctUids(RemoveAt(z, k)) && Uids(RemoveAt(z, k)) == Uids(z) - {z[k].uid}
  {
    var r := RemoveAt(z, k);
    forall u ensures u in Uids(r) <==> u in Uids(z) && u != z[k].uid {
      if u in Uids(z) && u != z[k].uid {
        var i :| 0 <= i < |z| && z[i].uid == u;
        assert r[if i < k then i else i - 1] == z[i];
      }
    }
  }

  /** A reference to u is cleared. */
  lemma EntryFacts(z: seq<Win>, lost: seq<Win>, back: Option<nat>, w: Win)
    requires DistinctUids(z) && (forall u :: u in Uids(z) + Uids(lost) ==> u < w.uid) && Uids(z) !! Uids(lost)
    requires Listed(Uids(z), back)
    ensures var r, l := Entered(z, back, w), if w.bottom && back.None? then lost + z else lost;
            && DistinctUids(r) && Uids(r) + Uids(l) == Uids(z) + Uids(lost) + {w.uid} && Uids(r) !! Uids(l)
            && Listed(Uids(r), EnteredBack(back, w))
  {
    var r := Entered(z, back, w);
    assert w in r;
    if r == [w] {
      assert Uids(r) == {w.uid};
      assert forall x :: x in lost + z <==> x in lost || x in z;
      assert Uids(lost + z) == Uids(lost) + Uids(z);
      assert !(w.bottom && back.None?) ==> z == [] && Uids(z) == {};
    } else {
      forall u | u in Uids(z) ensures u < w.uid { assert u in Uids(z) + Uids(lost); }
      ArrivalFacts(z, w, r);
    }
  }

  lemma BackFacts(z: seq<Win>, k: nat, back: Option<nat>)
    requires k < |z| && DistinctUids(z) && Listed(Uids(z), back)
    ensures Listed(Uids(RemoveAt(z, k)), ReleasedBack(z, k, back))
  {
    RemovalFacts(z, k);
    if k + 1 < |z| { assert RemoveAt(z, k)[k] == z[k + 1] && z[k + 1] in RemoveAt(z, k); }
  }

  lemma KeysFit(fb0: Framebuffer, fb: Framebuffer, screen: Rect)
    requires FitsScreen(fb0, screen) && fb.Keys == fb0.Keys
    ensures FitsScreen(fb, screen)
  {
    assert forall p :: p in fb <==> p in fb.Keys;
    assert forall p :: p in fb0 <==> p in fb0.Keys;
  }

  lemma NothingCovered(g: seq<Rect>)
    requires g == []
    ensures forall p :: !Covers(g, p)
  {
  }

  lemma MoreDamage(P: Painter, s: Sprite, v: View, fb: Framebuffer, g: seq<Rect>, g': seq<Rect>, stale: iset<Point>, at: Option<Point>)
    requires Tracks(P, s, v, fb, g, stale, at) && forall p :: Covers(g, p) ==> Covers(g', p)
    ensures Tracks(P, s, v, fb, g', stale, at)
  {
    hide Smooth;
  }

  /** The pointer box is narrow enough for the coverage test to be exact. */
  predicate Narrow(s: Sprite) { s.ink.w + 2 * s.margin < Region.MAX_INTERVALS }

  /** What present_region computed under a guarded damage is the full repaint wherever it is smooth and
      not stale, and the pointer is drawn once everywhere. */
  lemma RepaintIsFull(P: Painter, s: Sprite, v: View, was: Option<Point>, at: Point, dmg0: seq<Rect>, dmg: seq<Rect>,
                      stale: iset<Point>, fb0: Framebuffer, fb: Framebuffer)
    requires AllIn(dmg, v.screen) && Tracks(P, s, v, fb0, dmg0, stale, was)
    requires forall p :: Covers(dmg0, p) ==> Covers(dmg, p)
    requires CoversAll(dmg, PointerBox(s, v.screen, at))
    requires was.Some? ==> CoversAll(dmg, PointerBox(s, v.screen, was.value))
    requires FitsScreen(fb0, v.screen) && fb.Keys == fb0.Keys
    requires forall p :: p in fb ==>
               fb[p] == PointerPass(P, at, PointerBox(s, v.screen, at), dmg, p, ScenePass(P, v, dmg, p, fb0[p]))
    ensures forall p :: v.screen.Has(p) && Smooth(v, p) && (p in stale ==> Covers(dmg, p)) ==>
              p in fb && fb[p] == Shown(P, s, v, Some(at), p)
  {
    hide Smooth, Tracks;
    forall p | v.screen.Has(p) && Smooth(v, p) && (p in stale ==> Covers(dmg, p))
      ensures p in fb && fb[p] == Shown(P, s, v, Some(at), p)
    {
      DamageOnlyIsFull(P, s, v, was, at, dmg0, dmg, stale, fb0, p);
    }
  }

  lemma PointerEverywhere(P: Painter, s: Sprite, v: View, was: Option<Point>, at: Point, dmg: seq<Rect>,
                          fb0: Framebuffer, fb: Framebuffer)
    requires AllIn(dmg, v.screen) && CoversAll(dmg, PointerBox(s, v.screen, at))
    requires was.Some? ==> CoversAll(dmg, PointerBox(s, v.screen, was.value))
    requires FitsScreen(fb0, v.screen) && fb.Keys == fb0.Keys
    requires forall p :: p in fb ==>
               fb[p] == PointerPass(P, at, PointerBox(s, v.screen, at), dmg, p, ScenePass(P, v, dmg, p, fb0[p]))
    ensures forall p :: v.screen.Has(p) ==> p in fb && PointerOnce(P, s, v, was, at, p, fb[p])
  {
    forall p | v.screen.Has(p) ensures p in fb && PointerOnce(P, s, v, was, at, p, fb[p]) {
      PointerDrawnOnce(P, s, v, was, at, dmg, p, fb0[p]);
    }
  }

  lemma TickedRefStep(z0: seq<Win>, j: nat, env: nat -> WinTick, r: Option<nat>)
    requires j < |z0|
    ensures TickedRef(z0[j..], env, r) ==
      TickedRef(z0[j + 1..], env, if Released(z0[j], env(z0[j].uid)) then Cleared(r, Some(z0[j].uid)) else r)
  {
    assert z0[j..][1..] == z0[j + 1..];
  }

  /** Where the next window shows its focus when window k leaves: nowhere unless k is the front one. */
  ghost function RemovalMarks(v: View, k: nat): iset<Point>
    requires k < |v.z|
  {
    if k == 0 && |v.z| > 1 then Titles(v, v.z[1]) else iset{}
  }

  lemma RemovalTracks(P: Painter, s: Sprite, v: View, k: nat, fb: Framebuffer, g: seq<Rect>, g': seq<Rect>,
                      stale: iset<Point>, at: Option<Point>)
    requires k < |v.z| && Sane(v.z) && DistinctUids(v.z) && Tracks(P, s, v, fb, g, stale, at)
    requires forall p :: Covers(g', p) <==> Covers(g, p) || (Reach(v.z[k]).Has(p) && v.screen.Has(p))
    ensures Tracks(P, s, v.(z := RemoveAt(v.z, k)), fb, g', stale + RemovalMarks(v, k), at)
  {
    hide Smooth, Tracks;
    var v', stale' := v.(z := RemoveAt(v.z, k)), stale + RemovalMarks(v, k);
    forall p | v.screen.Has(p) && !Covers(g', p) && p !in stale' && Smooth(v', p)
      ensures Smooth(v, p) && ScenePixel(P, v, p) == ScenePixel(P, v', p)
    {
      SmoothRemoved(v, k, p);
      RemovalSound(P, v, k, p);
    }
    TracksStep(P, s, v, v', fb, g, g', stale, stale', at);
  }

  lemma FocusTracks(P: Painter, s: Sprite, v: View, k: nat, fb: Framebuffer, g: seq<Rect>, g': seq<Rect>,
                    stale: iset<Point>, at: Option<Point>)
    requires 0 < k < |v.z| && Sane(v.z) && DistinctUids(v.z) && Tracks(P, s, v, fb, g, stale, at)
    requires forall p :: Covers(g', p) <==>
      Covers(g, p) || (v.screen.Has(p) && (Reach(v.z[0]).Has(p) || Reach(v.z[k]).Has(p)))
    ensures Tracks(P, s, v.(z := Focused(v.z, k)), fb, g', stale, at)
  {
    hide Smooth, Tracks, Focused;
    var v' := v.(z := Focused(v.z, k));
    forall p | v.screen.Has(p) && !Covers(g', p) && p !in stale && Smooth(v', p)
      ensures Smooth(v, p) && ScenePixel(P, v, p) == ScenePixel(P, v', p)
    {
      SmoothFocused(v, k, p);
      FocusChangeSound(P, v, k, p);
    }
    TracksStep(P, s, v, v', fb, g, g', stale, stale, at);
  }

  /** Where some visible window of the list may show. */
  ghost function Traces(z: seq<Win>, ws: int): iset<Point> { iset p: Point | SomeTrace(z, ws, p) }

  predicate SomeTrace(z: seq<Win>, ws: int, p: Point) { exists i :: 0 <= i < |z| && Visible(z[i], ws) && Reach(z[i]).Has(p) }

  /** What a new window leaves undamaged: where the former front window shows its focus, and all of
      the windows that drop out of the list. */
  ghost function EntryMarks(v: View, back: Option<nat>, bottom: bool): iset<Point> {
    if v.z == [] then iset{}
    else if !bottom then Titles(v, v.z[0])
    else if back.None? then Traces(v.z, v.curWs)
    else iset{}
  }

  /** A window that is not mapped yet shows nothing when it enters. */
  lemma EntryTracks(P: Painter, s: Sprite, v: View, back: Option<nat>, w: Win, fb: Framebuffer, g: seq<Rect>,
                    stale: iset<Point>, at: Option<Point>)
    requires var z := Entered(v.z, back, w); |z| <= MAX_PAINTED && DistinctUids(z) && !w.mapped
    requires Tracks(P, s, v, fb, g, stale, at) && Sane(v.z)
    ensures Tracks(P, s, v.(z := Entered(v.z, back, w)), fb, g, stale + EntryMarks(v, back, w.bottom), at)
  {
    hide Smooth, Tracks;
    var v', stale' := v.(z := Entered(v.z, back, w)), stale + EntryMarks(v, back, w.bottom);
    forall p | v.screen.Has(p) && !Covers(g, p) && p !in stale' && Smooth(v', p)
      ensures Smooth(v, p) && ScenePixel(P, v, p) == ScenePixel(P, v', p)
    {
      if w.bottom && back.None? {
        DroppedSound(P, v, w, p);
      } else {
        SmoothArrived(v, w, v'.z, p);
        if w.bottom { ArrivalBehindSound(P, v, w, p); } else { ArrivalSound(P, v, w, p); }
      }
    }
    TracksStep(P, s, v, v', fb, g, g, stale, stale', at);
  }

  /** Windows that all miss p paint nothing there. */
  lemma AllMiss(P: Painter, v: View, front: nat, z: seq<Win>, p: Point, c: Color)
    requires forall i :: 0 <= i < |z| ==> Misses(z[i], v.curWs, p)
    ensures WindowsPixel(P, v, front, z, v.screen, p, c) == c
  {
    if z != [] {
      assert forall i :: 0 <= i < |z[1..]| ==> z[1..][i] == z[i + 1];
      AllMiss(P, v, front, z[1..], p, c);
      if Visible(z[0], v.curWs) { Untouched(P, v, front, z[0], v.screen, p, c); }
    }
  }

  /** Windows that drop out of the list were only seen within their reach. */
  lemma DroppedSound(P: Painter, v: View, w: Win, p: Point)
    requires Sane(v.z) && !w.mapped && !SomeTrace(v.z, v.curWs, p) && Smooth(v.(z := [w]), p)
    ensures Smooth(v, p) && ScenePixel(P, v, p) == ScenePixel(P, v.(z := [w]), p)
  {
    var v', c := v.(z := [w]), P.wallpaper(p);
    assert Slots(v, p) == Slots(v', p) by { SlotsFields(v, v', 0, 34, p); }
    AllMiss(P, v, FrontUid(v.z), v.z, p, c);
    AllMiss(P, v', w.uid, [w], p, c);
    NoticeFields(P, v, v', 0, 34, v.screen, p, c);
  }

  lemma SmoothArrived(v: View, w: Win, z: seq<Win>, p: Point)
    requires (z == v.z + [w] || z == [w] + v.z) && Smooth(v.(z := z), p)
    ensures Smooth(v, p)
  {
    SlotsFields(v, v.(z := z), 0, 34, p);
    forall i | 0 <= i < |v.z| && Visible(v.z[i], v.curWs) ensures SmoothAt(v.z[i], v.mode, p) {
      if z == v.z + [w] { assert z[i] == v.z[i]; } else { assert z[i + 1] == v.z[i]; }
    }
  }

  /** Halving with C's truncation toward zero. */
  function Half(n: int): int { if n >= 0 then n / 2 else -((-n) / 2) }

  /** The pixels of a w by h screen. */
  function Pixels(w: nat, h: nat): (s: set<Point>)
    ensures forall p :: p in s <==> Rect(0, 0, w, h).Has(p)
  {
    var s := set x: nat, y: nat | x < w && y < h :: Point(x, y);
    assert forall p :: Rect(0, 0, w, h).Has(p) ==> p in s by {
      forall p | Rect(0, 0, w, h).Has(p) ensures p in s { var x: nat, y: nat := p.x, p.y; assert p == Point(x, y); }
    }
    s
  }

  class Compositor {
    const P: Painter
    const screen: Rect
    const sprite: Sprite

    var z: seq<Win>                 // front to back
    var back: Option<nat>           // where z_push_bottom appends
    var lost: seq<Win>              // windows that dropped out of the list without being released
    var notices: seq<Notice>
    var mode: nat
    var curWs: int
    var nextUid: nat
    var cascade: nat

    var damage: seq<Rect>
    var armed: bool                 // the frame timer
    var anims: nat                  // active animations
    var fb: Framebuffer
    var cursor: Point
    var shownAt: Option<Point>      // where the framebuffer shows the pointer
    ghost var stale: iset<Point>    // where it may show an older scene without being damaged
    var streak: nat
    var steps: nat
    var frozen: bool
    var presented: bool             // an earlier frame exists to measure against

    var drag: Option<nat>
    var resizing: Option<nat>
    var hover: Option<nat>
    var capture: seq<Option<nat>>
    var btn: seq<bool>

    function Current(): View
      reads `mode, `curWs, `z, `notices
    {
      View(screen, mode, curWs, z, notices)
    }

    /** Pending damage or a live animation keeps the frame timer armed. */
    predicate Live()
      reads `damage, `anims, `armed
    {
      damage != [] || anims > 0 ==> armed
    }

    /** Where the damage does not reach, the pointer is shown where it is. */
    ghost predicate Pointed()
      reads `shownAt, `cursor, `damage
    {
      shownAt == Some(cursor) ||
      forall p :: screen.Has(p) && !Covers(damage, p) ==>
        && !PointerBox(sprite, screen, cursor).Has(p)
        && (shownAt.Some? ==> !PointerBox(sprite, screen, shownAt.value).Has(p))
    }

    /** The addresses of all windows not released yet. */
    function Known(): set<nat>
      reads `z, `lost
    {
      Uids(z) + Uids(lost)
    }

    /** No drag, resize, hover or capture reference dangles, and the back window is listed. */
    predicate RefsListed()
      reads `z, `lost, `back, `drag, `resizing, `hover, `capture
    {
      var u := Known();
      Listed(u, drag) && Listed(u, resizing) && Listed(u, hover) && Listed(Uids(z), back) &&
      forall b :: 0 <= b < |capture| ==> Listed(u, capture[b])
    }

    /** What every step keeps, the damage and the timer aside. */
    ghost predicate Base()
      reads `z, `lost, `back, `drag, `resizing, `hover, `capture, `nextUid, `notices, `btn, `fb, `cursor
    {
      && screen.x == 0 && screen.y == 0 && screen.w > 0 && screen.h > 0
      && DistinctUids(z) && (forall u :: u in Known() ==> u < nextUid) && Uids(z) !! Uids(lost)
      && |notices| == MAX_NOTIFS && |capture| == 3 && |btn| == 3
      && FitsScreen(fb, screen) && screen.Has(cursor) && RefsListed()
    }

    ghost predicate Valid()
      reads `z, `lost, `back, `drag, `resizing, `hover, `capture, `nextUid, `notices, `btn, `fb, `cursor,
        `shownAt, `damage, `anims, `armed
    {
      Base() && Region.NonEmpty(damage) && AllIn(damage, screen) && Live() && Pointed()
    }

    /** Outside the damage and the stale pixels the framebuffer shows the current scene at every
        smooth pixel. */
    ghost predicate InSync()
      reads `mode, `curWs, `z, `notices, `fb, `damage, `stale, `shownAt
    {
      Tracks(P, sprite, Current(), fb, damage, stale, shownAt)
    }

    /** At every smooth pixel that is not stale the framebuffer shows the full repaint of the current
        scene. */
    ghost predicate UpToDate()
      reads `mode, `curWs, `z, `notices, `fb, `cursor, `stale
    {
      forall p :: screen.Has(p) && Smooth(Current(), p) && p !in stale ==>
        p in fb && fb[p] == Shown(P, sprite, Current(), Some(cursor), p)
    }

    /** At every pixel it does. */
    ghost predicate Exact()
      reads `mode, `curWs, `z, `notices, `fb, `cursor
    {
      forall p :: screen.Has(p) ==> p in fb && fb[p] == Shown(P, sprite, Current(), Some(cursor), p)
    }

    /** Without scaled windows, shadows or stale pixels that is the whole screen. */
    lemma SettledIsExact()
      requires UpToDate() && Settled(Current()) && stale == iset{}
      ensures Exact()
    {
      forall p | screen.Has(p) ensures p in fb && fb[p] == Shown(P, sprite, Current(), Some(cursor), p) {
        SettledIsSmooth(Current(), p);
      }
    }

    constructor (P: Painter, sprite: Sprite, w: nat, h: nat, mode: nat, frozen: bool)
      requires w > 0 && h > 0
      ensures Valid() && InSync() && z == [] && damage == [Rect(0, 0, w, h)] && stale == iset{}
    {
      this.P, this.sprite, this.screen := P, sprite, Rect(0, 0, w, h);
      this.mode, this.frozen := mode, frozen;
      z, back, lost, curWs, nextUid, cascade := [], None, [], 0, 0, 0;
      notices := seq(MAX_NOTIFS, i => NO_NOTICE);
      damage, armed, anims := [Rect(0, 0, w, h)], true, 0;
      fb := map p | p in Pixels(w, h) :: 0;
      cursor, shownAt, stale := Point(0, 0), None, iset{};
      streak, steps, presented := 0, 0, false;
      drag, resizing, hover := None, None, None;
      capture, btn := [None, None, None], [false, false, false];
      new;
      forall p | screen.Has(p) ensures Covers(damage, p) { assert damage[0].Has(p); }
    }

    lemma HasSlots()
      requires Valid()
      ensures |notices| == MAX_NOTIFS && DistinctUids(z)
    {
    }

    /** A compositor that has disarmed its timer has nothing to draw. */
    lemma IdleHolds()
      requires Valid() && InSync() && !armed
      ensures UpToDate()
    {
      IdleIsUpToDate();
    }

    method RequestFrame()
      modifies this`armed
      ensures armed
    {
      if !armed { armed := true; }
    }

    method DamageAdd(r: Rect)
      modifies this`damage
      ensures damage == Added(old(damage), r, screen)
    {
      var c := Intersect(r, screen);
      if !c.Empty() { damage := damage + [c]; }
    }

    /** Add a rectangle to the damage and ask for a frame. */
    method Invalidate(r: Rect)
      requires Valid()
      modifies this`damage, this`armed
      ensures Valid() && armed && damage == Added(old(damage), r, screen)
      ensures forall p :: Covers(damage, p) <==> Covers(old(damage), p) || (r.Has(p) && screen.Has(p))
    {
      DamageAdd(r);
      RequestFrame();
      forall p ensures Covers(damage, p) <==> Covers(old(damage), p) || (r.Has(p) && screen.Has(p)) {
        AddedCovers(old(damage), r, screen, p);
      }
    }

    method WinDamageAll(w: Win)
      requires Valid()
      modifies this`damage, this`armed
      ensures Valid() && armed && damage == Added(old(damage), Reach(w), screen)
      ensures forall p :: Covers(damage, p) <==> Covers(old(damage), p) || (Reach(w).Has(p) && screen.Has(p))
    {
      var f := Frame(w);
      Invalidate(Rect(f.x - MARGIN, f.y - MARGIN, f.w + 2 * MARGIN, f.h + 2 * MARGIN));
    }

    /** The same windows in another order or with other contents. */
    method Restack(r: seq<Win>, b: Option<nat>)
      requires Valid() && DistinctUids(r) && Uids(r) == Uids(z) && Listed(Uids(z), b)
      modifies this`z, this`back
      ensures Valid() && z == r && back == b
    {
      hide Uids, DistinctUids, Pointed, FitsScreen, Live;
      z, back := r, b;
    }

    method Update(r: seq<Win>)
      requires Valid() && DistinctUids(r) && Uids(r) == Uids(z)
      modifies this`z
      ensures Valid() && z == r
    {
      hide Uids, DistinctUids, Pointed, FitsScreen, Live;
      z := r;
    }

    /** win_find. */
    method Find(id: int) returns (k: nat)
      ensures k == IndexOf(z, id)
    {
      k := 0;
      while k < |z| && z[k].id != id
        invariant k <= |z| && k + IndexOf(z[k..], id) == IndexOf(z, id)
      {
        assert z[k..][1..] == z[k + 1..];
        k := k + 1;
      }
    }

    /** win_at. */
    method WinAt(p: Point) returns (k: nat)
      ensures k == HitIndex(z, curWs, p)
    {
      k := 0;
      while k < |z| && !Under(z[k], curWs, p)
        invariant k <= |z| && k + HitIndex(z[k..], curWs, p) == HitIndex(z, curWs, p)
      {
        assert z[k..][1..] == z[k + 1..];
        k := k + 1;
      }
    }

    /** Damage the old box, replace window k, damage the new box. */
    method Replace(k: nat, w: Win)
      requires Valid() && k < |z| && w.uid == z[k].uid
      modifies this`z, this`damage, this`armed
      ensures Valid() && armed && z == old(z)[k := w]
      ensures damage == Added(Added(old(damage), Reach(old(z)[k]), screen), Reach(w), screen)
      ensures forall p :: Covers(old(damage), p) ==> Covers(damage, p)
      ensures old(InSync()) && |z| <= MAX_PAINTED && Fits(old(z)[k]) && Fits(w) ==> InSync()
    {
      hide Tracks, Pointed, Smooth, Live, FitsScreen, RefsListed, Fits;
      ghost var v, g := Current(), damage;
      WinDamageAll(z[k]);
      UidsReplaced(z, k, w);
      Update(z[k := w]);
      WinDamageAll(w);
      assert Current() == v.(z := v.z[k := w]);
      if old(InSync()) && |z| <= MAX_PAINTED && Fits(v.z[k]) && Fits(w) {
        WindowTracks(P, sprite, v, k, w, fb, g, damage, stale, shownAt);
      }
    }

    /** Replace window k, damaging only its new box; enough when the frame stays where it is. */
    method Touch(k: nat, w: Win)
      requires Valid() && k < |z| && w.uid == z[k].uid
      modifies this`z, this`damage, this`armed
      ensures Valid() && armed && z == old(z)[k := w]
      ensures damage == Added(old(damage), Reach(w), screen)
      ensures forall p :: Covers(old(damage), p) ==> Covers(damage, p)
      ensures old(InSync()) && |z| <= MAX_PAINTED && Fits(old(z)[k]) && Fits(w) && Frame(w) == Frame(old(z)[k]) ==>
        InSync()
    {
      hide Tracks, Pointed, Smooth, Live, FitsScreen, RefsListed, Fits;
      ghost var v, g := Current(), damage;
      UidsReplaced(z, k, w);
      Update(z[k := w]);
      WinDamageAll(w);
      assert Current() == v.(z := v.z[k := w]);
      if old(InSync()) && |z| <= MAX_PAINTED && Fits(v.z[k]) && Fits(w) && Frame(w) == Frame(v.z[k]) {
        WindowTracks(P, sprite, v, k, w, fb, g, damage, stale, shownAt);
      }
    }

    /** Invalidate the whole screen after a change of the mode or the workspace. */
    method DamageScreen(m: nat, ws: int)
      requires Valid()
      modifies this`mode, this`curWs, this`damage, this`armed, this`stale
      ensures Valid() && InSync() && armed && mode == m && curWs == ws && stale == iset{}
      ensures damage == old(damage) + [screen]
    {
      hide FitsScreen, RefsListed, Uids, DistinctUids, Smooth, Shown, PointerBox;
      mode, curWs, stale := m, ws, iset{};
      ghost var g := damage;
      DamageAdd(screen);
      assert Intersect(screen, screen) == screen;
      RequestFrame();
      forall p ensures Covers(damage, p) <==> Covers(g, p) || screen.Has(p) { CoversAppend(g, screen, p); }
    }

    // ------------------------------------------------------------ client requests

    /** MC_WIN_DRAG. */
    method Drag(id: int, dx: int, dy: int)
      requires Valid()
      modifies this`z, this`damage, this`armed
      ensures Valid()
      ensures var k := IndexOf(old(z), id);
              z == if k == |old(z)| then old(z)
                   else old(z)[k := Dragged(old(z)[k], dx, dy)]
      ensures var k := IndexOf(old(z), id);
              k < |old(z)| ==>
                var was := old(z)[k].cur;
                OnlyMoved(old(z), z, k) && z[k].tgt == z[k].cur == Rect(was.x + dx, was.y + dy, was.w, was.h)
      ensures old(InSync()) && Sane(old(z)) && Sane(z) ==> InSync()
    {
      var k := Find(id);
      if k == |z| { return; }
      Reshape(k, Dragged(z[k], dx, dy));
    }

    /** MC_WIN_PLACE. */
    method Place(id: int, x: int, y: int)
      requires Valid()
      modifies this`z, this`damage, this`armed
      ensures Valid()
      ensures var k := IndexOf(old(z), id);
              z == if k == |old(z)| then old(z)
                   else old(z)[k := Placed(old(z)[k], x, y)]
      ensures var k := IndexOf(old(z), id);
              k < |old(z)| ==>
                var was := old(z)[k];
                && OnlyMoved(old(z), z, k)
                && z[k].cur == Rect(x, y, was.cur.w, was.cur.h) && z[k].tgt == Rect(x, y, was.tgt.w, was.tgt.h)
      ensures old(InSync()) && Sane(old(z)) && Sane(z) ==> InSync()
    {
      var k := Find(id);
      if k == |z| { return; }
      Reshape(k, Placed(z[k], x, y));
    }

    /** MC_WIN_RESIZE with a mapped buffer. */
    method ClientResize(id: int, w: int, h: int, surf: map<Point, Color>)
      requires Valid()
      modifies this`z, this`damage, this`armed
      ensures Valid()
      ensures var k := IndexOf(old(z), id);
              z == if k == |old(z)| then old(z)
                   else old(z)[k := Resized(old(z)[k], w, h, surf)]
      ensures var k := IndexOf(old(z), id);
              k < |old(z)| ==>
                var was := old(z)[k];
                && z[k].surf == Some(surf)
                && z[k].cur == Rect(was.cur.x, was.cur.y, w, h) && z[k].tgt == Rect(was.tgt.x, was.tgt.y, w, h)
      ensures old(InSync()) && Sane(old(z)) && Sane(z) ==> InSync()
    {
      var k := Find(id);
      if k == |z| { return; }
      Reshape(k, Resized(z[k], w, h, surf));
    }

    /** MC_WIN_TITLE. */
    method SetTitle(id: int, title: string)
      requires Valid()
      modifies this`z, this`damage, this`armed
      ensures Valid()
      ensures var k := IndexOf(old(z), id);
              z == if k == |old(z)| then old(z) else old(z)[k := old(z)[k].(title := title)]
      ensures old(InSync()) && Sane(old(z)) ==> InSync()
    {
      var k := Find(id);
      if k == |z| { return; }
      Touch(k, z[k].(title := title));
    }

    /** The damage loop of a commit. */
    method CommitDamage(w: Win, n: nat, rects: seq<Rect>)
      requires Valid() && |rects| == 32
      modifies this`damage, this`armed
      ensures Valid() && armed
      ensures forall p :: Covers(old(damage), p) ==> Covers(damage, p)
      ensures forall p, j :: 0 <= j < Min(n, 32) && screen.Has(p) && rects[j].Moved(w.cur.x, w.cur.y).Has(p) ==>
        Covers(damage, p)
      ensures n == 0 ==> forall p :: screen.Has(p) && Reach(w).Has(p) ==> Covers(damage, p)
    {
      var m := Min(n, 32);
      RequestFrame();
      for i := 0 to m
        invariant armed && Region.NonEmpty(damage) && AllIn(damage, screen)
        invariant forall p :: Covers(old(damage), p) ==> Covers(damage, p)
        invariant forall p, j :: 0 <= j < i && screen.Has(p) && rects[j].Moved(w.cur.x, w.cur.y).Has(p) ==> Covers(damage, p)
      {
        var r := rects[i].Moved(w.cur.x, w.cur.y);
        ghost var g := damage;
        DamageAdd(r);
        forall p ensures Covers(damage, p) <==> Covers(g, p) || (r.Has(p) && screen.Has(p)) {
          AddedCovers(g, r, screen, p);
        }
      }
      if n == 0 {
        ghost var g := damage;
        WinDamageAll(w);
        forall p ensures Covers(damage, p) <==> Covers(g, p) || (Reach(w).Has(p) && screen.Has(p)) {
          AddedCovers(g, Reach(w), screen, p);
        }
      }
    }

    /** MC_WIN_COMMIT: the client's new pixels take effect with the damage it reports, of which
        only the first 32 rectangles count; no rectangles means the whole window. What the client
        changes without reporting it becomes stale. */
    method Commit(id: int, surf: map<Point, Color>, n: nat, rects: seq<Rect>)
      requires Valid() && |rects| == 32
      modifies this`z, this`damage, this`armed, this`stale
      ensures Valid()
      ensures var k := IndexOf(old(z), id);
              z == if k == |old(z)| then old(z) else old(z)[k := old(z)[k].(surf := Some(surf))]
      ensures var k := IndexOf(old(z), id);
              stale == if k == |old(z)| then old(stale) else old(stale) + Unreported(old(z)[k], surf, n, rects)
      ensures old(InSync()) && Sane(old(z)) ==> InSync()
    {
      var k := Find(id);
      if k < |z| { CommitTo(k, surf, n, rects); }
    }

    method CommitTo(k: nat, surf: map<Point, Color>, n: nat, rects: seq<Rect>)
      requires Valid() && |rects| == 32 && k < |z|
      modifies this`z, this`damage, this`armed, this`stale
      ensures Valid() && z == old(z)[k := old(z)[k].(surf := Some(surf))]
      ensures stale == old(stale) + Unreported(old(z)[k], surf, n, rects)
      ensures old(InSync()) && Sane(old(z)) ==> InSync()
    {
      hide Pointed, Live, FitsScreen, Uids, DistinctUids, Tracks, Smooth, Sane, Unreported, RefsListed, Covers, Reach;
      ghost var v, g := Current(), damage;
      var w := z[k].(surf := Some(surf));
      UidsReplaced(z, k, w);
      Update(z[k := w]);
      CommitDamage(w, n, rects);
      stale := stale + Unreported(v.z[k], surf, n, rects);
      assert Current() == v.(z := v.z[k := w]) && Reach(w) == Reach(v.z[k]) by { SameBox(v.z[k], w); }
      if old(InSync()) && Sane(v.z) {
        CommitTracks(P, sprite, v, k, surf, n, rects, fb, g, damage, old(stale), shownAt);
      }
    }

    /** MC_SET_MODE. */
    method SetMode(m: nat)
      requires Valid()
      modifies this`mode, this`curWs, this`frozen, this`damage, this`armed, this`stale
      ensures Valid() && InSync() && mode == m && frozen && curWs == old(curWs) && stale == iset{}
    {
      frozen := true;
      DamageScreen(m, curWs);
    }

    /** MC_WORKSPACE. */
    method SwitchWorkspace(dir: int)
      requires Valid()
      modifies this`mode, this`curWs, this`damage, this`armed, this`stale
      ensures Valid() && mode == old(mode) && curWs == Clamp(old(curWs) + dir, 0, N_WS - 1)
      ensures stale == if curWs == old(curWs) then old(stale) else iset{}
      ensures old(InSync()) ==> InSync()
    {
      var next := Clamp(curWs + dir, 0, N_WS - 1);
      if next == curWs { return; }
      DamageScreen(mode, next);
    }

    /** The first free slot, or slot 0 when all are taken. */
    method NoticeSlot() returns (slot: nat)
      requires |notices| == MAX_NOTIFS
      ensures slot == SlotFor(notices)
    {
      slot := 0;
      while slot < MAX_NOTIFS && notices[slot].title != ""
        invariant slot <= MAX_NOTIFS && forall i :: 0 <= i < slot ==> notices[i].title != ""
      {
        slot := slot + 1;
      }
      if slot == MAX_NOTIFS { slot := 0; }
    }

    /** notify; `pool` says whether an animation could be started for it. */
    method Notify(title: string, body: string, icon: string, pool: bool)
      requires Valid()
      modifies this`notices, this`damage, this`armed, this`anims, this`stale
      ensures Valid() && armed && anims == old(anims) + (if pool then 1 else 0)
      ensures notices == old(notices)[SlotFor(old(notices)) := Notice(title, body, icon, if pool then 360 else 0, false, false)]
      ensures stale == old(stale) + NoticeMarks(old(Current()), notices, true)
      ensures forall p :: Covers(old(damage), p) ==> Covers(damage, p)
      ensures old(InSync()) ==> InSync()
    {
      hide Pointed, FitsScreen, RefsListed, Uids, DistinctUids, Tracks, Smooth, SlotFor, NoticeMarks, Covers, Live;
      ghost var v, g := Current(), damage;
      Post(Notice(title, body, icon, if pool then 360 else 0, false, false), pool);
      stale := stale + NoticeMarks(v, notices, true);
      assert Current() == v.(notices := notices);
      if old(InSync()) { NoticeTracks(P, sprite, v, notices, fb, g, damage, old(stale), shownAt, true); }
    }

    /** A notification takes its slot and its area is damaged. */
    method Post(n: Notice, pool: bool)
      requires Valid()
      modifies this`notices, this`damage, this`armed, this`anims
      ensures Valid() && armed && anims == old(anims) + (if pool then 1 else 0)
      ensures notices == old(notices)[SlotFor(old(notices)) := n]
      ensures forall p :: Covers(old(damage), p) || (NoticeArea(screen).Has(p) && screen.Has(p)) ==> Covers(damage, p)
    {
      hide Pointed, FitsScreen, RefsListed, Uids, DistinctUids, SlotFor, Covers;
      var slot := NoticeSlot();
      notices := notices[slot := n];
      Invalidate(Rect(screen.w - 400, 20, 420, 400));
      if pool { anims := anims + 1; }
    }

    // ------------------------------------------------------------ stacking and focus

    /** focus_win on window k. */
    method FocusWin(k: nat)
      requires Valid() && k < |z|
      modifies this`z, this`back, this`damage, this`armed
      ensures Valid() && z == FocusedList(old(z), k) && back == FocusedBack(old(z), k, old(back)) && |z| == |old(z)|
      ensures old(InSync()) && Sane(old(z)) ==> InSync()
      ensures Sane(old(z)) ==> Sane(z)
    {
      hide Tracks, Pointed, Smooth, Live, FitsScreen;
      if z[k].noFocus { return; }
      if k == 0 && z[0].focused { return; }
      FocusedListFacts(z, k);
      if k == 0 {
        Replace(0, z[0].(focused := true));
        return;
      }
      RaiseWin(k);
    }

    /** The rest of focus_win when window k is not in front yet. */
    method RaiseWin(k: nat)
      requires Valid() && 0 < k < |z|
      modifies this`z, this`back, this`damage, this`armed
      ensures Valid() && z == Focused(old(z), k) && back == RaisedBack(old(z), k, old(back))
      ensures old(InSync()) && Sane(old(z)) ==> InSync()
    {
      hide Tracks, Pointed, Smooth, Live, FitsScreen, RaisedBack;
      ghost var v, g := Current(), damage;
      var prev := z[0];
      FocusedFacts(z, k);
      Restack(Focused(z, k), RaisedBack(z, k, back));
      WinDamageAll(prev);
      WinDamageAll(z[0]);
      if old(InSync()) && Sane(v.z) {
        assert Current() == v.(z := Focused(v.z, k));
        FocusTracks(P, sprite, v, k, fb, g, damage, stale, shownAt);
      }
    }

    /** MC_FOCUS and the raise action. */
    method Focus(id: int)
      requires Valid()
      modifies this`z, this`back, this`damage, this`armed
      ensures Valid()
      ensures var k := IndexOf(old(z), id); z == if k == |old(z)| then old(z) else FocusedList(old(z), k)
      ensures var k := IndexOf(old(z), id); back == if k == |old(z)| then old(back) else FocusedBack(old(z), k, old(back))
      ensures old(InSync()) && Sane(old(z)) ==> InSync()
    {
      var k := Find(id);
      if k < |z| { FocusWin(k); }
    }

    /** win_close on window k. */
    method CloseWin(k: nat, pool: bool)
      requires Valid() && k < |z|
      modifies this`z, this`damage, this`armed, this`anims
      ensures Valid()
      ensures z == ClosedList(old(z), k, pool)
      ensures old(InSync()) && Sane(old(z)) ==> InSync()
    {
      if z[k].closing { return; }
      Touch(k, z[k].(closing := true, fading := pool));
      if pool { anims := anims + 1; }
    }

    /** client_gone: every window of the client closes. */
    method ClientGone(client: nat, pool: nat -> bool)
      requires Valid()
      modifies this`z, this`damage, this`armed, this`anims
      ensures Valid() && z == OrphanedList(old(z), client, pool)
      ensures anims == old(anims) + Fades(old(z), client, pool, |old(z)|)
      ensures old(InSync()) && Sane(old(z)) ==> InSync() && Sane(z)
    {
      hide Pointed, Live, FitsScreen, RefsListed, Uids, DistinctUids, Tracks, Smooth, Fits, Frame, Orphaned, Reach;
      ghost var z0, synced := z, InSync() && Sane(z);
      for k := 0 to |z|
        invariant Valid() && |z| == |z0| && anims == old(anims) + Fades(z0, client, pool, k)
        invariant forall i :: 0 <= i < |z| ==> z[i] == if i < k then Orphaned(z0[i], client, pool) else z0[i]
        invariant synced ==> InSync() && Sane(z)
      {
        Orphan(k, client, pool);
      }
      assert z == OrphanedList(z0, client, pool);
    }

    /** One turn of that loop. */
    method Orphan(k: nat, client: nat, pool: nat -> bool)
      requires Valid() && k < |z|
      modifies this`z, this`damage, this`armed, this`anims
      ensures Valid() && z == old(z)[k := Orphaned(old(z)[k], client, pool)]
      ensures anims == old(anims) + if old(z)[k].client == Some(client) && !old(z)[k].closing && pool(old(z)[k].uid) then 1 else 0
      ensures old(InSync()) && Sane(old(z)) ==> InSync() && Sane(z)
    {
      hide Pointed, FitsScreen, RefsListed, Uids, DistinctUids, Tracks, Smooth, Fits, Frame, Reach;
      var w := z[k];
      OrphanedBox(w, client, pool);
      if w.client == Some(client) && !w.closing {
        ghost var z0 := z;
        Touch(k, Orphaned(w, client, pool));
        if pool(w.uid) { anims := anims + 1; }
        SaneReplaced(z0, k, z[k]);
      }
    }

    /** minimize_win on window k: it hides, and the next window that can take focus gets it. */
    method MinimizeWin(k: nat, pool: bool)
      requires Valid() && k < |z|
      modifies this`z, this`back, this`damage, this`armed, this`anims
      ensures Valid() && |z| == |old(z)| && z == MinimizedList(old(z), k, pool, curWs)
      ensures back == MinimizedBack(old(z), k, pool, curWs, old(back))
      ensures old(InSync()) && Sane(old(z)) ==> InSync()
    {
      hide Pointed, Live, FitsScreen, RefsListed, Uids, DistinctUids, Tracks, Smooth, Sane;
      if z[k].minimized { return; }
      HideWin(k, pool);
      var n := NextToFocus(k);
      if n < |z| { FocusWin(n); }
    }

    /** The first half of minimize_win: the window hides. */
    method HideWin(k: nat, pool: bool)
      requires Valid() && k < |z|
      modifies this`z, this`damage, this`armed, this`anims
      ensures Valid()
      ensures z == old(z)[k := old(z)[k].(minimized := true, closing := false, fading := pool)]
      ensures old(InSync()) && Sane(old(z)) ==> InSync()
      ensures Sane(old(z)) ==> Sane(z)
    {
      hide Pointed, FitsScreen, RefsListed, Uids, DistinctUids, Tracks, Smooth, Fits, Frame, Reach, Added;
      var w := z[k].(minimized := true, closing := false, fading := pool);
      SameBox(z[k], w);
      if Sane(z) { SaneTouched(z, k, w); }
      Touch(k, w);
      if pool { anims := anims + 1; }
    }

    /** The search of minimize_win for the window that gets the focus. */
    method NextToFocus(k: nat) returns (n: nat)
      ensures n == NextFocus(z, curWs, k)
    {
      n := 0;
      while n < |z| && (n == k || !Visible(z[n], curWs) || z[n].noFocus)
        invariant n <= |z| && forall i :: 0 <= i < n ==> i == k || !Visible(z[i], curWs) || z[i].noFocus
      {
        n := n + 1;
      }
    }

    /** toggle_maximize on window k: the target changes, the window glides there later. */
    method ToggleMaximize(k: nat, pool: bool)
      requires Valid() && k < |z|
      modifies this`z, this`damage, this`armed, this`anims
      ensures Valid()
      ensures z == MaximizedList(old(z), k, pool, screen)
      ensures old(InSync()) && Sane(old(z)) ==> InSync()
    {
      hide Pointed, FitsScreen, RefsListed, Uids, DistinctUids, Tracks, Smooth, Fits, Frame, Maximized, Reach, Covers;
      MaximizedBox(z[k], pool, screen);
      Touch(k, Maximized(z[k], pool, screen));
      if pool { anims := anims + 1; }
    }

    // ------------------------------------------------------------ pointer

    /** ml_cursor_move and the two damage boxes it reports. */
    method MoveCursor(to: Point)
      requires Valid()
      modifies this`cursor, this`damage, this`armed
      ensures Valid() && armed
      ensures cursor == Point(Clamp(to.x, 0, screen.w - 1), Clamp(to.y, 0, screen.h - 1))
      ensures old(InSync()) ==> InSync()
    {
      var next := Point(Clamp(to.x, 0, screen.w - 1), Clamp(to.y, 0, screen.h - 1));
      RequestFrame();
      if next == cursor { return; }
      WarpCursor(next);
    }

    /** The pointer leaves one box for another; both are damaged. */
    method WarpCursor(next: Point)
      requires Valid() && screen.Has(next)
      modifies this`cursor, this`damage, this`armed
      ensures Valid() && armed && cursor == next
      ensures old(InSync()) ==> InSync()
    {
      hide Tracks, Smooth, RefsListed, DistinctUids, Uids, PointerBox, FitsScreen, Live;
      ghost var g := damage;
      Invalidate(PointerBox(sprite, screen, cursor));
      Invalidate(PointerBox(sprite, screen, next));
      if old(InSync()) { MoreDamage(P, sprite, Current(), fb, g, damage, stale, shownAt); }
      cursor := next;
    }

    /** input_move. */
    method PointerMove(to: Point)
      requires Valid()
      modifies this`cursor, this`z, this`lost, this`damage, this`armed, this`hover
      ensures Valid() && armed
      ensures cursor == Point(Clamp(to.x, 0, screen.w - 1), Clamp(to.y, 0, screen.h - 1))
      ensures z == Followed(old(z), drag, resizing, cursor.x - old(cursor.x), cursor.y - old(cursor.y), screen)
      ensures lost == Followed(old(lost), drag, resizing, cursor.x - old(cursor.x), cursor.y - old(cursor.y), screen)
      ensures drag.Some? && drag.value in Uids(old(z)) ==>
                Carried(old(z), z, UidIndex(old(z), drag.value), old(cursor), cursor)
      ensures drag.None? && resizing.Some? && resizing.value in Uids(old(z)) ==>
                Pulled(old(z), z, UidIndex(old(z), resizing.value), old(cursor), cursor, screen)
      ensures var held := drag.Some? || resizing.Some? || exists b :: 0 <= b < 3 && b < |btn| && b < |capture| && btn[b] && capture[b].Some?;
              hover == if held then old(hover) else Hit(z, curWs, cursor)
      ensures old(InSync()) && Sane(old(z)) && Sane(z) ==> InSync()
    {
      FollowedMeans(z, drag, resizing, cursor, Point(Clamp(to.x, 0, screen.w - 1), Clamp(to.y, 0, screen.h - 1)), screen);
      hide Carried, Pulled;
      hide Followed, Pointed, Live, FitsScreen, RefsListed, Uids, DistinctUids, Tracks, Smooth, Sane;
      var from := cursor;
      MoveCursor(to);
      FollowPointer(cursor.x - from.x, cursor.y - from.y);
    }

    /** The rest of input_move: drag, resize, or hover. A window that dropped out of the list can
        still be dragged; only its damage shows. */
    method FollowPointer(dx: int, dy: int)
      requires Valid()
      modifies this`z, this`lost, this`damage, this`armed, this`hover
      ensures Valid() && (old(armed) ==> armed)
      ensures z == Followed(old(z), drag, resizing, dx, dy, screen)
      ensures lost == Followed(old(lost), drag, resizing, dx, dy, screen)
      ensures hover == if drag.Some? || resizing.Some? || Captured() then old(hover) else Hit(z, curWs, cursor)
      ensures old(InSync()) && Sane(old(z)) && Sane(z) ==> InSync()
    {
      hide Tracks, Pointed, Smooth, Live, FitsScreen, Uids, DistinctUids, Sane, Fits;
      if drag.Some? {
        if drag.value in Uids(z) {
          var k := UidIndex(z, drag.value);
          Reshape(k, Dragged(z[k], dx, dy));
        } else {
          var k := UidIndex(lost, drag.value);
          ReshapeLost(k, Dragged(lost[k], dx, dy));
        }
      } else if resizing.Some? {
        if resizing.value in Uids(z) {
          var k := UidIndex(z, resizing.value);
          Reshape(k, Stretched(z[k], dx, dy, screen));
        } else {
          var k := UidIndex(lost, resizing.value);
          ReshapeLost(k, Stretched(lost[k], dx, dy, screen));
        }
      } else if !Captured() {
        HoverAt();
      }
    }

    /** The same for a window that is not listed any more. */
    method ReshapeLost(k: nat, w: Win)
      requires Valid() && k < |lost| && w.uid == lost[k].uid
      modifies this`lost, this`damage, this`armed
      ensures Valid() && armed && lost == old(lost)[k := w]
      ensures old(InSync()) ==> InSync()
    {
      hide Tracks, Pointed, Smooth, Live, FitsScreen, Uids, DistinctUids, Reach;
      ghost var g := damage;
      WinDamageAll(lost[k]);
      UidsReplaced(lost, k, w);
      lost := lost[k := w];
      WinDamageAll(w);
      if old(InSync()) { MoreDamage(P, sprite, Current(), fb, g, damage, stale, shownAt); }
    }

    /** Replace, with the soundness condition stated on whole lists. */
    method Reshape(k: nat, w: Win)
      requires Valid() && k < |z| && w.uid == z[k].uid
      modifies this`z, this`damage, this`armed
      ensures Valid() && armed && z == old(z)[k := w]
      ensures old(InSync()) && Sane(old(z)) && Sane(z) ==> InSync()
    {
      Replace(k, w);
      if Sane(z) { assert Fits(z[k]); }
    }

    /** The window under the pointer becomes the hovered one. */
    method HoverAt()
      requires Valid()
      modifies this`hover
      ensures Valid()
      ensures hover == Hit(z, curWs, cursor)
      ensures old(InSync()) ==> InSync()
    {
      var k := WinAt(cursor);
      hide Tracks, Pointed, Smooth, Live, FitsScreen, DistinctUids;
      if k < |z| { assert z[k] in z; }
      hover := if k < |z| then Some(z[k].uid) else None;
    }

    /** A button is held over a window that took the press. */
    predicate Captured()
      reads this
    {
      exists b :: 0 <= b < Min(|btn|, |capture|) && btn[b] && capture[b].Some?
    }

    /** input_button, pressed: nothing outside the windows; a title-bar button closes, minimizes
        or maximizes; anywhere else the window is focused and captures the button, and the title
        bar also starts a drag. */
    method ButtonDown(b: nat, pool: bool)
      requires Valid() && b < 3
      modifies this`btn, this`z, this`back, this`damage, this`armed, this`anims, this`drag, this`capture
      ensures Valid() && btn == old(btn)[b := true]
      ensures var k := HitIndex(old(z), curWs, cursor);
              if k == |old(z)| then z == old(z) && back == old(back) && drag == old(drag) && capture == old(capture)
              else Pressed(old(z), old(back), old(drag), old(capture), k, b, pool)
      ensures old(InSync()) && Sane(old(z)) ==> InSync()
    {
      hide Pointed, Live, FitsScreen, RefsListed, Uids, DistinctUids, Tracks, Smooth, Sane, Pressed, InSync;
      btn := btn[b := true];
      var k := WinAt(cursor);
      if k < |z| { PressOn(k, b, pool); }
    }

    /** What a press of button b on window k of the list before it has done. */
    predicate Pressed(z0: seq<Win>, back0: Option<nat>, drag0: Option<nat>, capture0: seq<Option<nat>>, k: nat, b: nat, pool: bool)
      requires k < |z0| && b < |capture0|
      reads `z, `back, `drag, `capture, `cursor, `curWs
    {
      var deco := OnDeco(z0[k], cursor);
      if deco && DecoButton(z0[k], cursor) < 3 then
        && z == Decorated(z0, k, DecoButton(z0[k], cursor), pool, curWs, screen)
        && back == DecoratedBack(z0, k, DecoButton(z0[k], cursor), pool, curWs, back0)
        && drag == drag0 && capture == capture0
      else
        && z == FocusedList(z0, k) && back == FocusedBack(z0, k, back0)
        && capture == capture0[b := Some(z0[k].uid)]
        && drag == if deco then Some(z0[k].uid) else drag0
    }

    method PressOn(k: nat, b: nat, pool: bool)
      requires Valid() && k < |z| && b < 3
      modifies this`z, this`back, this`damage, this`armed, this`anims, this`drag, this`capture
      ensures Valid() && Pressed(old(z), old(back), old(drag), old(capture), k, b, pool)
      ensures old(InSync()) && Sane(old(z)) ==> InSync()
    {
      hide Pointed, Live, FitsScreen, RefsListed, Uids, DistinctUids, Tracks, Smooth, Sane, InSync;
      hide Decorated, DecoratedBack, FocusedList, FocusedBack, DecoButton;
      var deco := OnDeco(z[k], cursor);
      if deco && DecoButton(z[k], cursor) < 3 {
        PressDeco(k, DecoButton(z[k], cursor), pool);
      } else {
        Grab(k, b, deco);
      }
    }

    /** One of the three title-bar buttons. */
    method PressDeco(k: nat, db: nat, pool: bool)
      requires Valid() && k < |z| && db < 3
      modifies this`z, this`back, this`damage, this`armed, this`anims
      ensures Valid() && z == Decorated(old(z), k, db, pool, curWs, screen)
      ensures back == DecoratedBack(old(z), k, db, pool, curWs, old(back))
      ensures old(InSync()) && Sane(old(z)) ==> InSync()
    {
      if db == 0 { CloseWin(k, pool); }
      else if db == 1 { MinimizeWin(k, pool); }
      else { ToggleMaximize(k, pool); }
    }

    /** Focus window k and let it capture the button. */
    method Grab(k: nat, b: nat, deco: bool)
      requires Valid() && k < |z| && b < 3
      modifies this`z, this`back, this`damage, this`armed, this`drag, this`capture
      ensures Valid() && z == FocusedList(old(z), k) && back == FocusedBack(old(z), k, old(back))
      ensures capture == old(capture)[b := Some(old(z)[k].uid)]
      ensures drag == if deco then Some(old(z)[k].uid) else old(drag)
      ensures old(InSync()) && Sane(old(z)) ==> InSync()
    {
      hide Pointed, Live, FitsScreen, DistinctUids, Tracks, Smooth, Sane, FocusedBack, Uids;
      var u := z[k].uid;
      FocusedListFacts(z, k);
      FocusWin(k);
      if deco { drag := Some(u); }
      capture := capture[b := Some(u)];
    }

    /** input_button, released: the capture ends, and the left button also ends drag and resize. */
    method ButtonUp(b: nat)
      requires Valid() && b < 3
      modifies this`btn, this`drag, this`resizing, this`capture
      ensures Valid() && btn == old(btn)[b := false] && capture == old(capture)[b := None]
      ensures b == 0 ==> drag.None? && resizing.None?
      ensures b != 0 ==> drag == old(drag) && resizing == old(resizing)
      ensures old(InSync()) ==> InSync()
    {
      hide Pointed, Live, FitsScreen, Uids, DistinctUids, Tracks, Smooth;
      btn := btn[b := false];
      capture := capture[b := None];
      if b == 0 { drag, resizing := None, None; }
    }

    // ------------------------------------------------------------ windows come and go

    /** MC_WIN_NEW once its buffer is mapped. Raising comes before focusing, so the former front window
        is not damaged: where it shows its focus becomes stale. Without a back pointer a bottom
        window drops every other window from the list, and what they showed becomes stale. */
    method NewWindow(r: Request, pool: bool)
      requires Valid()
      modifies this`z, this`back, this`lost, this`damage, this`armed, this`anims, this`nextUid, this`cascade, this`stale
      ensures Valid() && nextUid == old(nextUid) + 1 && cascade == old(cascade) + 1
      ensures z == WithNew(old(z), old(back), Requested(r, old(nextUid), old(cascade), curWs, screen), pool)
      ensures back == EnteredBack(old(back), Requested(r, old(nextUid), old(cascade), curWs, screen))
      ensures lost == if r.bottom && old(back).None? then old(lost) + old(z) else old(lost)
      ensures stale == old(stale) + EntryMarks(old(Current()), old(back), r.bottom)
      ensures old(InSync()) && Sane(old(z)) && Sane(z) ==> InSync()
    {
      hide Pointed, Live, FitsScreen, RefsListed, Tracks, Smooth, Sane, WithNew, Uids, DistinctUids, EntryMarks;
      var w := Requested(r, nextUid, cascade, curWs, screen);
      cascade := cascade + 1;
      Admit(w, pool);
    }

    /** Stack, focus and open a new window. */
    method Admit(w: Win, pool: bool)
      requires Valid() && w.uid == nextUid && !w.mapped && !w.focused && w.scale == 1.0
      modifies this`z, this`back, this`lost, this`damage, this`armed, this`anims, this`nextUid, this`stale
      ensures Valid() && nextUid == old(nextUid) + 1 && z == WithNew(old(z), old(back), w, pool)
      ensures back == EnteredBack(old(back), w)
      ensures lost == if w.bottom && old(back).None? then old(lost) + old(z) else old(lost)
      ensures stale == old(stale) + EntryMarks(old(Current()), old(back), w.bottom)
      ensures old(InSync()) && Sane(old(z)) && Sane(z) ==> InSync()
    {
      hide Fits, Tracks, Pointed, Smooth, Live, FitsScreen, RefsListed, Uids, DistinctUids, EntryMarks;
      ghost var z0, b0 := z, back;
      Arrive(w);
      if !w.bottom {
        FocusWin(0);
      }
      Open(if w.bottom then |z| - 1 else 0, pool);
      if Sane(z) { NewSane(z0, b0, w, pool); }
    }

    /** The end of MC_WIN_NEW: the window is mapped and starts to open. */
    method Open(k: nat, pool: bool)
      requires Valid() && k < |z|
      modifies this`z, this`damage, this`armed, this`anims
      ensures Valid() && z == old(z)[k := Opened(old(z)[k], pool)]
      ensures old(InSync()) && Fits(old(z)[k]) && Sane(z) ==> InSync()
    {
      Touch(k, Opened(z[k], pool));
      if pool { anims := anims + 1; }
      if Sane(z) { assert Fits(z[k]); }
    }

    /** The unmapped window enters the list, at the back when it is a bottom window. */
    method Arrive(w: Win)
      requires Valid() && w.uid == nextUid && !w.mapped
      modifies this`z, this`back, this`lost, this`nextUid, this`stale
      ensures Valid() && nextUid == old(nextUid) + 1
      ensures z == Entered(old(z), old(back), w) && back == EnteredBack(old(back), w)
      ensures lost == if w.bottom && old(back).None? then old(lost) + old(z) else old(lost)
      ensures stale == old(stale) + EntryMarks(old(Current()), old(back), w.bottom)
      ensures old(InSync()) && Sane(old(z)) && |z| <= MAX_PAINTED ==> InSync()
    {
      hide Tracks, Smooth, Pointed, FitsScreen, Live, Sane, EntryMarks;
      ghost var v := Current();
      EnterList(w);
      stale := stale + EntryMarks(v, old(back), w.bottom);
      if old(InSync()) && Sane(v.z) && |z| <= MAX_PAINTED {
        EntryTracks(P, sprite, v, old(back), w, fb, damage, old(stale), shownAt);
        assert Current() == v.(z := z);
      }
    }

    method EnterList(w: Win)
      requires Valid() && w.uid == nextUid
      modifies this`z, this`back, this`lost, this`nextUid
      ensures Valid() && nextUid == old(nextUid) + 1
      ensures z == Entered(old(z), old(back), w) && back == EnteredBack(old(back), w)
      ensures lost == if w.bottom && old(back).None? then old(lost) + old(z) else old(lost)
    {
      hide Pointed, FitsScreen, Live, Uids, DistinctUids;
      EntryFacts(z, lost, back, w);
      if w.bottom && back.None? { lost := lost + z; }
      z, back := Entered(z, back, w), EnteredBack(back, w);
      nextUid := nextUid + 1;
    }

    /** win_release on window k: it leaves the list, and no reference to it stays. The back pointer
        is lost when the back window was the last one. Where the next window shows its focus
        becomes stale when the front one goes. */
    method ReleaseWin(k: nat)
      requires Valid() && k < |z|
      modifies this`z, this`back, this`damage, this`armed, this`drag, this`resizing, this`hover, this`capture, this`stale
      ensures Valid() && armed && z == RemoveAt(old(z), k) && back == ReleasedBack(old(z), k, old(back))
      ensures var u := Some(old(z)[k].uid);
              && drag == Cleared(old(drag), u) && resizing == Cleared(old(resizing), u) && hover == Cleared(old(hover), u)
              && |capture| == 3 && forall i :: 0 <= i < 3 ==> capture[i] == Cleared(old(capture)[i], u)
      ensures stale == old(stale) + RemovalMarks(old(Current()), k)
      ensures forall p :: Covers(old(damage), p) ==> Covers(damage, p)
      ensures old(InSync()) && Sane(old(z)) ==> InSync()
    {
      hide Tracks, Smooth, Pointed, FitsScreen, Live, RefsListed, Cleared, Uids, RemovalMarks;
      ghost var v, g := Current(), damage;
      WinDamageAll(z[k]);
      Unlist(k);
      stale := stale + RemovalMarks(v, k);
      if old(InSync()) && Sane(v.z) {
        RemovalTracks(P, sprite, v, k, fb, g, damage, old(stale), shownAt);
        assert Current() == v.(z := RemoveAt(v.z, k));
      }
    }

    /** Unlink window k and clear every reference to it. */
    method Unlist(k: nat)
      requires Valid() && k < |z|
      modifies this`z, this`back, this`drag, this`resizing, this`hover, this`capture
      ensures Valid() && z == RemoveAt(old(z), k) && back == ReleasedBack(old(z), k, old(back))
      ensures var u := Some(old(z)[k].uid);
              && drag == Cleared(old(drag), u) && resizing == Cleared(old(resizing), u) && hover == Cleared(old(hover), u)
              && |capture| == 3 && forall i :: 0 <= i < 3 ==> capture[i] == Cleared(old(capture)[i], u)
    {
      hide Pointed, FitsScreen, Live, Uids, DistinctUids;
      var u := Some(z[k].uid);
      RemovalFacts(z, k);
      BackFacts(z, k, back);
      ClearRefs(u);
      z, back := RemoveAt(z, k), ReleasedBack(z, k, back);
    }

    /** Clear every reference to one window. */
    method ClearRefs(u: Option<nat>)
      requires Valid() && u.Some?
      modifies this`drag, this`resizing, this`hover, this`capture
      ensures Valid()
      ensures drag == Cleared(old(drag), u) && resizing == Cleared(old(resizing), u) && hover == Cleared(old(hover), u)
      ensures |capture| == 3 && forall i :: 0 <= i < 3 ==> capture[i] == Cleared(old(capture)[i], u)
    {
      hide Pointed, Live, FitsScreen, Uids, DistinctUids, Tracks, Smooth;
      if drag == u { drag := None; }
      if resizing == u { resizing := None; }
      ClearCaptures(u);
      if hover == u { hover := None; }
    }

    method ClearCaptures(u: Option<nat>)
      requires |capture| == 3
      modifies this`capture
      ensures |capture| == 3 && forall i :: 0 <= i < 3 ==> capture[i] == Cleared(old(capture)[i], u)
    {
      for b := 0 to 3
        invariant |capture| == 3
        invariant forall i :: 0 <= i < 3 ==> capture[i] == if i < b then Cleared(old(capture)[i], u) else old(capture)[i]
      {
        if capture[b] == u { capture := capture[b := None]; }
      }
    }

    // ------------------------------------------------------------ animations

    /** anim_tick for window k. */
    method TickWindow(k: nat, t: WinTick) returns (released: bool)
      requires Valid() && k < |z|
      modifies this`z, this`back, this`damage, this`armed, this`drag, this`resizing, this`hover, this`capture, this`stale
      ensures Valid() && (old(armed) ==> armed) && released == Released(old(z)[k], t)
      ensures back == if released then ReleasedBack(old(z), k, old(back)) else old(back)
      ensures drag == if released then Cleared(old(drag), Some(old(z)[k].uid)) else old(drag)
      ensures z == if released then RemoveAt(old(z), k) else old(z)[k := Glided(Faded(old(z)[k], t), t)]
      ensures stale == if released then old(stale) + RemovalMarks(old(Current()), k) else old(stale)
      ensures forall p :: Covers(old(damage), p) ==> Covers(damage, p)
      ensures old(InSync()) && Sane(old(z)) && Calm(old(z)[k], t) ==> InSync() && Sane(z)
    {
      hide Tracks, Pointed, Glided, Smooth, Live, FitsScreen, RefsListed, Uids, DistinctUids, Covers, RemovalMarks;
      ghost var z0 := z;
      if Released(z[k], t) {
        ReleaseWin(k);
        SaneRemoved(z0, k);
        return true;
      }
      if z[k].fading { Touch(k, Faded(z[k], t)); }
      SaneReplaced(z0, k, Faded(z0[k], t));
      GlideWindow(k, t);
      if Fits(Faded(z0[k], t)) && Fits(z[k]) { SaneReplaced(z0[k := Faded(z0[k], t)], k, z[k]); }
      return false;
    }

    /** The geometry step of anim_tick. A finished animation reports the rectangle it ends at. */
    method GlideWindow(k: nat, t: WinTick)
      requires Valid() && k < |z|
      modifies this`z, this`damage, this`armed
      ensures Valid() && (old(armed) ==> armed) && z == old(z)[k := Glided(old(z)[k], t)]
      ensures forall p :: Covers(old(damage), p) ==> Covers(damage, p)
      ensures old(InSync()) && |z| <= MAX_PAINTED && Fits(old(z)[k]) && Fits(Glided(old(z)[k], t)) && Lands(old(z)[k], t) ==>
        InSync()
    {
      hide Tracks, Pointed, Smooth, Live, FitsScreen, RefsListed, Uids, DistinctUids, Covers, Fits, Frame, Lands, Reach, Added, Shifted, Halted;
      if z[k].glide.None? { return; }
      if Fits(z[k]) && Fits(Glided(z[k], t)) && Lands(z[k], t) { GlideParts(z[k], t); }
      GlideTo(k, if t.glideRuns then t.rect else z[k].glide.value);
      if !t.glideRuns { GlideEnd(k); }
    }

    method GlideTo(k: nat, r: Rect)
      requires Valid() && k < |z|
      modifies this`z, this`damage, this`armed
      ensures Valid() && (old(armed) ==> armed) && z == old(z)[k := Shifted(old(z)[k], r)]
      ensures forall p :: Covers(old(damage), p) ==> Covers(damage, p)
      ensures old(InSync()) && |z| <= MAX_PAINTED && Fits(old(z)[k]) && Fits(Shifted(old(z)[k], r)) ==> InSync()
    {
      hide Tracks, Pointed, Smooth, Live, FitsScreen, RefsListed, Uids, DistinctUids, Covers, Fits, Reach, Added;
      if r != z[k].cur { Replace(k, Shifted(z[k], r)); }
    }

    method GlideEnd(k: nat)
      requires Valid() && k < |z|
      modifies this`z, this`damage, this`armed
      ensures Valid() && armed && z == old(z)[k := Halted(old(z)[k])]
      ensures forall p :: Covers(old(damage), p) ==> Covers(damage, p)
      ensures old(InSync()) && |z| <= MAX_PAINTED && Fits(old(z)[k]) && Fits(Halted(old(z)[k])) && Frame(Halted(old(z)[k])) == Frame(old(z)[k]) ==>
        InSync()
    {
      hide Tracks, Pointed, Smooth, Live, FitsScreen, RefsListed, Uids, DistinctUids, Covers, Fits, Frame, Reach, Added;
      Touch(k, Halted(z[k]));
    }

    /** The window loop of anim_tick. */
    method TickWindows(env: nat -> WinTick)
      requires Valid() && armed
      modifies this`z, this`back, this`damage, this`armed, this`drag, this`resizing, this`hover, this`capture, this`stale
      ensures Valid() && armed && z == Ticked(old(z), env) && back == TickedBack(old(z), env, old(back))
      ensures drag == TickedRef(old(z), env, old(drag))
      ensures stale == old(stale) + TickTitles(old(Current()), env)
      ensures forall p :: Covers(old(damage), p) ==> Covers(damage, p)
      ensures old(InSync()) && Sane(old(z)) && AllCalm(old(z), env) ==> InSync() && Sane(z)
    {
      hide Pointed, Live, FitsScreen, RefsListed, Uids, DistinctUids, Tracks, Smooth, Sane, AllCalm, Released, Covers, TickTitles, Ticking;
      ghost var v0, b0, d0, g0, s0 := Current(), back, drag, damage, stale;
      ghost var calm := InSync() && Sane(z) && AllCalm(z, env);
      var i := 0;
      ghost var j := 0;
      TickStarts(env, calm);
      while i < |z|
        invariant Ticking(v0, b0, d0, g0, s0, env, calm, i, j)
        decreases |z| - i
      {
        var released := TickNext(env, i, v0, b0, d0, g0, s0, calm, j);
        if !released { i := i + 1; }
        j := j + 1;
      }
      TickEnds(v0, b0, d0, g0, s0, env, calm, i, j);
    }

    lemma TickStarts(env: nat -> WinTick, calm: bool)
      requires Valid() && armed && (calm ==> InSync() && Sane(z) && AllCalm(z, env))
      ensures Ticking(Current(), back, drag, damage, stale, env, calm, 0, 0)
    {
      hide Pointed, Live, FitsScreen, RefsListed, Uids, DistinctUids, Tracks, Smooth, Sane, AllCalm, Released, Covers, TickTitles;
      assert TitlesTo(Current(), env, 0) == iset{} && AllReleased(z, env, 0);
      assert z[..0] + Ticked(z[0..], env) == Ticked(z, env) && z[0..] == z;
    }

    lemma TickEnds(v0: View, b0: Option<nat>, d0: Option<nat>, g0: seq<Rect>, s0: iset<Point>, env: nat -> WinTick, calm: bool, i: nat, j: nat)
      requires Ticking(v0, b0, d0, g0, s0, env, calm, i, j) && i >= |z|
      ensures Valid() && armed && z == Ticked(v0.z, env) && back == TickedBack(v0.z, env, b0) && drag == TickedRef(v0.z, env, d0)
      ensures stale == s0 + TickTitles(v0, env) && forall p :: Covers(g0, p) ==> Covers(damage, p)
      ensures calm ==> InSync() && Sane(z)
    {
      hide Pointed, Live, FitsScreen, RefsListed, Uids, DistinctUids, Tracks, Smooth, Sane, AllCalm, Released, Covers, TitlesTo, AllReleased;
      assert z[..i] == z && v0.z[j..] == [];
    }

    /** The loop has reached window j of the list it started with, all before it released as long as
        none was kept. */
    ghost predicate Ticking(v0: View, b0: Option<nat>, d0: Option<nat>, g0: seq<Rect>, s0: iset<Point>, env: nat -> WinTick,
                            calm: bool, i: nat, j: nat)
      reads this
    {
      var z0 := v0.z;
      && Valid() && armed && i <= |z| && i <= j <= |z0| && z[i..] == z0[j..]
      && z[..i] + Ticked(z0[j..], env) == Ticked(z0, env)
      && TickedBack(z0[j..], env, back) == TickedBack(z0, env, b0) && TickedRef(z0[j..], env, drag) == TickedRef(z0, env, d0)
      && v0.screen == screen && v0.curWs == curWs && (i == 0 <==> AllReleased(z0, env, j))
      && stale == s0 + TitlesTo(v0, env, j) && (forall p :: Covers(g0, p) ==> Covers(damage, p))
      && (calm ==> AllCalm(z0, env) && InSync() && Sane(z))
    }

    /** One turn of the loop. */
    method TickNext(env: nat -> WinTick, i: nat, ghost v0: View, ghost b0: Option<nat>, ghost d0: Option<nat>, ghost g0: seq<Rect>,
                    ghost s0: iset<Point>, ghost calm: bool, ghost j: nat)
      returns (released: bool)
      requires Ticking(v0, b0, d0, g0, s0, env, calm, i, j) && i < |z|
      modifies this`z, this`back, this`damage, this`armed, this`drag, this`resizing, this`hover, this`capture, this`stale
      ensures Ticking(v0, b0, d0, g0, s0, env, calm, if released then i else i + 1, j + 1)
      ensures |z| == |old(z)| - if released then 1 else 0
    {
      hide Calm, Sane, Tracks, Pointed, Smooth, Live, FitsScreen, RefsListed, Uids, DistinctUids, Released, ReleasedBack, Faded, Glided, Covers;
      hide TitlesTo, RemovalMarks, AllReleased;
      ghost var before, b, d, v := z, back, drag, Current();
      assert z[i] == z[i..][0] == v0.z[j..][0] == v0.z[j];
      if calm { CalmAt(v0.z, env, j); }
      released := TickWindow(i, env(z[i].uid));
      TickedStep(v0.z, j, before, i, env);
      TickedBackStep(v0.z, j, before, i, env, b);
      TickedRefStep(v0.z, j, env, d);
      if released { MarksComing(v0, env, v, i, j); } else { MarksKept(v0, env, j); }
    }

    /** The notification loop of anim_tick, for one slot. */
    method TickNotice(i: nat, t: NoticeTick)
      requires Valid() && armed && i < MAX_NOTIFS
      modifies this`notices, this`damage, this`armed, this`anims
      ensures Valid() && armed && anims == old(anims) + if Departs(old(notices)[i], t) then 1 else 0
      ensures notices == old(notices)[i := NoticeAfter(old(notices)[i], t)]
      ensures forall p :: Covers(old(damage), p) ==> Covers(damage, p)
      ensures NoticeDamaged(old(notices)[i], t) ==> forall p :: NoticeArea(screen).Has(p) && screen.Has(p) ==> Covers(damage, p)
    {
      hide Pointed, Live, FitsScreen, RefsListed, Uids, DistinctUids, Tracks, Smooth, Covers;
      var n := notices[i];
      if n.title == "" { return; }
      notices := notices[i := n.(off := t.off)];
      var area := Rect(screen.w - 400, 20, 420, 400);
      if t.inRuns { Invalidate(area); }
      if n.leaving && t.outRuns { Invalidate(area); }
      EndNotice(i, t);
    }

    /** A closing notification goes when its animation has ended; an expired one starts to close. */
    method EndNotice(i: nat, t: NoticeTick)
      requires Valid() && armed && i < MAX_NOTIFS && notices[i].title != ""
      modifies this`notices, this`damage, this`armed, this`anims
      ensures Valid() && armed && anims == old(anims) + if Departs(old(notices)[i], t) then 1 else 0
      ensures var n := old(notices)[i];
              notices == old(notices)[i := if n.leaving && !t.outRuns then NO_NOTICE
                                           else if !n.dying && t.expired then n.(dying := true, leaving := t.pool) else n]
      ensures forall p :: Covers(old(damage), p) ==> Covers(damage, p)
      ensures old(notices)[i].leaving && !t.outRuns ==>
        forall p :: NoticeArea(screen).Has(p) && screen.Has(p) ==> Covers(damage, p)
    {
      var n := notices[i];
      if n.leaving && !t.outRuns {
        notices := notices[i := NO_NOTICE];
        Invalidate(Rect(screen.w - 400, 20, 420, 400));
      } else if !n.dying && t.expired {
        notices := notices[i := n.(dying := true, leaving := t.pool)];
        if t.pool { anims := anims + 1; }
      }
    }

    /** The notification loop of anim_tick, after the engine has moved every offset. Where other slots
        paint than before, outside the area if that was damaged, becomes stale. */
    method TickNotices(ticks: seq<NoticeTick>)
      requires Valid() && armed && |ticks| == MAX_NOTIFS
      modifies this`notices, this`damage, this`armed, this`anims, this`stale
      ensures Valid() && armed && anims == old(anims) + Departures(old(notices), ticks, MAX_NOTIFS)
      ensures notices == NoticesAfter(old(notices), ticks)
      ensures stale == old(stale) + NoticeMarks(old(Current()), notices, AnyDamaged(old(notices), ticks))
      ensures forall p :: Covers(old(damage), p) ==> Covers(damage, p)
      ensures old(InSync()) ==> InSync()
    {
      hide Pointed, Live, FitsScreen, RefsListed, Uids, DistinctUids, Tracks, Smooth, NoticeAfter, Departs, NoticeMarks, Covers, NoticeDamaged;
      ghost var v, g := Current(), damage;
      for i := 0 to MAX_NOTIFS
        invariant Valid() && armed && anims == old(anims) + Departures(old(notices), ticks, i)
        invariant forall j :: 0 <= j < MAX_NOTIFS ==>
          notices[j] == if j < i then NoticeAfter(old(notices)[j], ticks[j]) else old(notices)[j]
        invariant stale == old(stale) && forall p :: Covers(g, p) ==> Covers(damage, p)
        invariant (exists j :: 0 <= j < i && NoticeDamaged(old(notices)[j], ticks[j])) ==>
          forall p :: NoticeArea(screen).Has(p) && screen.Has(p) ==> Covers(damage, p)
      {
        TickNotice(i, ticks[i]);
      }
      assert notices == NoticesAfter(v.notices, ticks);
      stale := stale + NoticeMarks(v, notices, AnyDamaged(v.notices, ticks));
      assert Current() == v.(notices := notices);
      if old(InSync()) {
        NoticeTracks(P, sprite, v, notices, fb, g, damage, old(stale), shownAt, AnyDamaged(v.notices, ticks));
      }
    }

    /** anim_tick: `left` animations still run after the engine's step. */
    method AnimTick(env: nat -> WinTick, ticks: seq<NoticeTick>, left: nat)
      requires Valid() && armed && |ticks| == MAX_NOTIFS
      modifies this`z, this`back, this`notices, this`damage, this`armed, this`anims,
               this`drag, this`resizing, this`hover, this`capture, this`stale
      ensures Valid() && armed && z == Ticked(old(z), env) && back == TickedBack(old(z), env, old(back))
      ensures drag == TickedRef(old(z), env, old(drag))
      ensures notices == NoticesAfter(old(notices), ticks)
      ensures anims == left + Departures(old(notices), ticks, MAX_NOTIFS)
      ensures stale == old(stale) + TickMarks(old(Current()), env, ticks)
      ensures forall p :: Covers(old(damage), p) ==> Covers(damage, p)
      ensures old(InSync()) && Sane(old(z)) && Sane(z) && AllHomed(old(z)) ==> InSync()
    {
      hide Pointed, FitsScreen, RefsListed, Uids, DistinctUids, Tracks, Smooth, AllCalm, Ticked, TickedBack, NoticeAfter, Departures;
      hide TickTitles, NoticeMarks, Covers, AllHomed, Fits;
      ghost var v := Current();
      anims := left;
      TickWindows(env);
      MarksOfNotices(v, Current(), NoticesAfter(v.notices, ticks), AnyDamaged(v.notices, ticks));
      TickNotices(ticks);
      if Sane(v.z) && Sane(z) && AllHomed(v.z) { TickedCalm(v.z, env); }
    }

    /** frame_tick, the timer's callback. What the frame painted is stale no more. */
    method FrameTick(env: nat -> WinTick, ticks: seq<NoticeTick>, left: nat, slow: bool, pool: bool)
      requires Valid() && armed && |ticks| == MAX_NOTIFS
      modifies this
      ensures Valid() && z == Ticked(old(z), env) && back == TickedBack(old(z), env, old(back))
      ensures drag == TickedRef(old(z), env, old(drag))
      ensures lost == old(lost) && cursor == old(cursor) && curWs == old(curWs) && nextUid == old(nextUid) && cascade == old(cascade)
      ensures left + Departures(old(notices), ticks, MAX_NOTIFS) == 0 && damage == [] ==> !armed
      ensures stale <= old(stale) + TickMarks(old(Current()), env, ticks)
      ensures forall p :: Covers(old(damage), p) ==> p !in stale
      ensures damage != [] ==> forall p :: screen.Has(p) ==> Covers(damage, p)
      ensures old(InSync()) && Sane(old(z)) && Sane(z) && AllHomed(old(z)) && Narrow(sprite) ==>
        InSync() && (damage == [] ==> UpToDate())
    {
      hide Ticked, TickedBack, Departures, InSync, UpToDate, Sane, Base, Pointed, Live, Narrow, Covers, RefsListed, NoticeAfter, TickMarks, AllHomed;
      AnimTick(env, ticks, left);
      Present(slow, pool);
    }

    // ------------------------------------------------------------ the frame

    /** The pointer guard: any of the two pointer boxes the damage does not cover joins it. */
    method GuardPointer(g0: seq<Rect>) returns (g: seq<Rect>)
      requires Region.Disjoint(g0) && AllIn(g0, screen)
      ensures AllIn(g, screen) && forall p :: Covers(g0, p) ==> Covers(g, p)
      ensures Narrow(sprite) ==> CoversAll(g, PointerBox(sprite, screen, cursor))
      ensures Narrow(sprite) && shownAt.Some? ==> CoversAll(g, PointerBox(sprite, screen, shownAt.value))
    {
      g := g0;
      if shownAt.Some? {
        var box := PointerBox(sprite, screen, shownAt.value);
        assert g0 + [] == g0;
        if Narrow(sprite) { Region.NarrowBoxExact(g0, [], box); }
        g := Covering(g, box);
      }
      ghost var extra := g[|g0|..];
      assert g == g0 + extra;
      ghost var g1 := g;
      var here := PointerBox(sprite, screen, cursor);
      if Narrow(sprite) { Region.NarrowBoxExact(g0, extra, here); }
      g := Covering(g, here);
    }

    method Covering(g0: seq<Rect>, box: Rect) returns (g: seq<Rect>)
      ensures g == if Region.SaysCovered(g0, box) then g0 else g0 + [box]
      ensures forall p :: Covers(g0, p) ==> Covers(g, p)
      ensures (Region.SaysCovered(g0, box) <==> CoversAll(g0, box)) ==> CoversAll(g, box)
      ensures AllIn(g0, screen) && screen.Contains(box) ==> AllIn(g, screen)
    {
      var yes := Region.CoversRect(g0, box);
      if yes { return g0; }
      assert !box.Empty();
      g := Region.Add(g0, box);
      forall p ensures Covers(g, p) <==> Covers(g0, p) || box.Has(p) { CoversAppend(g0, box, p); }
    }

    /** present. `slow` says whether the frame arrived late; it matters from the second frame on.
        Whatever the damage said about the pointer, every smooth pixel of a tracked framebuffer that
        is not stale is shown exactly, and what is painted is stale no more; an idle call leaves
        the picture alone and disarms the timer; a frame that reduces the effects asks for the
        whole screen. */
    method Present(slow: bool, pool: bool)
      requires Valid()
      modifies this`damage, this`fb, this`shownAt, this`stale, this`mode, this`streak, this`steps, this`presented,
               this`notices, this`armed, this`anims
      ensures Valid() && z == old(z) && back == old(back) && lost == old(lost) && cursor == old(cursor) && curWs == old(curWs)
      ensures nextUid == old(nextUid) && cascade == old(cascade) && drag == old(drag)
      ensures damage == [] ==> Current() == old(Current())
      ensures stale <= old(stale) && forall p :: Covers(old(damage), p) ==> p !in stale
      ensures old(InSync()) && Narrow(sprite) ==> InSync() && (damage == [] ==> UpToDate())
      ensures old(damage) == [] && old(anims) == 0 ==> fb == old(fb) && damage == [] && !armed
      ensures old(anims) == 0 && damage == [] ==> !armed
      ensures damage != [] ==> forall p :: screen.Has(p) ==> Covers(damage, p)
      ensures old(mode) <= mode && (frozen ==> mode == old(mode)) && frozen == old(frozen)
    {
      hide Tracks, Smooth, Shown, Narrow, RefsListed, DistinctUids, Uids, FitsScreen, Covers, PointerOnce, PointerBox, AllIn, Valid, InSync;
      if damage == [] && anims == 0 {
        NothingCovered(damage);
        Rest();
        return;
      }
      ghost var synced := InSync() && Narrow(sprite);
      RepaintDamage();
      Pace(slow, pool, anims > 0);
      if synced { AfterFrame(); }
    }

    /** Nothing to draw and nothing to animate: the frame timer is disarmed. */
    method Rest()
      requires Valid() && damage == [] && anims == 0
      modifies this`armed
      ensures Valid() && !armed && (old(InSync()) ==> InSync() && UpToDate())
    {
      hide Tracks, RefsListed, DistinctUids, Uids, FitsScreen, AllIn;
      if InSync() { IdleIsUpToDate(); }
      if armed { armed := false; }
    }

    /** After a frame nothing is damaged, or everything is. */
    lemma AfterFrame()
      requires Valid()
      requires damage == [] ==> UpToDate() && shownAt == Some(cursor)
      requires damage != [] ==> forall p :: screen.Has(p) ==> Covers(damage, p)
      ensures InSync()
    {
      hide Smooth, Shown;
    }

    /** With nothing to do, a tracked framebuffer already shows the full repaint. */
    lemma IdleIsUpToDate()
      requires Valid() && InSync() && damage == []
      ensures UpToDate()
    {
      hide Smooth;
      forall p | screen.Has(p) && Smooth(Current(), p) && p !in stale
        ensures p in fb && fb[p] == Shown(P, sprite, Current(), Some(cursor), p)
      {
        assert !Covers(damage, p);
      }
    }

    /** The damage, simplified, or the whole screen when only an animation asks for the frame. */
    method TakeDamage() returns (dmg: seq<Rect>)
      requires Region.NonEmpty(damage) && AllIn(damage, screen) && !screen.Empty()
      modifies this`damage
      ensures damage == [] && Region.Disjoint(dmg) && AllIn(dmg, screen)
      ensures forall p :: Covers(old(damage), p) ==> Covers(dmg, p)
    {
      dmg := [screen];
      if damage != [] {
        dmg := Region.Simplify(damage, screen);
        forall p | Covers(damage, p) ensures Covers(dmg, p) { Region.WithinKeepsCover(damage, dmg, p); }
      }
      damage := [];
    }

    /** The damage of one frame, both pointer boxes included. */
    method GuardedDamage() returns (dmg: seq<Rect>)
      requires Base() && Region.NonEmpty(damage) && AllIn(damage, screen)
      modifies this`damage
      ensures damage == [] && AllIn(dmg, screen)
      ensures forall p :: Covers(old(damage), p) ==> Covers(dmg, p)
      ensures Narrow(sprite) ==> CoversAll(dmg, PointerBox(sprite, screen, cursor))
      ensures Narrow(sprite) && shownAt.Some? ==> CoversAll(dmg, PointerBox(sprite, screen, shownAt.value))
    {
      dmg := TakeDamage();
      dmg := GuardPointer(dmg);
    }

    /** The first half of present: repaint the guarded damage, pointer included. The pointer is drawn
        once and erased where it was at every pixel, smooth or not. */
    method RepaintDamage()
      requires Valid()
      modifies this`damage, this`fb, this`shownAt, this`stale
      ensures Base() && damage == [] && shownAt == Some(cursor)
      ensures stale <= old(stale) && forall p :: Covers(old(damage), p) ==> p !in stale
      ensures old(InSync()) && Narrow(sprite) ==> UpToDate()
      ensures Narrow(sprite) ==>
        forall p :: screen.Has(p) ==> p in fb && PointerOnce(P, sprite, Current(), old(shownAt), cursor, p, fb[p])
    {
      hide PointerPass, ScenePass, Shown, Smooth, Tracks, Narrow, Covers, CoversAll, PointerBox, AllIn, PointerOnce, FitsScreen;
      hide RefsListed, DistinctUids, Uids, Live, Pointed;
      ghost var fb0, dmg0, was, stale0 := fb, damage, shownAt, stale;
      var dmg := GuardedDamage();
      PaintDamage(dmg);
      if Narrow(sprite) { Repainted(Current(), was, dmg0, dmg, stale0, fb0); }
    }

    /** Paint these rectangles and remember where the pointer is shown. */
    method PaintDamage(dmg: seq<Rect>)
      requires Base()
      modifies this`fb, this`shownAt, this`stale
      ensures Base() && shownAt == Some(cursor) && fb.Keys == old(fb).Keys && stale == old(stale) - iset p: Point | Covers(dmg, p)
      ensures forall p :: p in fb ==>
        fb[p] == PointerPass(P, cursor, PointerBox(sprite, screen, cursor), dmg, p, ScenePass(P, Current(), dmg, p, old(fb)[p]))
    {
      hide PointerPass, ScenePass, PointerBox, FitsScreen, RefsListed, DistinctUids, Uids, Covers;
      ghost var fb0 := fb;
      fb := PresentRegion(P, sprite, Current(), cursor, dmg, fb);
      KeysFit(fb0, fb, screen);
      shownAt := Some(cursor);
      stale := stale - iset p: Point | Covers(dmg, p);
    }

    /** What a guarded repaint leaves. */
    lemma Repainted(v: View, was: Option<Point>, dmg0: seq<Rect>, dmg: seq<Rect>, stale0: iset<Point>, fb0: Framebuffer)
      requires v == Current() && AllIn(dmg, screen) && stale == stale0 - (iset p: Point | Covers(dmg, p))
      requires forall p :: Covers(dmg0, p) ==> Covers(dmg, p)
      requires CoversAll(dmg, PointerBox(sprite, screen, cursor))
      requires was.Some? ==> CoversAll(dmg, PointerBox(sprite, screen, was.value))
      requires FitsScreen(fb0, screen) && fb.Keys == fb0.Keys
      requires forall p :: p in fb ==>
                 fb[p] == PointerPass(P, cursor, PointerBox(sprite, screen, cursor), dmg, p, ScenePass(P, v, dmg, p, fb0[p]))
      ensures Tracks(P, sprite, v, fb0, dmg0, stale0, was) ==> UpToDate()
      ensures forall p :: screen.Has(p) ==> p in fb && PointerOnce(P, sprite, Current(), was, cursor, p, fb[p])
    {
      hide PointerPass, ScenePass, Shown, Smooth, Tracks, Covers, CoversAll, PointerBox, AllIn, PointerOnce, FitsScreen;
      PointerEverywhere(P, sprite, v, was, cursor, dmg, fb0, fb);
      if Tracks(P, sprite, v, fb0, dmg0, stale0, was) {
        RepaintIsFull(P, sprite, v, was, cursor, dmg0, dmg, stale0, fb0, fb);
      }
    }

    /** The end of present: frame statistics, the effect reduction, and the timer. */
    method Pace(slow: bool, pool: bool, live: bool)
      requires Base() && damage == [] && shownAt == Some(cursor) && (live <==> anims > 0)
      modifies this`mode, this`streak, this`steps, this`presented, this`notices, this`damage, this`armed, this`anims, this`stale
      ensures Valid() && (!live && damage == [] ==> !armed)
      ensures old(mode) <= mode && (frozen ==> mode == old(mode))
      ensures damage == [] ==> mode == old(mode) && notices == old(notices)
      ensures stale == if damage == [] then old(stale) else iset{}
      ensures damage != [] ==> forall p :: screen.Has(p) ==> Covers(damage, p)
      ensures old(mode) == MODE_PERFORMANCE ==> damage == []
    {
      hide Covers, RefsListed, DistinctUids, Uids, FitsScreen, PointerBox;
      var reduced := CountFrame(slow);
      if reduced { AnnounceReduction(pool); }
      if !live && damage == [] {
        if armed { armed := false; }
      } else {
        RequestFrame();
      }
    }

    /** The frame statistics and the reduction of the mode. */
    method CountFrame(slow: bool) returns (reduced: bool)
      modifies this`mode, this`streak, this`steps, this`presented
      ensures presented && old(mode) <= mode && (!reduced ==> mode == old(mode)) && (frozen ==> mode == old(mode))
      ensures old(mode) == MODE_PERFORMANCE ==> !reduced
    {
      reduced := false;
      if presented {
        var (next, s, r) := EffectReduction.Stepped(mode, streak, slow, frozen);
        streak, reduced := s, r;
        if reduced { mode, steps := next, steps + 1; }
      }
      presented := true;
    }

    /** The notification and the full repaint that follow a reduction. */
    method AnnounceReduction(pool: bool)
      requires Base() && damage == [] && shownAt == Some(cursor)
      modifies this`notices, this`damage, this`armed, this`anims, this`stale
      ensures Valid() && damage != [] && stale == iset{} && forall p :: screen.Has(p) ==> Covers(damage, p)
    {
      hide Covers, RefsListed, DistinctUids, Uids, FitsScreen, PointerBox, SlotFor;
      armed := true;
      Notify("Reduced effects", "the GPU was not keeping up", "speed", pool);
      Invalidate(screen);
      stale := iset{};
      assert Intersect(screen, screen) == screen;
    }
  }
}
