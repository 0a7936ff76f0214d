/** One repaint of a damage region: the painter's loops of present_region, and what they
    leave in the framebuffer. */
module Repaint {
  import opened Geometry
  import opened Wrappers
  import opened Scene

  /** The pointer sprite: its measured ink box around the hotspot and the slack around it. */
  datatype Sprite = Sprite(ink: Rect, margin: nat)

  /** The damage box of the pointer at a position, clamped to the screen. */
  function PointerBox(s: Sprite, screen: Rect, at: Point): Rect {
    Intersect(s.ink.Moved(at.x, at.y).Grown(s.margin), screen)
  }

  /** The index of the last rectangle that has p. */
  function LastHit(g: seq<Rect>, p: Point): (i: nat)
    requires Covers(g, p)
    ensures i < |g| && g[i].Has(p) && forall j :: i < j < |g| ==> !g[j].Has(p)
  {
    if g[|g| - 1].Has(p) then |g| - 1 else
      assert Covers(g[..|g| - 1], p) by {
        var i :| 0 <= i < |g| && g[i].Has(p);
        assert g[..|g| - 1][i].Has(p);
      }
      LastHit(g[..|g| - 1], p)
  }

  /** Pixel p after the scene pass: painted under the last damage rectangle that has it. */
  function ScenePass(P: Painter, v: View, g: seq<Rect>, p: Point, c: Color): Color {
    if Covers(g, p) then ClippedPixel(P, v, g[LastHit(g, p)], p) else c
  }

  lemma ScenePassStep(P: Painter, v: View, g: seq<Rect>, r: Rect, p: Point, c: Color)
    ensures ScenePass(P, v, g + [r], p, c) ==
            if r.Has(p) then ClippedPixel(P, v, r, p) else ScenePass(P, v, g, p, c)
  {
    CoversAppend(g, r, p);
    if Covers(g + [r], p) {
      var i := LastHit(g + [r], p);
      if !r.Has(p) {
        assert i < |g| && (g + [r])[i] == g[i];
        var j := LastHit(g, p);
        assert (g + [r])[j] == g[j];
      }
    }
  }

  /** The bounding box of the damaged parts of the pointer box: where the pointer is drawn. */
  function PointerArea(box: Rect, g: seq<Rect>): Rect {
    if g == [] then Rect(0, 0, 0, 0)
    else
      var hit := Intersect(box, g[|g| - 1]);
      var rest := PointerArea(box, g[..|g| - 1]);
      if hit.Empty() then rest else UnionBounds(rest, hit)
  }

  lemma PointerAreaHas(box: Rect, g: seq<Rect>, p: Point)
    requires box.Has(p) && Covers(g, p)
    ensures PointerArea(box, g).Has(p)
  {
    var n := |g| - 1;
    if g[n].Has(p) {
      MeetsAt(box, g[n], p);
      assert Intersect(box, g[n]).Has(p);
    } else {
      var i :| 0 <= i < |g| && g[i].Has(p);
      assert g[..n][i].Has(p);
      PointerAreaHas(box, g[..n], p);
    }
  }

  /** Pixel p after the pointer pass. */
  function PointerPass(P: Painter, at: Point, box: Rect, g: seq<Rect>, p: Point, c: Color): Color {
    var area := PointerArea(box, g);
    if !area.Empty() && area.Has(p) && box.Has(p) then P.pointer(at, p, c) else c
  }

  /** What the screen should show: the scene with the pointer blended over it once. */
  function Shown(P: Painter, s: Sprite, v: View, at: Option<Point>, p: Point): Color {
    match at
    case None => ScenePixel(P, v, p)
    case Some(q) =>
      if PointerBox(s, v.screen, q).Has(p) then P.pointer(q, p, ScenePixel(P, v, p)) else ScenePixel(P, v, p)
  }

  type Framebuffer = map<Point, Color>

  /** The framebuffer has exactly the pixels of the screen. */
  ghost predicate FitsScreen(fb: Framebuffer, screen: Rect) {
    forall p :: p in fb <==> screen.Has(p)
  }

  /** The scene pass for one damage rectangle: wallpaper, windows back to front, notifications. */
  method PaintClip(P: Painter, v: View, order: seq<Win>, clip: Rect, fb0: Framebuffer) returns (fb: Framebuffer)
    requires order == Painted(v.z)
    ensures fb.Keys == fb0.Keys
    ensures forall p :: p in fb ==> fb[p] == if clip.Has(p) then ClippedPixel(P, v, clip, p) else fb0[p]
  {
    var front := FrontUid(v.z);
    fb := map p | p in fb0 :: if clip.Has(p) then P.wallpaper(p) else fb0[p];
    var k := |order|;
    assert order[k..] == [];
    while k > 0
      invariant 0 <= k <= |order| && fb.Keys == fb0.Keys
      invariant forall p :: p in fb ==>
        fb[p] == (if clip.Has(p) then WindowsPixel(P, v, front, order[k..], clip, p, P.wallpaper(p)) else fb0[p])
    {
      k := k - 1;
      assert order[k..][0] == order[k] && order[k..][1..] == order[k + 1..];
      if Visible(order[k], v.curWs) {
        fb := map p | p in fb ::
          if clip.Has(p) then WindowPixel(P, v.mode, front, order[k], clip, p, fb[p]) else fb[p];
      }
    }
    assert order[0..] == order;
    var y, j := 34, 0;
    ghost var windows := fb;
    while j < |v.notices|
      invariant 0 <= j <= |v.notices| && fb.Keys == fb0.Keys
      invariant forall p :: p in fb && !clip.Has(p) ==> fb[p] == fb0[p]
      invariant forall p :: p in fb && clip.Has(p) ==>
        NoticesPixel(P, v, j, y, clip, p, fb[p]) == NoticesPixel(P, v, 0, 34, clip, p, windows[p])
    {
      var n := v.notices[j];
      if n.title != "" {
        if NoticeBox(v.screen, n, y).Meets(clip) {
          fb := map p | p in fb :: if clip.Has(p) then NoticePixel(P, v, n, y, clip, p, fb[p]) else fb[p];
        }
        y := y + 86;
      }
      j := j + 1;
    }
  }

  /** The whole repaint. At every pixel it computes the scene pass and then the pointer pass. */
  method PresentRegion(P: Painter, s: Sprite, v: View, at: Point, dmg: seq<Rect>, fb0: Framebuffer)
    returns (fb: Framebuffer)
    ensures fb.Keys == fb0.Keys
    ensures forall p :: p in fb ==>
      fb[p] == PointerPass(P, at, PointerBox(s, v.screen, at), dmg, p, ScenePass(P, v, dmg, p, fb0[p]))
  {
    var order: seq<Win>, n := [], 0;
    while n < |v.z| && n < MAX_PAINTED
      invariant 0 <= n <= |v.z| && n <= MAX_PAINTED && order == v.z[..n]
    {
      order := order + [v.z[n]];
      n := n + 1;
    }
    assert order == Painted(v.z);
    fb := fb0;
    for i := 0 to |dmg|
      invariant fb.Keys == fb0.Keys
      invariant forall p :: p in fb ==> fb[p] == ScenePass(P, v, dmg[..i], p, fb0[p])
    {
      fb := PaintClip(P, v, order, dmg[i], fb);
      assert dmg[..i + 1] == dmg[..i] + [dmg[i]];
      forall p | p in fb ensures fb[p] == ScenePass(P, v, dmg[..i + 1], p, fb0[p]) {
        ScenePassStep(P, v, dmg[..i], dmg[i], p, fb0[p]);
      }
    }
    assert dmg[..|dmg|] == dmg;
    var reach := PointerBox(s, v.screen, at);
    var area := Rect(0, 0, 0, 0);
    for i := 0 to |dmg|
      invariant area == PointerArea(reach, dmg[..i])
    {
      assert dmg[..i + 1][..i] == dmg[..i];
      var hit := Intersect(reach, dmg[i]);
      if !hit.Empty() { area := UnionBounds(area, hit); }
    }
    if !area.Empty() {
      fb := map p | p in fb :: if area.Has(p) && reach.Has(p) then P.pointer(at, p, fb[p]) else fb[p];
    }
  }

  // ------------------------------------------------------------ damage-only = full

  /** Outside the damage and the stale pixels the framebuffer already shows the scene, with the
      pointer at `at`, at every smooth pixel: it is left open where a visible window is scaled or
      spills over its frame, or a notification casts a shadow. */
  ghost predicate Tracks(P: Painter, s: Sprite, v: View, fb: Framebuffer, dmg: seq<Rect>, stale: iset<Point>, at: Option<Point>) {
    forall p :: v.screen.Has(p) && !Covers(dmg, p) && p !in stale && Smooth(v, p) ==> p in fb && fb[p] == Shown(P, s, v, at, p)
  }

  /** A damage-only repaint leaves, at every smooth pixel that is not stale, what a full repaint
      leaves: the new scene with the pointer blended once, provided the damage repaints where the
      pointer was and where it is. */
  lemma DamageOnlyIsFull(P: Painter, s: Sprite, v: View, was: Option<Point>, at: Point,
                         dmg0: seq<Rect>, dmg: seq<Rect>, stale: iset<Point>, fb: Framebuffer, p: Point)
    requires Smooth(v, p) && v.screen.Has(p) && AllIn(dmg, v.screen)
    requires Tracks(P, s, v, fb, dmg0, stale, was) && (Covers(dmg, p) || p !in stale)
    requires Covers(dmg0, p) ==> Covers(dmg, p)
    requires CoversAll(dmg, PointerBox(s, v.screen, at))
    requires was.Some? ==> CoversAll(dmg, PointerBox(s, v.screen, was.value))
    requires p in fb
    ensures PointerPass(P, at, PointerBox(s, v.screen, at), dmg, p, ScenePass(P, v, dmg, p, fb[p]))
         == Shown(P, s, v, Some(at), p)
  {
    hide Smooth;
    var box := PointerBox(s, v.screen, at);
    if Covers(dmg, p) {
      SmoothScene(P, v, dmg[LastHit(dmg, p)], p);
    }
    if box.Has(p) {
      PointerAreaHas(box, dmg, p);
    }
  }

  /** The scene at p under some clip of the screen. */
  ghost predicate SceneAt(P: Painter, v: View, p: Point, c: Color) {
    exists clip: Rect :: v.screen.Contains(clip) && clip.Has(p) && c == ClippedPixel(P, v, clip, p)
  }

  /** The pointer is blended exactly once over the scene in its box, and nothing of it is left in
      the box where it was. */
  ghost predicate PointerOnce(P: Painter, s: Sprite, v: View, was: Option<Point>, at: Point, p: Point, c: Color) {
    && (PointerBox(s, v.screen, at).Has(p) ==> exists d :: SceneAt(P, v, p, d) && c == P.pointer(at, p, d))
    && (was.Some? && PointerBox(s, v.screen, was.value).Has(p) && !PointerBox(s, v.screen, at).Has(p) ==> SceneAt(P, v, p, c))
  }

  /** That holds at every pixel, smooth or not. */
  lemma PointerDrawnOnce(P: Painter, s: Sprite, v: View, was: Option<Point>, at: Point, dmg: seq<Rect>, p: Point, c: Color)
    requires v.screen.Has(p) && AllIn(dmg, v.screen)
    requires CoversAll(dmg, PointerBox(s, v.screen, at))
    requires was.Some? ==> CoversAll(dmg, PointerBox(s, v.screen, was.value))
    ensures PointerOnce(P, s, v, was, at, p, PointerPass(P, at, PointerBox(s, v.screen, at), dmg, p, ScenePass(P, v, dmg, p, c)))
  {
    var box := PointerBox(s, v.screen, at);
    if Covers(dmg, p) {
      assert SceneAt(P, v, p, ClippedPixel(P, v, dmg[LastHit(dmg, p)], p));
    }
    if box.Has(p) {
      PointerAreaHas(box, dmg, p);
    }
  }

  /** Enlarging the damage and the stale pixels, and changing what is smooth and the scene there only
      under them, keeps Tracks: a window that stops being scaled has to be damaged once more. */
  lemma TracksStep(P: Painter, s: Sprite, v: View, v': View, fb: Framebuffer,
                   dmg: seq<Rect>, dmg': seq<Rect>, stale: iset<Point>, stale': iset<Point>, at: Option<Point>)
    requires Tracks(P, s, v, fb, dmg, stale, at) && v.screen == v'.screen && stale <= stale'
    requires forall p :: Covers(dmg, p) ==> Covers(dmg', p)
    requires forall p :: v.screen.Has(p) && !Covers(dmg', p) && p !in stale' && Smooth(v', p) ==>
               Smooth(v, p) && ScenePixel(P, v, p) == ScenePixel(P, v', p)
    ensures Tracks(P, s, v', fb, dmg', stale', at)
  {
    hide Smooth;
  }
}
