/** When a change of the window list leaves a pixel of the scene as it was. */
module Damage {
  import opened Geometry
  import opened Wrappers
  import opened Stacking
  import opened Scene

  lemma Untouched(P: Painter, v: View, front: nat, w: Win, clip: Rect, p: Point, c: Color)
    requires Fits(w) && !Reach(w).Has(p)
    ensures PaintedPixel(P, v, front, w, clip, p, c) == c
  {
    if Visible(w, v.curWs) { MissedWindow(P, v.mode, front, w, clip, p, c); }
  }

  /** The list without the windows whose address is in s. */
  function Drop(z: seq<Win>, s: set<nat>): seq<Win> {
    if z == [] then []
    else if z[0].uid in s then Drop(z[1..], s)
    else [z[0]] + Drop(z[1..], s)
  }

  /** Every window of the list with an address in s is invisible, or fits and stays away from p. */
  predicate Away(z: seq<Win>, ws: int, s: set<nat>, p: Point) {
    forall i :: 0 <= i < |z| && z[i].uid in s ==> !Visible(z[i], ws) || (Fits(z[i]) && !Reach(z[i]).Has(p))
  }

  lemma DropSame(P: Painter, v: View, front: nat, z: seq<Win>, s: set<nat>, clip: Rect, p: Point, c: Color)
    requires Away(z, v.curWs, s, p)
    ensures WindowsPixel(P, v, front, z, clip, p, c) == WindowsPixel(P, v, front, Drop(z, s), clip, p, c)
  {
    if z != [] {
      assert forall i :: 0 <= i < |z[1..]| ==> z[1..][i] == z[i + 1];
      DropSame(P, v, front, z[1..], s, clip, p, c);
      if z[0].uid in s {
        if Visible(z[0], v.curWs) {
          Untouched(P, v, front, z[0], clip, p, WindowsPixel(P, v, front, z[1..], clip, p, c));
        }
      } else {
        assert Drop(z, s)[1..] == Drop(z[1..], s);
      }
    }
  }

  /** No window of the list with address f or f' shows at p whether it is in front. */
  predicate FocusBlind(v: View, z: seq<Win>, f: nat, f': nat, p: Point) {
    forall i :: 0 <= i < |z| && (z[i].uid == f || z[i].uid == f') ==> !ShowsFocus(v, z[i], p)
  }

  lemma FrontIrrelevant(P: Painter, v: View, f: nat, f': nat, z: seq<Win>, p: Point, c: Color)
    requires FocusBlind(v, z, f, f', p)
    ensures WindowsPixel(P, v, f, z, v.screen, p, c) == WindowsPixel(P, v, f', z, v.screen, p, c)
  {
    if z != [] {
      assert forall i :: 0 <= i < |z[1..]| ==> z[1..][i] == z[i + 1];
      FrontIrrelevant(P, v, f, f', z[1..], p, c);
    }
  }

  /** Only the windows whose address is in s differ between the two views. */
  ghost predicate DiffersOnlyAt(v: View, v': View, s: set<nat>) {
    && v.screen == v'.screen && v.mode == v'.mode && v.curWs == v'.curWs && v.notices == v'.notices
    && |v.z| <= MAX_PAINTED && |v'.z| <= MAX_PAINTED
    && Drop(v.z, s) == Drop(v'.z, s)
  }

  /** A change of the front window does not show at p on the windows that stay. */
  ghost predicate FrontBlind(v: View, v': View, s: set<nat>, p: Point) {
    FrontUid(v.z) == FrontUid(v'.z) || FocusBlind(v, Drop(v.z, s), FrontUid(v.z), FrontUid(v'.z), p)
  }

  lemma ViewFields(P: Painter, v: View, v': View, front: nat, z: seq<Win>, clip: Rect, p: Point, c: Color)
    requires v.mode == v'.mode && v.curWs == v'.curWs
    ensures WindowsPixel(P, v, front, z, clip, p, c) == WindowsPixel(P, v', front, z, clip, p, c)
  {
    if z != [] { ViewFields(P, v, v', front, z[1..], clip, p, c); }
  }

  lemma NoticeFields(P: Painter, v: View, v': View, i: nat, y: int, clip: Rect, p: Point, c: Color)
    requires v.mode == v'.mode && v.screen == v'.screen && v.notices == v'.notices
    ensures NoticesPixel(P, v, i, y, clip, p, c) == NoticesPixel(P, v', i, y, clip, p, c)
    decreases |v.notices| - i
  {
    if i < |v.notices| {
      NoticeFields(P, v, v', i + 1, y, clip, p, c);
      NoticeFields(P, v, v', i + 1, y + 86, clip, p, NoticePixel(P, v, v.notices[i], y, clip, p, c));
    }
  }

  /** The scene at a pixel outside the reach of every changed window does not change. */
  lemma SceneUnchanged(P: Painter, v: View, v': View, s: set<nat>, p: Point)
    requires DiffersOnlyAt(v, v', s) && FrontBlind(v, v', s, p)
    requires Away(v.z, v.curWs, s, p) && Away(v'.z, v.curWs, s, p)
    ensures ScenePixel(P, v, p) == ScenePixel(P, v', p)
  {
    var c, clip, f, f' := P.wallpaper(p), v.screen, FrontUid(v.z), FrontUid(v'.z);
    DropSame(P, v, f, v.z, s, clip, p, c);
    DropSame(P, v', f', v'.z, s, clip, p, c);
    var rest := Drop(v.z, s);
    ViewFields(P, v, v', f', rest, clip, p, c);
    if f != f' {
      FrontIrrelevant(P, v, f, f', rest, p, c);
    }
    NoticeFields(P, v, v', 0, 34, clip, p, WindowsPixel(P, v, f, v.z, clip, p, c));
  }

  // ------------------------------------------------------------ the rearrangements

  predicate DistinctUids(z: seq<Win>) {
    forall i, j :: 0 <= i < j < |z| ==> z[i].uid != z[j].uid
  }

  lemma DropAppend(a: seq<Win>, b: seq<Win>, s: set<nat>)
    ensures Drop(a + b, s) == Drop(a, s) + Drop(b, s)
  {
    if a == [] {
      assert a + b == b;
    } else {
      assert (a + b)[0] == a[0] && (a + b)[1..] == a[1..] + b;
      DropAppend(a[1..], b, s);
      assert [a[0]] + (Drop(a[1..], s) + Drop(b, s)) == [a[0]] + Drop(a[1..], s) + Drop(b, s);
    }
  }

  lemma DropRemoved(z: seq<Win>, k: nat, s: set<nat>)
    requires k < |z| && z[k].uid in s
    ensures Drop(RemoveAt(z, k), s) == Drop(z, s)
  {
    assert z == z[..k] + ([z[k]] + z[k + 1..]);
    DropAppend(z[..k], [z[k]] + z[k + 1..], s);
    DropAppend(z[..k], z[k + 1..], s);
    assert ([z[k]] + z[k + 1..])[1..] == z[k + 1..];
  }

  lemma DropReplaced(z: seq<Win>, k: nat, w: Win, s: set<nat>)
    requires k < |z| && z[k].uid in s && w.uid == z[k].uid
    ensures Drop(z[k := w], s) == Drop(z, s)
  {
    DropRemoved(z, k, s);
    DropRemoved(z[k := w], k, s);
    assert RemoveAt(z[k := w], k) == RemoveAt(z, k);
  }

  lemma DropRaised(z: seq<Win>, k: nat, s: set<nat>)
    requires k < |z| && z[k].uid in s
    ensures Drop(ToFront(z, k), s) == Drop(z, s)
  {
    DropRemoved(z, k, s);
    assert ToFront(z, k)[1..] == RemoveAt(z, k);
  }

  /** Replacing one window by another version of itself. */
  lemma ReplacedDiffers(v: View, k: nat, w: Win)
    requires k < |v.z| <= MAX_PAINTED && w.uid == v.z[k].uid
    ensures DiffersOnlyAt(v, v.(z := v.z[k := w]), {w.uid})
  {
    DropReplaced(v.z, k, w, {w.uid});
  }

  lemma AwayAfter(z: seq<Win>, ws: int, k: nat, w: Win, p: Point)
    requires k < |z| && DistinctUids(z) && w.uid == z[k].uid && Fits(w) && Fits(z[k])
    requires !Reach(w).Has(p) && !Reach(z[k]).Has(p)
    ensures Away(z, ws, {w.uid}, p) && Away(z[k := w], ws, {w.uid}, p)
  {
  }

  /** Damage soundness of any in-place change of one window: the scene is the same outside
      the old and the new reach of that window. */
  lemma WindowChangeSound(P: Painter, v: View, k: nat, w: Win, p: Point)
    requires k < |v.z| <= MAX_PAINTED && DistinctUids(v.z) && w.uid == v.z[k].uid
    requires Fits(w) && Fits(v.z[k]) && !Reach(w).Has(p) && !Reach(v.z[k]).Has(p)
    ensures ScenePixel(P, v, p) == ScenePixel(P, v.(z := v.z[k := w]), p)
  {
    ReplacedDiffers(v, k, w);
    AwayAfter(v.z, v.curWs, k, w, p);
    SceneUnchanged(P, v, v.(z := v.z[k := w]), {w.uid}, p);
  }

  /** Raising window k and then changing how it and the former front window look. */
  lemma FocusChangeSound(P: Painter, v: View, k: nat, p: Point)
    requires 0 < k < |v.z| <= MAX_PAINTED && DistinctUids(v.z)
    requires Fits(v.z[0]) && Fits(v.z[k]) && !Reach(v.z[0]).Has(p) && !Reach(v.z[k]).Has(p)
    ensures ScenePixel(P, v, p) == ScenePixel(P, v.(z := Focused(v.z, k)), p)
  {
    var s := {v.z[0].uid, v.z[k].uid};
    FocusedDrop(v.z, k);
    FocusedAway(v.z, v.curWs, k, p);
    DropBlind(v, v.z, s, v.z[0].uid, v.z[k].uid, p);
    hide Focused, Away, FocusBlind, Drop;
    SceneUnchanged(P, v, v.(z := Focused(v.z, k)), s, p);
  }

  lemma DropTwo(x: Win, y: Win, rest: seq<Win>, s: set<nat>)
    requires x.uid in s && y.uid in s
    ensures Drop([x, y] + rest, s) == Drop(rest, s)
  {
    assert ([x, y] + rest)[1..] == [y] + rest && ([y] + rest)[1..] == rest;
  }

  lemma FocusedDrop(z: seq<Win>, k: nat)
    requires 0 < k < |z|
    ensures var r, s := Focused(z, k), {z[0].uid, z[k].uid};
            |r| == |z| && Drop(r, s) == Drop(z, s) && FrontUid(r) == z[k].uid
  {
    var s, raised := {z[0].uid, z[k].uid}, ToFront(z, k);
    DropRaised(z, k, s);
    DropTwo(raised[0], raised[1], raised[2..], s);
    assert raised == [raised[0], raised[1]] + raised[2..];
    DropTwo(raised[0].(focused := true), raised[1].(focused := false), raised[2..], s);
  }

  lemma FocusedAway(z: seq<Win>, ws: int, k: nat, p: Point)
    requires 0 < k < |z| && DistinctUids(z)
    requires Fits(z[0]) && Fits(z[k]) && !Reach(z[0]).Has(p) && !Reach(z[k]).Has(p)
    ensures var s := {z[0].uid, z[k].uid}; Away(z, ws, s, p) && Away(Focused(z, k), ws, s, p)
  {
    var r := Focused(z, k);
    assert forall i :: 2 <= i < |r| ==> r[i].uid != z[0].uid && r[i].uid != z[k].uid;
  }

  lemma DropBlind(v: View, z: seq<Win>, s: set<nat>, f: nat, f': nat, p: Point)
    requires f in s && f' in s
    ensures FocusBlind(v, Drop(z, s), f, f', p)
  {
    if z != [] { DropBlind(v, z[1..], s, f, f', p); }
  }

  /** The list after focus_win has raised window k > 0. */
  function Focused(z: seq<Win>, k: nat): (r: seq<Win>)
    requires 0 < k < |z|
  {
    var raised := ToFront(z, k);
    [raised[0].(focused := true), raised[1].(focused := false)] + raised[2..]
  }

  /** The window stays away from p. */
  predicate Misses(w: Win, ws: int, p: Point) { !Visible(w, ws) || (Fits(w) && !Reach(w).Has(p)) }

  /** A window leaves the list. A pixel outside its reach keeps its colour when the window that
      becomes the front one, if any, does not show its focus there. */
  lemma RemovalSound(P: Painter, v: View, k: nat, p: Point)
    requires k < |v.z| <= MAX_PAINTED && DistinctUids(v.z) && Misses(v.z[k], v.curWs, p)
    requires k == 0 && |v.z| > 1 ==> !ShowsFocus(v, v.z[1], p)
    ensures ScenePixel(P, v, p) == ScenePixel(P, v.(z := RemoveAt(v.z, k)), p)
  {
    var s := {v.z[k].uid};
    var z := RemoveAt(v.z, k);
    DropRemoved(v.z, k, s);
    if k == 0 { DropFocusBlind(v, v.z, s, FrontUid(v.z), FrontUid(z), p); }
    SceneUnchanged(P, v, v.(z := z), s, p);
  }

  lemma DropFocusBlind(v: View, z: seq<Win>, s: set<nat>, f: nat, f': nat, p: Point)
    requires forall i :: 0 <= i < |z| && z[i].uid !in s && (z[i].uid == f || z[i].uid == f') ==> !ShowsFocus(v, z[i], p)
    ensures FocusBlind(v, Drop(z, s), f, f', p)
  {
    if z != [] {
      assert forall i :: 0 <= i < |z[1..]| ==> z[1..][i] == z[i + 1];
      DropFocusBlind(v, z[1..], s, f, f', p);
    }
  }

  /** A new window enters in front of the list. */
  lemma ArrivalSound(P: Painter, v: View, w: Win, p: Point)
    requires |v.z| < MAX_PAINTED && DistinctUids([w] + v.z) && Misses(w, v.curWs, p)
    requires |v.z| > 0 ==> !ShowsFocus(v, v.z[0], p)
    ensures ScenePixel(P, v, p) == ScenePixel(P, v.(z := [w] + v.z), p)
  {
    var v' := v.(z := [w] + v.z);
    assert RemoveAt(v'.z, 0) == v.z && v'.(z := v.z) == v;
    RemovalSound(P, v', 0, p);
  }

  /** A new window enters behind the list. */
  lemma ArrivalBehindSound(P: Painter, v: View, w: Win, p: Point)
    requires |v.z| < MAX_PAINTED && DistinctUids(v.z + [w])
    requires !Visible(w, v.curWs) || (Fits(w) && !Reach(w).Has(p))
    ensures ScenePixel(P, v, p) == ScenePixel(P, v.(z := v.z + [w]), p)
  {
    var s := {w.uid};
    var z := v.z + [w];
    assert forall i :: 0 <= i < |v.z| ==> z[i] == v.z[i] && z[i].uid != z[|v.z|].uid;
    DropAppend(v.z, [w], s);
    assert Drop([w], s) == [];
    assert v.z == [] ==> FocusBlind(v, Drop(v.z, s), FrontUid(v.z), w.uid, p);
    SceneUnchanged(P, v, v.(z := z), s, p);
  }

  /** A window whose paint at p does not change may be replaced. */
  lemma SamePaintSound(P: Painter, v: View, k: nat, w: Win, p: Point)
    requires k < |v.z| <= MAX_PAINTED && w.uid == v.z[k].uid
    requires forall c :: PaintedPixel(P, v, FrontUid(v.z), v.z[k], v.screen, p, c)
                      == PaintedPixel(P, v, FrontUid(v.z), w, v.screen, p, c)
    ensures ScenePixel(P, v, p) == ScenePixel(P, v.(z := v.z[k := w]), p)
  {
    var v' := v.(z := v.z[k := w]);
    var c := P.wallpaper(p);
    SamePaint(P, v, FrontUid(v.z), v.z, k, w, p, c);
    ViewFields(P, v, v', FrontUid(v.z), v'.z, v.screen, p, c);
    NoticeFields(P, v, v', 0, 34, v.screen, p, WindowsPixel(P, v, FrontUid(v.z), v.z, v.screen, p, c));
  }

  lemma SamePaint(P: Painter, v: View, front: nat, z: seq<Win>, k: nat, w: Win, p: Point, c: Color)
    requires k < |z|
    requires forall c :: PaintedPixel(P, v, front, z[k], v.screen, p, c) == PaintedPixel(P, v, front, w, v.screen, p, c)
    ensures WindowsPixel(P, v, front, z, v.screen, p, c) == WindowsPixel(P, v, front, z[k := w], v.screen, p, c)
  {
    if k > 0 {
      SamePaint(P, v, front, z[1..], k - 1, w, p, c);
      assert z[k := w][1..] == z[1..][k - 1 := w];
    } else {
      assert z[k := w][1..] == z[1..];
    }
  }

  // ------------------------------------------------------------ notifications

  /** The area notify and anim_tick invalidate. */
  function NoticeArea(screen: Rect): Rect { Rect(screen.w - 400, 20, 420, 400) }

  /** A change of the notifications that leaves the slots at p alone leaves its colour alone. */
  lemma SameSlotsSound(P: Painter, v: View, n: seq<Notice>, p: Point)
    requires Slots(v, p) == Slots(v.(notices := n), p)
    ensures ScenePixel(P, v, p) == ScenePixel(P, v.(notices := n), p)
  {
    var v' := v.(notices := n);
    var c, f, z := P.wallpaper(p), FrontUid(v.z), Painted(v.z);
    ViewFields(P, v, v', f, z, v.screen, p, c);
    NoticesAreSlots(P, v, 0, 34, p, WindowsPixel(P, v, f, z, v.screen, p, c));
    NoticesAreSlots(P, v', 0, 34, p, WindowsPixel(P, v', f, z, v.screen, p, c));
  }

  /** The windows have no part in the slots. */
  lemma SlotsFields(v: View, v': View, i: nat, y: int, p: Point)
    requires v.screen == v'.screen && v.mode == v'.mode && v.notices == v'.notices
    ensures SlotsAt(v, i, y, p) == SlotsAt(v', i, y, p)
    decreases |v.notices| - i
  {
    if i < |v.notices| { SlotsFields(v, v', i + 1, if v.notices[i].title == "" then y else y + 86, p); }
  }

  /** A slot whose box has p lies below the slots before it. */
  lemma {:induction false} SlotsBelow(v: View, i: nat, y: int, p: Point)
    ensures forall j :: 0 <= j < |SlotsAt(v, i, y, p)| ==> y <= SlotsAt(v, i, y, p)[j].box.y <= y + 86 * (|v.notices| - i - 1)
    ensures forall j :: 0 <= j < |SlotsAt(v, i, y, p)| ==>
      SlotsAt(v, i, y, p)[j].box.h == 76 && SlotsAt(v, i, y, p)[j].box.x >= v.screen.w - 352
    decreases |v.notices| - i
  {
    if i < |v.notices| {
      SlotsBelow(v, i + 1, if v.notices[i].title == "" then y else y + 86, p);
    }
  }

  /** At most one box has p. */
  lemma {:induction false} OneInside(v: View, i: nat, y: int, p: Point)
    requires AllInside(SlotsAt(v, i, y, p), p)
    ensures |SlotsAt(v, i, y, p)| <= 1
    decreases |v.notices| - i
  {
    if i < |v.notices| {
      var slots, rest := SlotsAt(v, i, y, p), SlotsAt(v, i + 1, if v.notices[i].title == "" then y else y + 86, p);
      assert forall j :: 0 <= j < |rest| ==> rest[j] == slots[|slots| - |rest| + j];
      OneInside(v, i + 1, if v.notices[i].title == "" then y else y + 86, p);
      SlotsBelow(v, i + 1, if v.notices[i].title == "" then y else y + 86, p);
      assert |slots| > |rest| ==> slots[0].box.Has(p) && slots[0].box.y == y && slots[0].box.h == 76;
      assert rest != [] ==> rest[0].box.Has(p);
    }
  }

  /** In PERFORMANCE mode a notification paints inside its box. */
  lemma {:induction false} PlainSlotsInside(v: View, i: nat, y: int, p: Point)
    requires v.mode == MODE_PERFORMANCE
    ensures AllInside(SlotsAt(v, i, y, p), p)
    decreases |v.notices| - i
  {
    if i < |v.notices| { PlainSlotsInside(v, i + 1, if v.notices[i].title == "" then y else y + 86, p); }
  }

  lemma SmoothInside(v: View, p: Point)
    requires NoticesSmooth(v, p)
    ensures AllInside(Slots(v, p), p)
  {
    if v.mode == MODE_PERFORMANCE { PlainSlotsInside(v, 0, 34, p); }
  }

  /** Every box lies inside the area. */
  lemma InsideArea(v: View, p: Point)
    requires AllInside(Slots(v, p), p) && |v.notices| <= MAX_NOTIFS && p.x < v.screen.w && Slots(v, p) != []
    ensures NoticeArea(v.screen).Has(p)
  {
    SlotsBelow(v, 0, 34, p);
    assert Slots(v, p)[0].box.Has(p);
  }

  /** A pixel of the screen outside that area that is smooth before and after keeps its colour. */
  lemma NoticeChangeSound(P: Painter, v: View, n: seq<Notice>, p: Point)
    requires |v.notices| <= MAX_NOTIFS && |n| <= MAX_NOTIFS && p.x < v.screen.w && !NoticeArea(v.screen).Has(p)
    requires NoticesSmooth(v, p) && NoticesSmooth(v.(notices := n), p)
    ensures ScenePixel(P, v, p) == ScenePixel(P, v.(notices := n), p)
  {
    SmoothInside(v, p);
    SmoothInside(v.(notices := n), p);
    if Slots(v, p) != [] { InsideArea(v, p); }
    if Slots(v.(notices := n), p) != [] { InsideArea(v.(notices := n), p); }
    SameSlotsSound(P, v, n, p);
  }

  /** A painter that shows nothing but notifications, and one of them differently. */
  function SlotPainter(s: Slot): Painter {
    Painter(p => 0, (m, o, c) => c, (m, r, o, p, c) => c, (r, o, p, c) => c,
            (t, r, focused, o, p, c) => c, (r, o, p, c) => c,
            (t, b, i, r, shadow, p, c) => if Slot(t, b, i, r) == s then 2 * c + 1 else c + 2, (h, p, c) => c)
  }

  lemma BlankWindows(s: Slot, v: View, front: nat, z: seq<Win>, p: Point, c: Color)
    ensures WindowsPixel(SlotPainter(s), v, front, z, v.screen, p, c) == c
  {
    if z != [] { BlankWindows(s, v, front, z[1..], p, c); }
  }

  lemma {:induction false} SlotsGrow(s: Slot, mode: nat, slots: seq<Slot>, p: Point, c: Color)
    requires c >= 0
    ensures SlotsPixel(SlotPainter(s), mode, slots, p, c) >= if slots == [] then c else c + 1
  {
    if slots != [] { SlotsGrow(s, mode, slots[1..], p, if slots[0] == s then 2 * c + 1 else c + 2); }
  }

  /** From 0 that painter comes to 1 on that one slot alone, and stays at 0 on none. */
  lemma SlotsTell(s: Slot, mode: nat, slots: seq<Slot>, p: Point)
    ensures SlotsPixel(SlotPainter(s), mode, slots, p, 0) == 1 <==> slots == [s]
    ensures SlotsPixel(SlotPainter(s), mode, slots, p, 0) == 0 <==> slots == []
  {
    if slots != [] {
      var rest, c := slots[1..], if slots[0] == s then 1 else 2;
      SlotsGrow(s, mode, rest, p, c);
      assert SlotsPixel(SlotPainter(s), mode, slots, p, 0) == SlotsPixel(SlotPainter(s), mode, rest, p, c);
      if rest == [] { assert slots == [slots[0]]; }
    }
  }

  lemma SlotScene(s: Slot, v: View, p: Point)
    ensures ScenePixel(SlotPainter(s), v, p) == SlotsPixel(SlotPainter(s), v.mode, Slots(v, p), p, 0)
  {
    BlankWindows(s, v, FrontUid(v.z), Painted(v.z), p, 0);
    NoticesAreSlots(SlotPainter(s), v, 0, 34, p, 0);
  }

  /** At a pixel on which no shadow falls afterwards, a change of the notifications keeps the colour
      for all painters exactly if it leaves the slots there alone. */
  lemma NoticesExactly(v: View, n: seq<Notice>, p: Point)
    requires NoticesSmooth(v.(notices := n), p)
    ensures (forall P :: ScenePixel(P, v, p) == ScenePixel(P, v.(notices := n), p)) <==> Slots(v, p) == Slots(v.(notices := n), p)
  {
    var v' := v.(notices := n);
    if Slots(v, p) == Slots(v', p) {
      forall P ensures ScenePixel(P, v, p) == ScenePixel(P, v', p) { SameSlotsSound(P, v, n, p); }
    } else {
      SmoothInside(v', p);
      OneInside(v', 0, 34, p);
      var s := if Slots(v', p) == [] then Slot("", "", "", v.screen) else Slots(v', p)[0];
      assert Slots(v', p) == [] || Slots(v', p) == [s];
      SlotScene(s, v, p);
      SlotScene(s, v', p);
      SlotsTell(s, v.mode, Slots(v, p), p);
      SlotsTell(s, v.mode, Slots(v', p), p);
      assert ScenePixel(SlotPainter(s), v, p) != ScenePixel(SlotPainter(s), v', p);
    }
  }

  // ------------------------------------------------------------ where the damage falls short

  /** A painter that shows nothing but focus: a focused decoration adds 1. */
  function FocusPainter(): Painter {
    Painter(p => 0, (s, o, c) => c, (m, r, o, p, c) => c, (r, o, p, c) => c,
            (t, r, focused, o, p, c) => if focused then c + 1 else c,
            (r, o, p, c) => c, (t, b, i, r, s, p, c) => c, (h, p, c) => c)
  }

  lemma FocusNotices(v: View, i: nat, y: int, p: Point, c: Color)
    ensures NoticesPixel(FocusPainter(), v, i, y, v.screen, p, c) == c
    decreases |v.notices| - i
  {
    if i < |v.notices| {
      FocusNotices(v, i + 1, y, p, c);
      FocusNotices(v, i + 1, y + 86, p, c);
    }
  }

  lemma FocusWindow(v: View, front: nat, w: Win, p: Point, c: Color)
    requires v.screen.Has(p)
    ensures PaintedPixel(FocusPainter(), v, front, w, v.screen, p, c) == if w.uid == front && ShowsFocus(v, w, p) then c + 1 else c
  {
  }

  /** Only the front window's decoration shows. */
  lemma FocusWindows(v: View, front: nat, z: seq<Win>, p: Point, c: Color)
    requires v.screen.Has(p) && forall i :: 0 <= i < |z| ==> z[i].uid != front || !ShowsFocus(v, z[i], p)
    ensures WindowsPixel(FocusPainter(), v, front, z, v.screen, p, c) == c
  {
    if z != [] {
      assert forall i :: 0 <= i < |z[1..]| ==> z[1..][i] == z[i + 1];
      FocusWindows(v, front, z[1..], p, c);
      FocusWindow(v, front, z[0], p, c);
    }
  }

  /** The scene of that painter is 1 where the front window shows its focus, and 0 elsewhere. */
  lemma FocusScene(v: View, p: Point)
    requires v.z != [] && |v.z| <= MAX_PAINTED && DistinctUids(v.z) && v.screen.Has(p)
    ensures ScenePixel(FocusPainter(), v, p) == if ShowsFocus(v, v.z[0], p) then 1 else 0
  {
    assert forall i :: 0 <= i < |v.z[1..]| ==> v.z[1..][i] == v.z[i + 1];
    FocusWindows(v, v.z[0].uid, v.z[1..], p, 0);
    FocusWindow(v, v.z[0].uid, v.z[0], p, 0);
    FocusNotices(v, 0, 34, p, WindowsPixel(FocusPainter(), v, FrontUid(v.z), v.z, v.screen, p, 0));
  }

  /** No pixel that w misses shows the focus of x. */
  ghost predicate FocusHidden(v: View, w: Win, x: Win) {
    forall p :: v.screen.Has(p) && Misses(w, v.curWs, p) ==> !ShowsFocus(v, x, p)
  }

  /** Every pixel of the screen that w misses has the same colour in both scenes, whatever the painter. */
  ghost predicate SameOutside(v: View, v': View, w: Win) {
    forall P, p :: v.screen.Has(p) && Misses(w, v.curWs, p) ==> ScenePixel(P, v, p) == ScenePixel(P, v', p)
  }

  /** Damaging the front window when it leaves is enough, for all painters, exactly if the next
      window shows its focus at no pixel outside that damage. */
  lemma RemovalExactly(v: View)
    requires 2 <= |v.z| <= MAX_PAINTED && DistinctUids(v.z)
    ensures SameOutside(v, v.(z := RemoveAt(v.z, 0)), v.z[0]) <==> FocusHidden(v, v.z[0], v.z[1])
  {
    var v' := v.(z := RemoveAt(v.z, 0));
    if FocusHidden(v, v.z[0], v.z[1]) {
      forall P, p | v.screen.Has(p) && Misses(v.z[0], v.curWs, p) ensures ScenePixel(P, v, p) == ScenePixel(P, v', p) {
        RemovalSound(P, v, 0, p);
      }
    } else {
      var p :| v.screen.Has(p) && Misses(v.z[0], v.curWs, p) && ShowsFocus(v, v.z[1], p);
      assert !ShowsFocus(v, v.z[0], p);
      FocusScene(v, p);
      FocusScene(v', p);
      assert ScenePixel(FocusPainter(), v, p) != ScenePixel(FocusPainter(), v', p);
    }
  }

  /** And a window that enters in front needs no more damage than its own exactly if the former
      front window shows its focus at no pixel outside that. */
  lemma ArrivalExactly(v: View, w: Win)
    requires 1 <= |v.z| < MAX_PAINTED && DistinctUids([w] + v.z)
    ensures SameOutside(v, v.(z := [w] + v.z), w) <==> FocusHidden(v, w, v.z[0])
  {
    var v' := v.(z := [w] + v.z);
    assert RemoveAt(v'.z, 0) == v.z && v'.(z := v.z) == v;
    RemovalExactly(v');
    assert forall p :: ShowsFocus(v', v.z[0], p) <==> ShowsFocus(v, v.z[0], p);
  }

  function TitledWindow(uid: nat, cur: Rect): Win {
    Win(uid, uid, None, "", false, false, false, false, cur, cur, 0,
        true, false, false, false, false, false, None, 1.0, 1.0, None)
  }

  /** Two far-apart titled windows: the title bar of the second changes outside the damaged box,
      both when the first goes away and when it comes. */
  lemma RemovedFrontLeavesStaleTitle(a: Rect, b: Rect, p: Point, screen: Rect)
    requires TitleBar(TitledWindow(2, b)).Has(p) && screen.Has(p)
    requires a.w >= 32 && a.h >= 0 && b.h >= 0 && !Reach(TitledWindow(1, a)).Has(p)
    ensures var v := View(screen, MODE_PERFORMANCE, 0, [TitledWindow(1, a), TitledWindow(2, b)], []);
            && !SameOutside(v, v.(z := RemoveAt(v.z, 0)), v.z[0])
            && !SameOutside(v.(z := [v.z[1]]), v.(z := [v.z[0]] + [v.z[1]]), v.z[0])
  {
    var wa, wb := TitledWindow(1, a), TitledWindow(2, b);
    var v := View(screen, MODE_PERFORMANCE, 0, [wa, wb], []);
    assert Frame(wb).Has(p);
    MeetsAt(Frame(wb), screen, p);
    assert Op(wb) == 255;
    assert ShowsFocus(v, wb, p) && Misses(wa, 0, p);
    RemovalExactly(v);
    assert [wa] + [wb] == [wa, wb];
    assert ShowsFocus(v.(z := [wb]), wb, p);
    ArrivalExactly(v.(z := [wb]), wa);
  }
}
