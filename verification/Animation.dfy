/** What one animation tick of compositor/comp.c does to windows and notifications, and which of its
    changes its own damage covers. */
module Animation {
  import opened Geometry
  import opened Wrappers
  import opened Stacking
  import opened Scene
  import opened Damage

  const NO_NOTICE := Notice("", "", "", 0, false, false)

  // ------------------------------------------------------------ windows

  /** What the animation engine reports for one window: the fade value, whether the fade still
      runs, and the same for the geometry animation, which ends at its own rectangle. */
  datatype WinTick = WinTick(value: real, fadeRuns: bool, rect: Rect, glideRuns: bool)

  predicate Released(w: Win, t: WinTick) { w.fading && w.closing && !t.fadeRuns }

  /** The opacity and scale step of anim_tick for a window that stays. */
  function Faded(w: Win, t: WinTick): Win {
    if !w.fading then w else
      var opacity := if t.fadeRuns then t.value else if w.minimized then 0.0 else 1.0;
      var scale := if !t.fadeRuns then 1.0 else if w.closing then w.scale else 0.94 + 0.06 * t.value;
      w.(opacity := opacity, scale := scale, fading := t.fadeRuns)
  }

  /** While a fade runs the window has the opacity it reports; unless it closes, its scale rises with it
      from 0.94 to 1. */
  lemma FadeScales(w: Win, t: WinTick)
    requires w.fading && t.fadeRuns
    ensures var f := Faded(w, t);
            f.opacity == t.value && f.fading && if w.closing then f.scale == w.scale else f.scale - 0.94 == (1.0 - 0.94) * t.value
  {
  }

  /** The geometry animation reports r. */
  function Shifted(w: Win, r: Rect): Win { if r != w.cur then w.(cur := r, tgt := r) else w }

  /** The geometry animation has ended. */
  function Halted(w: Win): Win { w.(cur := w.tgt, glide := None) }

  /** The geometry step follows. */
  function Glided(w: Win, t: WinTick): Win {
    if w.glide.None? then w
    else if t.glideRuns then Shifted(w, t.rect)
    else Halted(Shifted(w, w.glide.value))
  }

  /** Each side of the target is where the window is or where its animation ends. */
  predicate Homed(w: Win) {
    w.glide.Some? ==>
      var g := w.glide.value;
      && (w.tgt.x == w.cur.x || w.tgt.x == g.x) && (w.tgt.y == w.cur.y || w.tgt.y == g.y)
      && (w.tgt.w == w.cur.w || w.tgt.w == g.w) && (w.tgt.h == w.cur.h || w.tgt.h == g.h)
  }

  /** The two assignments of the geometry step, with what their damage needs. */
  lemma GlideParts(w: Win, t: WinTick)
    requires w.glide.Some? && Fits(w) && Fits(Glided(w, t)) && Lands(w, t)
    ensures var m := Shifted(w, if t.glideRuns then t.rect else w.glide.value);
            Fits(m) && (!t.glideRuns ==> Frame(Halted(m)) == Frame(m) && Fits(Halted(m)))
  {
  }

  predicate AllHomed(z: seq<Win>) { forall i :: 0 <= i < |z| ==> Homed(z[i]) }

  /** The last geometry step, which only damages where it ends, does not jump. */
  predicate Lands(w: Win, t: WinTick) {
    w.glide.Some? && !t.glideRuns && w.glide.value == w.cur ==> w.tgt == w.cur
  }

  lemma HomedThere(w: Win)
    requires w.glide.None? || w.tgt == w.cur
    ensures Homed(w)
  {
  }

  lemma ShiftedHomed(w: Win, r: Rect)
    requires Homed(w)
    ensures Homed(Shifted(w, r))
  {
    if r != w.cur {
      HomedThere(Shifted(w, r));
    } else {
      assert Shifted(w, r) == w;
    }
  }

  lemma HomedLands(w: Win, t: WinTick)
    requires Homed(w)
    ensures Lands(w, t)
  {
  }

  lemma GlidedHomed(w: Win, t: WinTick)
    requires Homed(w)
    ensures Homed(Glided(w, t))
  {
    if w.glide.Some? {
      if t.glideRuns {
        ShiftedHomed(w, t.rect);
      } else {
        HomedThere(Halted(Shifted(w, w.glide.value)));
      }
    }
  }

  lemma GlideArrives(w: Win, t: WinTick)
    requires Homed(w) && w.glide.Some? && !t.glideRuns
    ensures Glided(w, t).cur == w.glide.value
  {
  }

  /** A homed window ends its glide exactly where the animation ends, without a jump, and stays homed. */
  lemma GlideLands(w: Win, t: WinTick)
    requires Homed(w)
    ensures Lands(w, t) && Homed(Glided(w, t)) && (w.glide.Some? && !t.glideRuns ==> Glided(w, t).cur == w.glide.value)
  {
    hide Homed, Glided, Lands;
    HomedLands(w, t);
    GlidedHomed(w, t);
    if w.glide.Some? && !t.glideRuns { GlideArrives(w, t); }
  }

  /** A tick whose damage covers what happens to window w. */
  predicate Calm(w: Win, t: WinTick) {
    Fits(w) && Lands(w, t) && (!Released(w, t) ==> Fits(Faded(w, t)) && Fits(Glided(Faded(w, t), t)))
  }

  predicate AllCalm(z: seq<Win>, env: nat -> WinTick) {
    forall k :: 0 <= k < |z| ==> Calm(z[k], env(z[k].uid))
  }

  /** The windows after a tick. */
  function Ticked(z: seq<Win>, env: nat -> WinTick): seq<Win> {
    if z == [] then []
    else if Released(z[0], env(z[0].uid)) then Ticked(z[1..], env)
    else [Glided(Faded(z[0], env(z[0].uid)), env(z[0].uid))] + Ticked(z[1..], env)
  }

  /** If the windows fit before and after, the damage of their steps suffices. */
  lemma {:induction false} TickedCalm(z: seq<Win>, env: nat -> WinTick)
    requires AllHomed(z) && forall i :: 0 <= i < |z| ==> Fits(z[i])
    requires forall i :: 0 <= i < |Ticked(z, env)| ==> Fits(Ticked(z, env)[i])
    ensures AllCalm(z, env)
  {
    if z != [] {
      var r, rest := Ticked(z, env), Ticked(z[1..], env);
      assert forall i :: 0 <= i < |z[1..]| ==> z[1..][i] == z[i + 1];
      assert forall i :: 0 <= i < |rest| ==> rest[i] == r[|r| - |rest| + i];
      TickedCalm(z[1..], env);
      HeadCalm(z, env);
      hide Calm, Homed, Fits;
      forall k | 0 <= k < |z| ensures Calm(z[k], env(z[k].uid)) { assert k > 0 ==> z[k] == z[1..][k - 1]; }
    }
  }

  lemma HeadCalm(z: seq<Win>, env: nat -> WinTick)
    requires z != [] && Homed(z[0]) && Fits(z[0])
    requires Ticked(z, env) != [] ==> Fits(Ticked(z, env)[0])
    ensures Calm(z[0], env(z[0].uid))
  {
    var w, t := z[0], env(z[0].uid);
    GlideLands(w, t);
    if !Released(w, t) {
      assert Ticked(z, env)[0] == Glided(Faded(w, t), t);
      hide Ticked;
      CalmFirst(w, t);
    }
  }

  lemma FadedStays(w: Win, t: WinTick)
    ensures var f := Faded(w, t);
            f.borderless == w.borderless && f.cur == w.cur && f.tgt == w.tgt && f.glide == w.glide
  {
  }

  lemma ShiftedScale(w: Win, r: Rect)
    ensures Shifted(w, r).scale == w.scale && Halted(w).scale == w.scale
  {
  }

  lemma GlidedScale(w: Win, t: WinTick)
    ensures Glided(w, t).scale == w.scale
  {
    hide Shifted, Halted;
    ShiftedScale(w, t.rect);
    if w.glide.Some? {
      ShiftedScale(w, w.glide.value);
      ShiftedScale(Shifted(w, w.glide.value), t.rect);
    }
  }

  lemma CalmFirst(w: Win, t: WinTick)
    requires Fits(w) && Fits(Glided(Faded(w, t), t))
    ensures Fits(Faded(w, t))
  {
    hide Faded, Glided;
    FadedStays(w, t);
    GlidedScale(Faded(w, t), t);
  }

  lemma FadedHomed(w: Win, t: WinTick)
    requires Homed(w)
    ensures Homed(Faded(w, t))
  {
    hide Faded;
    FadedStays(w, t);
  }

  lemma {:induction false} TickedHomed(z: seq<Win>, env: nat -> WinTick)
    requires AllHomed(z)
    ensures AllHomed(Ticked(z, env))
  {
    if z != [] {
      hide Homed;
      assert forall i :: 0 <= i < |z[1..]| ==> z[1..][i] == z[i + 1];
      TickedHomed(z[1..], env);
      FadedHomed(z[0], env(z[0].uid));
      GlideLands(Faded(z[0], env(z[0].uid)), env(z[0].uid));
      hide Faded, Glided, Released;
    }
  }

  /** The back pointer after win_release of window k: the back window leaves it to the next one,
      and the last of the list leaves none. */
  function ReleasedBack(z: seq<Win>, k: nat, back: Option<nat>): Option<nat>
    requires k < |z|
  {
    if back != Some(z[k].uid) then back
    else if k + 1 < |z| then Some(z[k + 1].uid)
    else None
  }

  /** The back pointer after the releases of a tick. */
  function TickedBack(z: seq<Win>, env: nat -> WinTick, back: Option<nat>): Option<nat> {
    if z == [] then back
    else TickedBack(z[1..], env, if Released(z[0], env(z[0].uid)) then ReleasedBack(z, 0, back) else back)
  }

  /** A reference to window u when that window is released. */
  function Cleared(r: Option<nat>, u: Option<nat>): Option<nat> { if r == u then None else r }

  /** A reference after the releases of a tick. */
  function TickedRef(z: seq<Win>, env: nat -> WinTick, r: Option<nat>): Option<nat> {
    if z == [] then r
    else TickedRef(z[1..], env, if Released(z[0], env(z[0].uid)) then Cleared(r, Some(z[0].uid)) else r)
  }

  /** It is lost exactly if its window is released. */
  lemma {:induction false} TickedRefMeans(z: seq<Win>, env: nat -> WinTick, r: Option<nat>)
    ensures TickedRef(z, env, r) ==
      if r.Some? && exists i :: 0 <= i < |z| && z[i].uid == r.value && Released(z[i], env(z[i].uid)) then None else r
  {
    if z != [] {
      var next := if Released(z[0], env(z[0].uid)) then Cleared(r, Some(z[0].uid)) else r;
      TickedRefMeans(z[1..], env, next);
      hide Released;
      assert forall i :: 0 <= i < |z[1..]| ==> z[1..][i] == z[i + 1];
      if i :| 0 <= i < |z| && r.Some? && z[i].uid == r.value && Released(z[i], env(z[i].uid)) {
        assert i > 0 ==> z[1..][i - 1] == z[i];
      }
    }
  }

  /** Where window w would look different with the focus: its decoration. */
  ghost function Titles(v: View, w: Win): iset<Point> { iset p: Point | ShowsFocus(v, w, p) }

  /** Where a window that becomes the front one by the releases of a tick shows its focus. */
  ghost function TickTitles(v: View, env: nat -> WinTick): iset<Point> { TitlesTo(v, env, |v.z|) }

  /** The same for the windows up to n. */
  ghost function TitlesTo(v: View, env: nat -> WinTick, n: nat): iset<Point> { iset p: Point | SomeTitle(v, env, n, p) }

  ghost predicate SomeTitle(v: View, env: nat -> WinTick, n: nat, p: Point) {
    exists i :: 0 < i <= n && i < |v.z| && TitleComes(v, env, i, p)
  }

  /** All windows in front of window i are released, and it shows its focus at p. */
  predicate TitleComes(v: View, env: nat -> WinTick, i: nat, p: Point)
    requires i < |v.z|
  {
    AllReleased(v.z, env, i) && ShowsFocus(v, v.z[i], p)
  }

  predicate AllReleased(z: seq<Win>, env: nat -> WinTick, n: nat)
    requires n <= |z|
  {
    forall l :: 0 <= l < n ==> Released(z[l], env(z[l].uid))
  }

  // ------------------------------------------------------------ notifications

  /** What the engine reports for a notification: its offset, whether its two animations run,
      whether it has been shown long enough, and whether a closing animation could be started. */
  datatype NoticeTick = NoticeTick(off: nat, inRuns: bool, outRuns: bool, expired: bool, pool: bool)

  /** A notification slot after a tick. */
  function NoticeAfter(n: Notice, t: NoticeTick): Notice {
    if n.title == "" then n
    else
      var m := n.(off := t.off);
      if n.leaving && !t.outRuns then NO_NOTICE
      else if !n.dying && t.expired then m.(dying := true, leaving := t.pool)
      else m
  }

  function NoticesAfter(n: seq<Notice>, ticks: seq<NoticeTick>): (r: seq<Notice>)
    requires |n| == |ticks|
    ensures |r| == |n|
  {
    seq(|n|, i requires 0 <= i < |n| => NoticeAfter(n[i], ticks[i]))
  }

  /** A slot is freed exactly when its closing animation has ended. */
  lemma NoticeFreedExactly(n: Notice, t: NoticeTick)
    requires n.title != ""
    ensures NoticeAfter(n, t).title == "" <==> n.leaving && !t.outRuns
    ensures NoticeAfter(n, t).title != "" ==>
      var m := NoticeAfter(n, t);
      && m.title == n.title && m.body == n.body && m.icon == n.icon && m.off == t.off
      && (m.dying <==> n.dying || t.expired) && (m.leaving <==> if !n.dying && t.expired then t.pool else n.leaving)
  {
  }

  /** One whose closing animation could not be started when it expired is never freed by a tick. */
  lemma {:induction false} NoticeStays(n: Notice, ts: seq<NoticeTick>)
    requires n.title != "" && n.dying && !n.leaving
    ensures var m := NoticeAfterAll(n, ts); m.title == n.title && m.dying && !m.leaving
  {
    if ts != [] { NoticeStays(n, ts[..|ts| - 1]); }
  }

  function NoticeAfterAll(n: Notice, ts: seq<NoticeTick>): Notice {
    if ts == [] then n else NoticeAfter(NoticeAfterAll(n, ts[..|ts| - 1]), ts[|ts| - 1])
  }

  /** The slot starts a closing animation. */
  predicate Departs(n: Notice, t: NoticeTick) {
    n.title != "" && !(n.leaving && !t.outRuns) && !n.dying && t.expired && t.pool
  }

  /** How many of the first n slots do. */
  function Departures(notices: seq<Notice>, ticks: seq<NoticeTick>, n: nat): nat
    requires n <= |notices| == |ticks|
  {
    if n == 0 then 0 else Departures(notices, ticks, n - 1) + if Departs(notices[n - 1], ticks[n - 1]) then 1 else 0
  }

  /** The tick damages the notification area for this slot. */
  predicate NoticeDamaged(n: Notice, t: NoticeTick) {
    n.title != "" && (t.inRuns || n.leaving)
  }

  predicate AnyDamaged(notices: seq<Notice>, ticks: seq<NoticeTick>)
    requires |notices| == |ticks|
  {
    exists i :: 0 <= i < |notices| && NoticeDamaged(notices[i], ticks[i])
  }

  /** The pixels at which other slots paint after a change of the notifications, those in the
      invalidated area left out if it was damaged. */
  ghost function NoticeMarks(v: View, n: seq<Notice>, damaged: bool): iset<Point> {
    iset p: Point | Slots(v, p) != Slots(v.(notices := n), p) && !(damaged && NoticeArea(v.screen).Has(p))
  }

  /** A pixel that would be wrong if it changed: smooth after the tick and not in its damage. */
  ghost predicate Owed(v: View, ticks: seq<NoticeTick>, p: Point)
    requires |v.notices| == |ticks|
  {
    && v.screen.Has(p) && Smooth(v.(notices := NoticesAfter(v.notices, ticks)), p)
    && !(AnyDamaged(v.notices, ticks) && NoticeArea(v.screen).Has(p))
  }

  /** The notification damage of a tick covers every smooth pixel it changes, for all painters, exactly
      if at every smooth pixel outside it the same slots paint before and after. */
  lemma NoticeTickExactly(v: View, ticks: seq<NoticeTick>)
    requires |v.notices| == |ticks|
    ensures var n := NoticesAfter(v.notices, ticks);
            (forall P, p :: Owed(v, ticks, p) ==> ScenePixel(P, v, p) == ScenePixel(P, v.(notices := n), p)) <==>
            (forall p :: Owed(v, ticks, p) ==> p !in NoticeMarks(v, n, AnyDamaged(v.notices, ticks)))
  {
    var n := NoticesAfter(v.notices, ticks);
    forall p | Owed(v, ticks, p)
      ensures (forall P :: ScenePixel(P, v, p) == ScenePixel(P, v.(notices := n), p)) <==> Slots(v, p) == Slots(v.(notices := n), p)
    {
      NoticesExactly(v, n, p);
    }
  }

  // ------------------------------------------------------------ slides without damage

  /** Where the first slot from i on is painted, y pixels down, at an offset. */
  function SlideBox(v: View, y: int, off: nat): Rect { Rect(v.screen.w - 352 + off, y, 340, 76) }

  /** How far down slot j is painted when slot i is at y. */
  function Down(n: seq<Notice>, i: nat, y: int, j: nat): int
    requires i <= j < |n|
    decreases j - i
  {
    if i == j then y else Down(n, i + 1, if n[i].title == "" then y else y + 86, j)
  }

  /** Used slot j moves onto or off p. */
  predicate Slips(v: View, ticks: seq<NoticeTick>, i: nat, y: int, j: nat, p: Point)
    requires i <= j < |v.notices| == |ticks|
  {
    var n, t, d := v.notices[j], ticks[j], Down(v.notices, i, y, j);
    n.title != "" && t.off != n.off && (SlideBox(v, d, n.off).Has(p) || SlideBox(v, d, t.off).Has(p))
  }

  /** In PERFORMANCE mode an undamaged tick changes the slots at a pixel of the screen exactly if some
      slot moves onto or off it. */
  lemma {:induction false} SlipsExactly(v: View, ticks: seq<NoticeTick>, i: nat, y: int, p: Point)
    requires |v.notices| == |ticks| && v.mode == MODE_PERFORMANCE && v.screen.Has(p) && !AnyDamaged(v.notices, ticks)
    ensures var v' := v.(notices := NoticesAfter(v.notices, ticks));
            SlotsAt(v, i, y, p) != SlotsAt(v', i, y, p) <==> exists j :: i <= j < |v.notices| && Slips(v, ticks, i, y, j, p)
    decreases |v.notices| - i
  {
    var v' := v.(notices := NoticesAfter(v.notices, ticks));
    if i < |v.notices| {
      var n, n' := v.notices[i], v'.notices[i];
      var next := if n.title == "" then y else y + 86;
      assert !NoticeDamaged(n, ticks[i]);
      assert n'.title == n.title && n'.body == n.body && n'.icon == n.icon && (n.title != "" ==> n'.off == ticks[i].off);
      SlipsExactly(v, ticks, i + 1, next, p);
      var a, a' := Head(v, n, y, p), Head(v', n', y, p);
      HeadIs(v, i, y, p);
      HeadIs(v', i, y, p);
      HeadsTell(v, v', i, y, next, p);
      assert a != a' <==> Slips(v, ticks, i, y, i, p);
      forall j | i < j < |v.notices| ensures Slips(v, ticks, i, y, j, p) <==> Slips(v, ticks, i + 1, next, j, p) {
        assert Down(v.notices, i, y, j) == Down(v.notices, i + 1, next, j);
      }
      var m := i + 1;
      if r :| m <= r < |v.notices| && Slips(v, ticks, m, next, r, p) { assert Slips(v, ticks, i, y, r, p); }
      if r :| i <= r < |v.notices| && Slips(v, ticks, i, y, r, p) { assert r > i ==> Slips(v, ticks, i + 1, next, r, p); }
    }
  }

  /** What one slot at y paints at p in PERFORMANCE mode. */
  function Head(v: View, n: Notice, y: int, p: Point): seq<Slot> {
    var box := NoticeBox(v.screen, n, y);
    if n.title != "" && box.Has(p) then [Slot(n.title, n.body, n.icon, box)] else []
  }

  lemma HeadIs(v: View, i: nat, y: int, p: Point)
    requires i < |v.notices| && v.mode == MODE_PERFORMANCE && v.screen.Has(p)
    ensures SlotsAt(v, i, y, p) == Head(v, v.notices[i], y, p) + SlotsAt(v, i + 1, if v.notices[i].title == "" then y else y + 86, p)
  {
    var box := NoticeBox(v.screen, v.notices[i], y);
    if box.Has(p) { MeetsAt(box, v.screen, p); }
    assert [] + SlotsAt(v, i + 1, y, p) == SlotsAt(v, i + 1, y, p);
  }

  /** Two lists of slots differ exactly if their first slots or the rest do: the rest lies below. */
  lemma HeadsTell(v: View, v': View, i: nat, y: int, next: int, p: Point)
    requires i < |v.notices| == |v'.notices| && next >= y && (v.notices[i].title == "" <==> v'.notices[i].title == "")
    requires v.notices[i].title != "" ==> next > y
    ensures var a, a', r, r' := Head(v, v.notices[i], y, p), Head(v', v'.notices[i], y, p), SlotsAt(v, i + 1, next, p), SlotsAt(v', i + 1, next, p);
            a + r == a' + r' <==> a == a' && r == r'
  {
    var a, a' := Head(v, v.notices[i], y, p), Head(v', v'.notices[i], y, p);
    var r, r' := SlotsAt(v, i + 1, next, p), SlotsAt(v', i + 1, next, p);
    SlotsBelow(v, i + 1, next, p);
    SlotsBelow(v', i + 1, next, p);
    ListsTell(a, r, a', r', y);
  }

  lemma ListsTell(a: seq<Slot>, r: seq<Slot>, a': seq<Slot>, r': seq<Slot>, y: int)
    requires |a| <= 1 && |a'| <= 1 && (a != [] ==> a[0].box.y == y) && (a' != [] ==> a'[0].box.y == y)
    requires a != [] || a' != [] ==> (r != [] ==> r[0].box.y > y) && (r' != [] ==> r'[0].box.y > y)
    ensures a + r == a' + r' <==> a == a' && r == r'
  {
    if a + r == a' + r' {
      assert a != [] ==> (a + r)[0] == a[0];
      assert a' != [] ==> (a' + r')[0] == a'[0];
      assert a == [] ==> a + r == r;
      assert a' == [] ==> a' + r' == r';
      assert a == a';
      assert r == (a + r)[|a|..] && r' == (a' + r')[|a'|..];
    }
  }

  /** The last frame of a slide-in: its animation has ended, so nothing is damaged, and yet the box
      moves. At every smooth pixel that it comes onto or leaves, some painter shows the difference. */
  lemma LastSlideShows(v: View, ticks: seq<NoticeTick>, j: nat, p: Point)
    requires j < |v.notices| == |ticks| && v.mode == MODE_PERFORMANCE && v.screen.Has(p)
    requires !AnyDamaged(v.notices, ticks) && Slips(v, ticks, 0, 34, j, p)
    ensures exists P :: ScenePixel(P, v, p) != ScenePixel(P, v.(notices := NoticesAfter(v.notices, ticks)), p)
  {
    SlipsExactly(v, ticks, 0, 34, p);
    NoticesExactly(v, NoticesAfter(v.notices, ticks), p);
  }

  /** Such a tick: one notification arrives from any offset, on any screen wide enough for it. */
  lemma SlideInSlips(screen: Rect, n: Notice, p: Point)
    requires screen.Has(p) && n.title != "" && n.off > 0 && !n.leaving && Rect(screen.w - 352, 34, 340, 76).Has(p)
    ensures var t := NoticeTick(0, false, false, false, false);
            var v, ticks := View(screen, MODE_PERFORMANCE, 0, [], [n, NO_NOTICE, NO_NOTICE]), [t, t, t];
            && !AnyDamaged(v.notices, ticks) && Smooth(v.(notices := NoticesAfter(v.notices, ticks)), p)
            && exists P :: ScenePixel(P, v, p) != ScenePixel(P, v.(notices := NoticesAfter(v.notices, ticks)), p)
  {
    var t := NoticeTick(0, false, false, false, false);
    var v := View(screen, MODE_PERFORMANCE, 0, [], [n, NO_NOTICE, NO_NOTICE]);
    assert Slips(v, [t, t, t], 0, 34, 0, p);
    LastSlideShows(v, [t, t, t], 0, p);
  }
}
