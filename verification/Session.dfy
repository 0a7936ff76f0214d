/** The compositor's event loop: any sequence of requests, input and timer ticks. */
module Session {
  import opened Geometry
  import opened Numbers
  import opened Wrappers
  import opened Scene
  import opened Damage
  import opened Animation
  import opened Compositor

  datatype Event =
    | DragBy(id: int, dx: int, dy: int)
    | PlaceAt(id: int, x: int, y: int)
    | ResizeTo(id: int, w: int, h: int, pixels: map<Point, Color>)
    | Retitle(id: int, title: string)
    | CommitOf(id: int, pixels: map<Point, Color>, n: nat, rects: seq<Rect>)
    | FocusOn(id: int)
    | CloseOf(id: int, pool: bool)
    | MinimizeOf(id: int, pool: bool)
    | MaximizeOf(id: int, pool: bool)
    | Create(request: Request, pool: bool)
    | Gone(client: nat, fades: nat -> bool)
    | Mode(m: nat)
    | Workspace(dir: int)
    | Announce(title: string, body: string, icon: string, pool: bool)
    | Pointer(to: Point)
    | Press(b: nat, pool: bool)
    | Release(b: nat)
    | Tick(env: nat -> WinTick, ticks: seq<NoticeTick>, left: nat, slow: bool, pool: bool)

  /** Fixed-size payloads. */
  predicate WellFormed(e: Event) {
    match e
    case CommitOf(_, _, _, rects) => |rects| == 32
    case Press(b, _) => b < 3
    case Release(b) => b < 3
    case Tick(_, ticks, _, _, _) => |ticks| == MAX_NOTIFS
    case _ => true
  }

  // ------------------------------------------------------------ one event as a step of the state

  /** What can be seen of the compositor between two events, the framebuffer aside. */
  datatype Snap = Snap(view: View, armed: bool, cursor: Point, drag: Option<nat>, resizing: Option<nat>,
                       back: Option<nat>, lost: seq<Win>, nextUid: nat, cascade: nat,
                       damage: seq<Rect>, stale: iset<Point>)

  ghost function SnapOf(c: Compositor): Snap
    reads c
  {
    Snap(c.Current(), c.armed, c.cursor, c.drag, c.resizing, c.back, c.lost, c.nextUid, c.cascade, c.damage, c.stale)
  }

  function Moved(s: Snap, to: Point): Point {
    Point(Clamp(to.x, 0, s.view.screen.w - 1), Clamp(to.y, 0, s.view.screen.h - 1))
  }

  /** A press on the decoration button db of window k, or elsewhere on it. */
  function PressedList(s: Snap, pool: bool): seq<Win> {
    var z := s.view.z;
    var k := HitIndex(z, s.view.curWs, s.cursor);
    if k == |z| then z
    else if OnDeco(z[k], s.cursor) && DecoButton(z[k], s.cursor) < 3 then
      Decorated(z, k, DecoButton(z[k], s.cursor), pool, s.view.curWs, s.view.screen)
    else FocusedList(z, k)
  }

  function PressedBack(s: Snap, pool: bool): Option<nat> {
    var z := s.view.z;
    var k := HitIndex(z, s.view.curWs, s.cursor);
    if k == |z| then s.back
    else if OnDeco(z[k], s.cursor) && DecoButton(z[k], s.cursor) < 3 then
      DecoratedBack(z, k, DecoButton(z[k], s.cursor), pool, s.view.curWs, s.back)
    else FocusedBack(z, k, s.back)
  }

  function PressedDrag(s: Snap): Option<nat> {
    var z := s.view.z;
    var k := HitIndex(z, s.view.curWs, s.cursor);
    if k < |z| && OnDeco(z[k], s.cursor) && DecoButton(z[k], s.cursor) >= 3 then Some(z[k].uid) else s.drag
  }

  /** The window list after an event. */
  function NextList(s: Snap, e: Event): seq<Win> {
    var z := s.view.z;
    match e
    case DragBy(id, dx, dy) => var k := IndexOf(z, id); if k == |z| then z else z[k := Dragged(z[k], dx, dy)]
    case PlaceAt(id, x, y) => var k := IndexOf(z, id); if k == |z| then z else z[k := Placed(z[k], x, y)]
    case ResizeTo(id, w, h, pixels) => var k := IndexOf(z, id); if k == |z| then z else z[k := Resized(z[k], w, h, pixels)]
    case Retitle(id, title) => var k := IndexOf(z, id); if k == |z| then z else z[k := z[k].(title := title)]
    case CommitOf(id, pixels, _, _) => var k := IndexOf(z, id); if k == |z| then z else z[k := z[k].(surf := Some(pixels))]
    case FocusOn(id) => var k := IndexOf(z, id); if k == |z| then z else FocusedList(z, k)
    case CloseOf(id, pool) => var k := IndexOf(z, id); if k == |z| then z else ClosedList(z, k, pool)
    case MinimizeOf(id, pool) => var k := IndexOf(z, id); if k == |z| then z else MinimizedList(z, k, pool, s.view.curWs)
    case MaximizeOf(id, pool) => var k := IndexOf(z, id); if k == |z| then z else MaximizedList(z, k, pool, s.view.screen)
    case Create(r, pool) => WithNew(z, s.back, Requested(r, s.nextUid, s.cascade, s.view.curWs, s.view.screen), pool)
    case Gone(client, fades) => OrphanedList(z, client, fades)
    case Pointer(to) =>
      Followed(z, s.drag, s.resizing, Moved(s, to).x - s.cursor.x, Moved(s, to).y - s.cursor.y, s.view.screen)
    case Press(_, pool) => PressedList(s, pool)
    case Tick(env, _, _, _, _) => if s.armed then Ticked(z, env) else z
    case _ => z
  }

  /** The back pointer after an event. */
  function NextBack(s: Snap, e: Event): Option<nat> {
    var z := s.view.z;
    match e
    case FocusOn(id) => var k := IndexOf(z, id); if k == |z| then s.back else FocusedBack(z, k, s.back)
    case MinimizeOf(id, pool) => var k := IndexOf(z, id); if k == |z| then s.back else MinimizedBack(z, k, pool, s.view.curWs, s.back)
    case Create(r, _) => EnteredBack(s.back, Requested(r, s.nextUid, s.cascade, s.view.curWs, s.view.screen))
    case Press(_, pool) => PressedBack(s, pool)
    case Tick(env, _, _, _, _) => if s.armed then TickedBack(z, env, s.back) else s.back
    case _ => s.back
  }

  /** The windows that dropped out of the list. */
  function NextLost(s: Snap, e: Event): seq<Win> {
    match e
    case Create(r, _) => if r.bottom && s.back.None? then s.lost + s.view.z else s.lost
    case Pointer(to) =>
      Followed(s.lost, s.drag, s.resizing, Moved(s, to).x - s.cursor.x, Moved(s, to).y - s.cursor.y, s.view.screen)
    case _ => s.lost
  }

  function NextDrag(s: Snap, e: Event): Option<nat> {
    match e
    case Press(_, _) => PressedDrag(s)
    case Release(b) => if b == 0 then None else s.drag
    case Tick(env, _, _, _, _) => if s.armed then TickedRef(s.view.z, env, s.drag) else s.drag
    case _ => s.drag
  }

  // ------------------------------------------------------------ what an event leaves stale

  /** The notifications after an announcement. */
  function Announced(s: Snap, e: Event): seq<Notice>
    requires |s.view.notices| == MAX_NOTIFS && e.Announce?
  {
    s.view.notices[SlotFor(s.view.notices) := Notice(e.title, e.body, e.icon, if e.pool then 360 else 0, false, false)]
  }

  /** The pixels an event changes without damaging them: what a commit does not report, where the
      former front window shows its focus and what drops out of the list when a window is created,
      where other notifications paint outside the invalidated area, and for an animation frame where
      a window that comes to the front by a release shows its focus and slots that move undamaged. */
  ghost function Marks(s: Snap, e: Event): iset<Point>
    requires |s.view.notices| == MAX_NOTIFS && WellFormed(e)
  {
    match e
    case CommitOf(id, pixels, n, rects) =>
      var k := IndexOf(s.view.z, id);
      if k == |s.view.z| then iset{} else Unreported(s.view.z[k], pixels, n, rects)
    case Create(r, _) => EntryMarks(s.view, s.back, r.bottom)
    case Announce(_, _, _, _) => NoticeMarks(s.view, Announced(s, e), true)
    case Tick(env, ticks, _, _, _) => if s.armed then TickMarks(s.view, env, ticks) else iset{}
    case _ => iset{}
  }

  ghost function Everywhere(screen: Rect): iset<Point> { iset p: Point | screen.Has(p) }

  /** The windows fit before and after the event, at most as many as are painted, and no glide could
      end off its target. */
  ghost predicate Gentle(s: Snap, e: Event) {
    Sane(s.view.z) && Sane(NextList(s, e)) && AllHomed(s.view.z)
  }

  /** What may be stale after an event: what was and what the event marks, without what an animation
      frame painted or a damaged screen will paint. After an event that is not gentle, anything. */
  ghost function Bound(s: Snap, e: Event): iset<Point>
    requires |s.view.notices| == MAX_NOTIFS && WellFormed(e)
  {
    if !Gentle(s, e) then Everywhere(s.view.screen)
    else if e.Mode? || (e.Workspace? && Clamp(s.view.curWs + e.dir, 0, N_WS - 1) != s.view.curWs) then iset{}
    else (s.stale + Marks(s, e)) - iset p: Point | e.Tick? && s.armed && Covers(s.damage, p)
  }

  /** What one event does to the windows and the pointer, and what it may leave stale. A tick may also
      release notifications and reduce the mode. */
  ghost predicate Steps(s: Snap, e: Event, t: Snap)
    requires |s.view.notices| == MAX_NOTIFS && WellFormed(e)
  {
    Moves(s, e, t) && t.stale <= Bound(s, e)
  }

  predicate Moves(s: Snap, e: Event, t: Snap)
    requires |s.view.notices| == MAX_NOTIFS && WellFormed(e)
  {
    && t.view.screen == s.view.screen && t.view.z == NextList(s, e) && t.back == NextBack(s, e) && t.lost == NextLost(s, e)
    && t.view.curWs == (if e.Workspace? then Clamp(s.view.curWs + e.dir, 0, N_WS - 1) else s.view.curWs)
    && t.cursor == (if e.Pointer? then Moved(s, e.to) else s.cursor)
    && t.nextUid == s.nextUid + (if e.Create? then 1 else 0) && t.cascade == s.cascade + (if e.Create? then 1 else 0)
    && t.drag == NextDrag(s, e) && (!e.Tick? ==> t.view.mode == if e.Mode? then e.m else s.view.mode)
    && (!e.Tick? ==> t.view.notices == if e.Announce? then Announced(s, e) else s.view.notices)
  }

  lemma FocusedHomed(z: seq<Win>, k: nat)
    requires k < |z| && AllHomed(z)
    ensures AllHomed(FocusedList(z, k))
  {
    var r := FocusedList(z, k);
    forall i | 0 <= i < |r| ensures Homed(r[i]) {
      if !z[k].noFocus && k > 0 {
        assert Homed(z[Origin(k, i)]);
        assert r[i].tgt == z[Origin(k, i)].tgt && r[i].cur == z[Origin(k, i)].cur && r[i].glide == z[Origin(k, i)].glide;
      }
    }
  }

  lemma ChangedHomed(z: seq<Win>, k: nat, w: Win)
    requires k < |z| && AllHomed(z) && Homed(w)
    ensures AllHomed(z[k := w])
  {
  }

  lemma MinimizedHomed(z: seq<Win>, k: nat, pool: bool, ws: int)
    requires k < |z| && AllHomed(z)
    ensures AllHomed(MinimizedList(z, k, pool, ws))
  {
    var z1 := z[k := z[k].(minimized := true, closing := false, fading := pool)];
    ChangedHomed(z, k, z1[k]);
    var n := NextFocus(z1, ws, k);
    if n < |z1| { FocusedHomed(z1, n); }
  }

  lemma DecoratedHomed(z: seq<Win>, k: nat, db: nat, pool: bool, ws: int, screen: Rect)
    requires k < |z| && AllHomed(z)
    ensures AllHomed(Decorated(z, k, db, pool, ws, screen))
  {
    if db == 1 { MinimizedHomed(z, k, pool, ws); }
  }

  lemma PressHomed(s: Snap, pool: bool)
    requires AllHomed(s.view.z)
    ensures AllHomed(PressedList(s, pool))
  {
    hide Decorated, FocusedList;
    var z := s.view.z;
    var k := HitIndex(z, s.view.curWs, s.cursor);
    if k < |z| {
      DecoratedHomed(z, k, DecoButton(z[k], s.cursor), pool, s.view.curWs, s.view.screen);
      FocusedHomed(z, k);
    }
  }

  lemma FollowedHomed(z: seq<Win>, drag: Option<nat>, resizing: Option<nat>, dx: int, dy: int, screen: Rect)
    requires AllHomed(z)
    ensures AllHomed(Followed(z, drag, resizing, dx, dy, screen))
  {
  }

  lemma CreatedHomed(z: seq<Win>, back: Option<nat>, w: Win, pool: bool)
    requires AllHomed(z) && w.glide.None?
    ensures AllHomed(WithNew(z, back, w, pool))
  {
    NewShape(z, back, w, pool);
    var r, e := WithNew(z, back, w, pool), Entered(z, back, w);
    forall i | 0 <= i < |r| ensures Homed(r[i]) {
      assert e[i] == w || exists j :: 0 <= j < |z| && e[i] == z[j];
    }
  }

  /** Every event keeps every window homed: no glide ever ends off its target. */
  lemma StepHomed(s: Snap, e: Event)
    requires AllHomed(s.view.z)
    ensures AllHomed(NextList(s, e))
  {
    hide FocusedList, MinimizedList, Followed, WithNew, Ticked, PressedList;
    var z := s.view.z;
    match e
    case FocusOn(id) => if IndexOf(z, id) < |z| { FocusedHomed(z, IndexOf(z, id)); }
    case MinimizeOf(id, pool) => if IndexOf(z, id) < |z| { MinimizedHomed(z, IndexOf(z, id), pool, s.view.curWs); }
    case Create(r, pool) => CreatedHomed(z, s.back, Requested(r, s.nextUid, s.cascade, s.view.curWs, s.view.screen), pool);
    case Pointer(to) => FollowedHomed(z, s.drag, s.resizing, Moved(s, to).x - s.cursor.x, Moved(s, to).y - s.cursor.y, s.view.screen);
    case Press(_, pool) => PressHomed(s, pool);
    case Tick(env, _, _, _, _) => if s.armed { TickedHomed(z, env); }
    case _ =>
  }

  // ------------------------------------------------------------ dragging a window by its title bar

  /** Window u is dragged: the pointer is at this place in it, it has this size, and nothing moves it
      on its own. */
  predicate Grip(s: Snap, u: nat, at: Point, w: int, h: int) {
    && s.drag == Some(u) && DistinctUids(s.view.z)
    && forall x :: x in s.view.z && x.uid == u ==>
         Local(x, s.cursor) == at && x.cur.w == w && x.cur.h == h && x.glide.None? && !x.closing
  }

  lemma GripMoved(s: Snap, e: Event, t: Snap, u: nat, at: Point, w: int, h: int)
    requires |s.view.notices| == MAX_NOTIFS && WellFormed(e) && Steps(s, e, t) && e.Pointer? && Grip(s, u, at, w, h)
    ensures Grip(t, u, at, w, h)
  {
    var z, r := s.view.z, t.view.z;
    FollowedMeans(z, s.drag, s.resizing, s.cursor, Moved(s, e.to), s.view.screen);
    hide Followed, Moved, Local;
    if u in Uids(z) {
      var k := UidIndex(z, u);
      UidsReplaced(z, k, r[k]);
      forall x | x in r && x.uid == u ensures x == r[k] {
        var i :| 0 <= i < |r| && r[i] == x;
        assert i == k;
      }
    } else {
      assert forall x :: x in r ==> x.uid in Uids(r);
    }
  }

  lemma {:induction false} TickedFrom(z: seq<Win>, env: nat -> WinTick, x: Win)
    requires x in Ticked(z, env)
    ensures exists y :: y in z && x == Glided(Faded(y, env(y.uid)), env(y.uid))
  {
    hide Released, Faded, Glided;
    if x in Ticked(z[1..], env) {
      TickedFrom(z[1..], env, x);
      var y :| y in z[1..] && x == Glided(Faded(y, env(y.uid)), env(y.uid));
      assert y in z;
    } else {
      assert z[0] in z && x == Glided(Faded(z[0], env(z[0].uid)), env(z[0].uid));
    }
  }

  lemma SameUid(w: Win, t: WinTick)
    ensures var f := Glided(Faded(w, t), t); f.uid == w.uid && f.closing == w.closing
  {
    hide Faded, Glided;
    FadedUid(w, t);
    GlidedUid(Faded(w, t), t);
  }

  lemma FadedUid(w: Win, t: WinTick)
    ensures Faded(w, t).uid == w.uid && Faded(w, t).closing == w.closing
  {
  }

  lemma ShiftedUid(w: Win, r: Rect)
    ensures Shifted(w, r).uid == w.uid && Shifted(w, r).closing == w.closing
    ensures Halted(w).uid == w.uid && Halted(w).closing == w.closing
  {
  }

  lemma GlidedUid(w: Win, t: WinTick)
    ensures Glided(w, t).uid == w.uid && Glided(w, t).closing == w.closing
  {
    hide Shifted, Halted;
    ShiftedUid(w, t.rect);
    if w.glide.Some? {
      ShiftedUid(w, w.glide.value);
      ShiftedUid(Shifted(w, w.glide.value), t.rect);
    }
  }

  lemma {:induction false} TickedDistinct(z: seq<Win>, env: nat -> WinTick)
    requires DistinctUids(z)
    ensures DistinctUids(Ticked(z, env))
  {
    hide Released, Faded, Glided;
    if z != [] {
      TickedDistinct(z[1..], env);
      forall x | x in Ticked(z[1..], env) ensures x.uid != z[0].uid {
        TickedFrom(z[1..], env, x);
        var y :| y in z[1..] && x == Glided(Faded(y, env(y.uid)), env(y.uid));
        SameUid(y, env(y.uid));
      }
      SameUid(z[0], env(z[0].uid));
    }
  }

  lemma StillStays(w: Win, t: WinTick)
    requires w.glide.None?
    ensures var f := Glided(Faded(w, t), t); f.cur == w.cur && f.glide.None?
  {
    FadedStays(w, t);
    hide Faded;
  }

  lemma GripTicked(s: Snap, e: Event, t: Snap, u: nat, at: Point, w: int, h: int)
    requires |s.view.notices| == MAX_NOTIFS && WellFormed(e) && Steps(s, e, t) && e.Tick? && Grip(s, u, at, w, h)
    ensures Grip(t, u, at, w, h)
  {
    var z := s.view.z;
    if s.armed {
      TickedRefMeans(z, e.env, s.drag);
      TickedDistinct(z, e.env);
      hide Faded, Glided, Local;
      forall x | x in t.view.z && x.uid == u
        ensures Local(x, s.cursor) == at && x.cur.w == w && x.cur.h == h && x.glide.None? && !x.closing
      {
        TickedFrom(z, e.env, x);
        var y :| y in z && x == Glided(Faded(y, e.env(y.uid)), e.env(y.uid));
        SameUid(y, e.env(y.uid));
        StillStays(y, e.env(y.uid));
        LocalSame(x, y, s.cursor);
      }
    }
  }

  lemma LocalSame(x: Win, y: Win, p: Point)
    requires x.cur == y.cur
    ensures Local(x, p) == Local(y, p)
  {
  }

  /** A press on the title bar beside the buttons takes hold of the window. */
  lemma PressGrips(s: Snap, e: Event, t: Snap)
    requires |s.view.notices| == MAX_NOTIFS && WellFormed(e) && Steps(s, e, t) && e.Press? && DistinctUids(s.view.z)
    requires TitleHit(s)
    ensures var x := s.view.z[HitIndex(s.view.z, s.view.curWs, s.cursor)];
            x.glide.None? && !x.closing ==> Grip(t, x.uid, Local(x, s.cursor), x.cur.w, x.cur.h)
  {
    var z := s.view.z;
    var k := HitIndex(z, s.view.curWs, s.cursor);
    FocusedListFacts(z, k);
    hide HitIndex, DecoButton, OnDeco, FocusedList, Local;
    forall y | y in FocusedList(z, k) && y.uid == z[k].uid
      ensures y.cur == z[k].cur && y.glide == z[k].glide && y.closing == z[k].closing
    {
      FocusedSame(z, k, y);
    }
    forall y | y in t.view.z && y.uid == z[k].uid ensures Local(y, s.cursor) == Local(z[k], s.cursor) { LocalSame(y, z[k], s.cursor); }
  }

  lemma FocusedSame(z: seq<Win>, k: nat, y: Win)
    requires k < |z| && DistinctUids(z) && y in FocusedList(z, k) && y.uid == z[k].uid
    ensures y.cur == z[k].cur && y.glide == z[k].glide && y.closing == z[k].closing
  {
    var r := FocusedList(z, k);
    var i :| 0 <= i < |r| && r[i] == y;
    if z[k].noFocus || k == 0 { } else {
      FocusedOrigin(z, k, i);
      assert y.cur == z[Origin(k, i)].cur && y.glide == z[Origin(k, i)].glide && y.closing == z[Origin(k, i)].closing;
    }
  }

  /** The pointer is on a title bar, beside its buttons. */
  predicate TitleHit(s: Snap) {
    var k := HitIndex(s.view.z, s.view.curWs, s.cursor);
    k < |s.view.z| && OnDeco(s.view.z[k], s.cursor) && DecoButton(s.view.z[k], s.cursor) >= 3
  }

  /** Dragging by the title bar, over any pointer moves and frames: from the press on the pointer keeps
      its place in the window, and the window its size. */
  lemma {:induction false} TitleDrag(log: seq<Snap>, es: seq<Event>, n: nat)
    requires 0 < n <= |es| < |log| && forall i :: 0 <= i < |log| ==> |log[i].view.notices| == MAX_NOTIFS
    requires forall i :: 0 <= i < |es| ==> WellFormed(es[i]) && Steps(log[i], es[i], log[i + 1])
    requires es[0].Press? && forall i :: 0 < i < |es| ==> es[i].Pointer? || es[i].Tick?
    requires DistinctUids(log[0].view.z) && TitleHit(log[0])
    ensures var x := log[0].view.z[HitIndex(log[0].view.z, log[0].view.curWs, log[0].cursor)];
            x.glide.None? && !x.closing ==> Grip(log[n], x.uid, Local(x, log[0].cursor), x.cur.w, x.cur.h)
  {
    var x := log[0].view.z[HitIndex(log[0].view.z, log[0].view.curWs, log[0].cursor)];
    assert Steps(log[n - 1], es[n - 1], log[n - 1 + 1]);
    hide Steps, Grip, TitleHit, WellFormed, HitIndex, Local, DistinctUids;
    if n == 1 {
      PressGrips(log[0], es[0], log[1]);
    } else {
      TitleDrag(log, es, n - 1);
      if x.glide.None? && !x.closing {
        if es[n - 1].Pointer? {
          GripMoved(log[n - 1], es[n - 1], log[n], x.uid, Local(x, log[0].cursor), x.cur.w, x.cur.h);
        } else {
          GripTicked(log[n - 1], es[n - 1], log[n], x.uid, Local(x, log[0].cursor), x.cur.w, x.cur.h);
        }
      }
    }
  }

  // ------------------------------------------------------------ the loop

  method HandleTick(c: Compositor, e: Event)
    requires c.Valid() && WellFormed(e) && e.Tick?
    modifies c
    ensures c.Valid() && Moves(old(SnapOf(c)), e, SnapOf(c))
    ensures Gentle(old(SnapOf(c)), e) ==> c.stale <= Bound(old(SnapOf(c)), e)
    ensures old(c.InSync()) && Gentle(old(SnapOf(c)), e) && Narrow(c.sprite) ==> c.InSync()
  {
    hide Compositor.Valid, Compositor.InSync, AllHomed, Compositor.UpToDate, Sane, Narrow, Ticked, TickedBack, Departures, Covers,
         TickTitles, NoticeMarks;
    c.HasSlots();
    if c.armed { c.FrameTick(e.env, e.ticks, e.left, e.slow, e.pool); }
  }

  method HandlePointer(c: Compositor, e: Event)
    requires c.Valid() && WellFormed(e) && e.Pointer?
    modifies c
    ensures c.Valid() && Moves(old(SnapOf(c)), e, SnapOf(c))
    ensures Gentle(old(SnapOf(c)), e) ==> c.stale <= Bound(old(SnapOf(c)), e)
    ensures old(c.InSync()) && Gentle(old(SnapOf(c)), e) ==> c.InSync()
  {
    hide Compositor.Valid, Compositor.InSync, AllHomed, Sane, Followed;
    c.HasSlots();
    c.PointerMove(e.to);
  }

  method HandlePress(c: Compositor, e: Event)
    requires c.Valid() && WellFormed(e) && e.Press?
    modifies c
    ensures c.Valid() && Moves(old(SnapOf(c)), e, SnapOf(c))
    ensures Gentle(old(SnapOf(c)), e) ==> c.stale <= Bound(old(SnapOf(c)), e)
    ensures old(c.InSync()) && Gentle(old(SnapOf(c)), e) ==> c.InSync()
  {
    hide Compositor.Valid, Compositor.InSync, AllHomed, Sane, Decorated, DecoratedBack, FocusedList, FocusedBack, DecoButton, HitIndex;
    c.HasSlots();
    c.ButtonDown(e.b, e.pool);
  }

  method HandleRelease(c: Compositor, e: Event)
    requires c.Valid() && WellFormed(e) && e.Release?
    modifies c
    ensures c.Valid() && Moves(old(SnapOf(c)), e, SnapOf(c))
    ensures Gentle(old(SnapOf(c)), e) ==> c.stale <= Bound(old(SnapOf(c)), e)
    ensures old(c.InSync()) && Gentle(old(SnapOf(c)), e) ==> c.InSync()
  {
    hide Compositor.Valid, Compositor.InSync, AllHomed;
    c.HasSlots();
    c.ButtonUp(e.b);
  }

  /** Requests about one window. */
  method HandleDrag(c: Compositor, e: Event)
    requires c.Valid() && WellFormed(e) && e.DragBy?
    modifies c
    ensures c.Valid() && Moves(old(SnapOf(c)), e, SnapOf(c))
    ensures Gentle(old(SnapOf(c)), e) ==> c.stale <= Bound(old(SnapOf(c)), e)
    ensures old(c.InSync()) && Gentle(old(SnapOf(c)), e) ==> c.InSync()
  {
    hide Compositor.Valid, Compositor.InSync, AllHomed, Sane, IndexOf, Dragged;
    c.HasSlots();
    c.Drag(e.id, e.dx, e.dy);
  }

  method HandlePlace(c: Compositor, e: Event)
    requires c.Valid() && WellFormed(e) && e.PlaceAt?
    modifies c
    ensures c.Valid() && Moves(old(SnapOf(c)), e, SnapOf(c))
    ensures Gentle(old(SnapOf(c)), e) ==> c.stale <= Bound(old(SnapOf(c)), e)
    ensures old(c.InSync()) && Gentle(old(SnapOf(c)), e) ==> c.InSync()
  {
    hide Compositor.Valid, Compositor.InSync, AllHomed, Sane, IndexOf, Placed;
    c.HasSlots();
    c.Place(e.id, e.x, e.y);
  }

  method HandleResize(c: Compositor, e: Event)
    requires c.Valid() && WellFormed(e) && e.ResizeTo?
    modifies c
    ensures c.Valid() && Moves(old(SnapOf(c)), e, SnapOf(c))
    ensures Gentle(old(SnapOf(c)), e) ==> c.stale <= Bound(old(SnapOf(c)), e)
    ensures old(c.InSync()) && Gentle(old(SnapOf(c)), e) ==> c.InSync()
  {
    hide Compositor.Valid, Compositor.InSync, AllHomed, Sane, IndexOf, Resized;
    c.HasSlots();
    c.ClientResize(e.id, e.w, e.h, e.pixels);
  }

  method HandleTitle(c: Compositor, e: Event)
    requires c.Valid() && WellFormed(e) && e.Retitle?
    modifies c
    ensures c.Valid() && Moves(old(SnapOf(c)), e, SnapOf(c))
    ensures Gentle(old(SnapOf(c)), e) ==> c.stale <= Bound(old(SnapOf(c)), e)
    ensures old(c.InSync()) && Gentle(old(SnapOf(c)), e) ==> c.InSync()
  {
    hide Compositor.Valid, Compositor.InSync, AllHomed, Sane, IndexOf;
    c.HasSlots();
    c.SetTitle(e.id, e.title);
  }

  method HandleCommit(c: Compositor, e: Event)
    requires c.Valid() && WellFormed(e) && e.CommitOf?
    modifies c
    ensures c.Valid() && Moves(old(SnapOf(c)), e, SnapOf(c))
    ensures Gentle(old(SnapOf(c)), e) ==> c.stale <= Bound(old(SnapOf(c)), e)
    ensures old(c.InSync()) && Gentle(old(SnapOf(c)), e) ==> c.InSync()
  {
    hide Compositor.Valid, Compositor.InSync, AllHomed, Sane, IndexOf, Unreported;
    c.HasSlots();
    c.Commit(e.id, e.pixels, e.n, e.rects);
  }

  method HandleFocus(c: Compositor, e: Event)
    requires c.Valid() && WellFormed(e) && e.FocusOn?
    modifies c
    ensures c.Valid() && Moves(old(SnapOf(c)), e, SnapOf(c))
    ensures Gentle(old(SnapOf(c)), e) ==> c.stale <= Bound(old(SnapOf(c)), e)
    ensures old(c.InSync()) && Gentle(old(SnapOf(c)), e) ==> c.InSync()
  {
    hide Compositor.Valid, Compositor.InSync, AllHomed, Sane, IndexOf, FocusedList, FocusedBack;
    c.HasSlots();
    c.Focus(e.id);
  }

  method HandleClose(c: Compositor, e: Event)
    requires c.Valid() && WellFormed(e) && e.CloseOf?
    modifies c
    ensures c.Valid() && Moves(old(SnapOf(c)), e, SnapOf(c))
    ensures Gentle(old(SnapOf(c)), e) ==> c.stale <= Bound(old(SnapOf(c)), e)
    ensures old(c.InSync()) && Gentle(old(SnapOf(c)), e) ==> c.InSync()
  {
    hide Compositor.Valid, Compositor.InSync, AllHomed, Sane, IndexOf, ClosedList, PressedList, Followed, WithNew, Ticked,
         Unreported, EntryMarks, NoticeMarks, TickMarks, Everywhere;
    c.HasSlots();
    var k := c.Find(e.id);
    if k < |c.z| { c.CloseWin(k, e.pool); }
  }

  method HandleMinimize(c: Compositor, e: Event)
    requires c.Valid() && WellFormed(e) && e.MinimizeOf?
    modifies c
    ensures c.Valid() && Moves(old(SnapOf(c)), e, SnapOf(c))
    ensures Gentle(old(SnapOf(c)), e) ==> c.stale <= Bound(old(SnapOf(c)), e)
    ensures old(c.InSync()) && Gentle(old(SnapOf(c)), e) ==> c.InSync()
  {
    hide Compositor.Valid, Compositor.InSync, AllHomed, Sane, IndexOf, MinimizedList, MinimizedBack, PressedList, Followed,
         WithNew, Ticked, Unreported, EntryMarks, NoticeMarks, TickMarks, Everywhere;
    c.HasSlots();
    var k := c.Find(e.id);
    if k < |c.z| { c.MinimizeWin(k, e.pool); }
  }

  method HandleMaximize(c: Compositor, e: Event)
    requires c.Valid() && WellFormed(e) && e.MaximizeOf?
    modifies c
    ensures c.Valid() && Moves(old(SnapOf(c)), e, SnapOf(c))
    ensures Gentle(old(SnapOf(c)), e) ==> c.stale <= Bound(old(SnapOf(c)), e)
    ensures old(c.InSync()) && Gentle(old(SnapOf(c)), e) ==> c.InSync()
  {
    hide Compositor.Valid, Compositor.InSync, AllHomed, Sane, IndexOf, MaximizedList;
    c.HasSlots();
    var k := c.Find(e.id);
    if k < |c.z| { c.ToggleMaximize(k, e.pool); }
  }

  /** The other requests, and a client that goes. */
  method HandleCreate(c: Compositor, e: Event)
    requires c.Valid() && WellFormed(e) && e.Create?
    modifies c
    ensures c.Valid() && Moves(old(SnapOf(c)), e, SnapOf(c))
    ensures Gentle(old(SnapOf(c)), e) ==> c.stale <= Bound(old(SnapOf(c)), e)
    ensures old(c.InSync()) && Gentle(old(SnapOf(c)), e) ==> c.InSync()
  {
    hide Compositor.Valid, Compositor.InSync, AllHomed, Sane, WithNew, EntryMarks, Clamp;
    c.HasSlots();
    c.NewWindow(e.request, e.pool);
  }

  method HandleGone(c: Compositor, e: Event)
    requires c.Valid() && WellFormed(e) && e.Gone?
    modifies c
    ensures c.Valid() && Moves(old(SnapOf(c)), e, SnapOf(c))
    ensures Gentle(old(SnapOf(c)), e) ==> c.stale <= Bound(old(SnapOf(c)), e)
    ensures old(c.InSync()) && Gentle(old(SnapOf(c)), e) ==> c.InSync()
  {
    hide Compositor.Valid, Compositor.InSync, AllHomed, Sane, OrphanedList, Fades;
    c.HasSlots();
    c.ClientGone(e.client, e.fades);
  }

  method HandleMode(c: Compositor, e: Event)
    requires c.Valid() && WellFormed(e) && e.Mode?
    modifies c
    ensures c.Valid() && Moves(old(SnapOf(c)), e, SnapOf(c))
    ensures Gentle(old(SnapOf(c)), e) ==> c.stale <= Bound(old(SnapOf(c)), e)
    ensures old(c.InSync()) && Gentle(old(SnapOf(c)), e) ==> c.InSync()
  {
    hide Compositor.Valid, Compositor.InSync, AllHomed, Clamp;
    c.HasSlots();
    c.SetMode(e.m);
  }

  method HandleWorkspace(c: Compositor, e: Event)
    requires c.Valid() && WellFormed(e) && e.Workspace?
    modifies c
    ensures c.Valid() && Moves(old(SnapOf(c)), e, SnapOf(c))
    ensures Gentle(old(SnapOf(c)), e) ==> c.stale <= Bound(old(SnapOf(c)), e)
    ensures old(c.InSync()) && Gentle(old(SnapOf(c)), e) ==> c.InSync()
  {
    hide Compositor.Valid, Compositor.InSync, AllHomed, Clamp;
    c.HasSlots();
    c.SwitchWorkspace(e.dir);
  }

  method HandleAnnounce(c: Compositor, e: Event)
    requires c.Valid() && WellFormed(e) && e.Announce?
    modifies c
    ensures c.Valid() && Moves(old(SnapOf(c)), e, SnapOf(c))
    ensures Gentle(old(SnapOf(c)), e) ==> c.stale <= Bound(old(SnapOf(c)), e)
    ensures old(c.InSync()) && Gentle(old(SnapOf(c)), e) ==> c.InSync()
  {
    hide Compositor.Valid, Compositor.InSync, AllHomed, SlotFor, NoticeMarks;
    c.HasSlots();
    c.Notify(e.title, e.body, e.icon, e.pool);
  }

  /** One event of the loop. The timer callback runs only while the timer is armed. After an event that
      is not gentle nothing is promised at any pixel that is not painted again. */
  method Handle(c: Compositor, e: Event)
    requires c.Valid() && WellFormed(e)
    modifies c
    ensures c.Valid() && |c.notices| == MAX_NOTIFS == |old(SnapOf(c)).view.notices| && Steps(old(SnapOf(c)), e, SnapOf(c))
    ensures old(c.InSync()) && Narrow(c.sprite) ==> c.InSync()
  {
    hide Compositor.Valid, Compositor.InSync, Moves, Bound, Gentle, Narrow, Everywhere, WellFormed;
    c.HasSlots();
    ghost var s := SnapOf(c);
    Dispatch(c, e);
    c.HasSlots();
    if !Gentle(s, e) {
      RoughBound(s, e);
      Roughly(s, e, SnapOf(c));
      c.stale := Everywhere(c.screen);
      EverywhereStale(c);
    }
  }

  lemma RoughBound(s: Snap, e: Event)
    requires |s.view.notices| == MAX_NOTIFS && WellFormed(e) && !Gentle(s, e)
    ensures Bound(s, e) == Everywhere(s.view.screen)
  {
  }

  /** What is stale has no part in how an event moves the windows. */
  lemma Roughly(s: Snap, e: Event, t: Snap)
    requires |s.view.notices| == MAX_NOTIFS && WellFormed(e) && Moves(s, e, t)
    ensures t.view.screen == s.view.screen && Moves(s, e, t.(stale := Everywhere(t.view.screen)))
  {
  }

  /** With every pixel of the screen stale there is nothing to keep in step. */
  lemma EverywhereStale(c: Compositor)
    requires c.stale == Everywhere(c.screen)
    ensures c.InSync()
  {
  }

  /** The handler of each event. */
  method Dispatch(c: Compositor, e: Event)
    requires c.Valid() && WellFormed(e)
    modifies c
    ensures c.Valid() && |old(SnapOf(c)).view.notices| == MAX_NOTIFS && Moves(old(SnapOf(c)), e, SnapOf(c))
    ensures Gentle(old(SnapOf(c)), e) ==> c.stale <= Bound(old(SnapOf(c)), e)
    ensures old(c.InSync()) && Gentle(old(SnapOf(c)), e) && Narrow(c.sprite) ==> c.InSync()
  {
    hide Compositor.Valid, Compositor.InSync, AllHomed, Compositor.UpToDate, Sane, Narrow, Marks, Moves, NextList, AllHomed, Covers;
    c.HasSlots();
    match e {
      case Tick(_, _, _, _, _) => HandleTick(c, e);
      case Pointer(_) => HandlePointer(c, e);
      case Press(_, _) => HandlePress(c, e);
      case Release(_) => HandleRelease(c, e);
      case DragBy(_, _, _) => HandleDrag(c, e);
      case PlaceAt(_, _, _) => HandlePlace(c, e);
      case ResizeTo(_, _, _, _) => HandleResize(c, e);
      case Retitle(_, _) => HandleTitle(c, e);
      case CommitOf(_, _, _, _) => HandleCommit(c, e);
      case FocusOn(_) => HandleFocus(c, e);
      case CloseOf(_, _) => HandleClose(c, e);
      case MinimizeOf(_, _) => HandleMinimize(c, e);
      case MaximizeOf(_, _) => HandleMaximize(c, e);
      case Create(_, _) => HandleCreate(c, e);
      case Gone(_, _) => HandleGone(c, e);
      case Mode(_) => HandleMode(c, e);
      case Workspace(_) => HandleWorkspace(c, e);
      case Announce(_, _, _, _) => HandleAnnounce(c, e);
    }
  }

  /** A run of the loop. `log` is what can be seen before each event and at the end, each entry the
      step of the one before. The invariant holds at the end of every run: an armed timer whenever
      there is something to draw, and no dangling reference; and no glide ends off its target.
      Whatever the events are, the framebuffer stays in step outside the stale pixels, which only
      grow by what the events mark; and whenever the compositor is idle, every smooth pixel that is
      not stale shows the full repaint exactly, and in a settled scene without stale pixels the
      whole screen does. */
  method Run(c: Compositor, es: seq<Event>) returns (ghost log: seq<Snap>)
    requires c.Valid() && forall i :: 0 <= i < |es| ==> WellFormed(es[i])
    modifies c
    ensures c.Valid() && |log| == |es| + 1 && log[0] == old(SnapOf(c)) && log[|es|] == SnapOf(c)
    ensures forall i :: 0 <= i <= |es| ==> |log[i].view.notices| == MAX_NOTIFS
    ensures forall i :: 0 <= i < |es| ==> Steps(log[i], es[i], log[i + 1])
    ensures forall i :: 0 <= i <= |es| ==> DistinctUids(log[i].view.z)
    ensures AllHomed(log[0].view.z) ==> forall i :: 0 <= i <= |es| ==> AllHomed(log[i].view.z)
    ensures old(c.InSync()) && Narrow(c.sprite) ==> c.InSync() && (!c.armed ==> c.UpToDate())
    ensures old(c.InSync()) && Narrow(c.sprite) && !c.armed && Settled(c.Current()) && c.stale == iset{} ==> c.Exact()
  {
    hide Narrow, WellFormed, Bound, AllHomed, Moves, NextList, DistinctUids;
    hide Compositor.Valid, Compositor.InSync, Compositor.UpToDate, Compositor.Exact;
    c.HasSlots();
    log := [SnapOf(c)];
    ghost var synced := c.InSync() && Narrow(c.sprite);
    for i := 0 to |es|
      invariant c.Valid() && |log| == i + 1 && log[0] == old(SnapOf(c)) && log[i] == SnapOf(c)
      invariant forall j :: 0 <= j <= i ==> |log[j].view.notices| == MAX_NOTIFS
      invariant forall j :: 0 <= j < i ==> Steps(log[j], es[j], log[j + 1])
      invariant forall j :: 0 <= j <= i ==> DistinctUids(log[j].view.z)
      invariant AllHomed(log[0].view.z) ==> forall j :: 0 <= j <= i ==> AllHomed(log[j].view.z)
      invariant synced ==> c.InSync()
    {
      ghost var before := log;
      Handle(c, es[i]);
      c.HasSlots();
      log := log + [SnapOf(c)];
      assert forall j :: 0 <= j <= i ==> log[j] == before[j];
      if AllHomed(log[0].view.z) { Homing(log[i], es[i], log[i + 1]); }
    }
    if synced && !c.armed {
      c.IdleHolds();
      if Settled(c.Current()) && c.stale == iset{} { c.SettledIsExact(); }
    }
  }

  lemma Homing(s: Snap, e: Event, t: Snap)
    requires |s.view.notices| == MAX_NOTIFS && WellFormed(e) && Steps(s, e, t) && AllHomed(s.view.z)
    ensures AllHomed(t.view.z)
  {
    StepHomed(s, e);
  }

  /** While all events are gentle and mark nothing, nothing becomes stale. */
  lemma {:induction false} NothingStale(log: seq<Snap>, es: seq<Event>, n: nat)
    requires n <= |es| < |log| && forall i :: 0 <= i < |log| ==> |log[i].view.notices| == MAX_NOTIFS
    requires forall i :: 0 <= i < |es| ==> WellFormed(es[i]) && Steps(log[i], es[i], log[i + 1])
    requires forall i :: 0 <= i < |es| ==> Gentle(log[i], es[i]) && Marks(log[i], es[i]) == iset{}
    ensures log[n].stale <= log[0].stale
  {
    if n > 0 {
      NothingStale(log, es, n - 1);
      assert Steps(log[n - 1], es[n - 1], log[n - 1 + 1]);
    }
  }
}
