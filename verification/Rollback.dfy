/** The known-good store of hardware/driver.c: snapshot before every write, and rollback. */
module Rollback {
  import opened Wrappers
  import opened Paths
  import opened StoreWalk

  /** What a marker file holds: "1" and a newline. */
  const MARK: Bytes := [49, 10]

  // ------------------------------------------------------------ snapshot and install

  datatype State = State(live: Files, store: Files)
  datatype Step = Step(ok: bool, st: State)

  /** How the writes for one destination end: its snapshot, its marker, the file itself. */
  datatype Luck = Luck(snap: Outcome, mark: Outcome, write: Outcome)

  /** Record writes are all-or-nothing, and a placeholder gets its marker. */
  predicate AllOrNothing(l: Luck) { !l.snap.Short? && l.mark.Done? }

  /** snapshot_before: remember what dst holds, once. It reports success without a record when the
      marker cannot be opened or a directory sits where snapshot or marker should go. */
  function Snapped(st: State, dst: Path, l: Luck): (r: Step)
    requires dst != []
  {
    if Exists(st.store, dst) || Exists(st.store, Marker(dst)) then Step(true, st)
    else if dst in st.live then
      var c := Copied(st.store, Some(st.live[dst]), dst, l.snap); Step(c.ok, st.(store := c.fs))
    else
      var c := Copied(st.store, Some([]), dst, l.snap);
      if IsDir(st.live, dst) || !c.ok then Step(false, st.(store := c.fs))
      else Step(true, st.(store := Copied(c.fs, Some(MARK), Marker(dst), l.mark).fs))
  }

  /** One destination of a package: the snapshot, then the copy. */
  function Placed(st: State, dst: Path, bytes: Option<Bytes>, l: Luck): (r: Step)
    requires dst != []
  {
    var s := Snapped(st, dst, l);
    if !s.ok then s
    else var c := Copied(s.st.live, bytes, dst, l.write); Step(c.ok, s.st.(live := c.fs))
  }

  /** One file of a package: where it goes, its early-load copy, its contents if readable. */
  datatype Item = Item(dst: Path, early: Option<Path>, bytes: Option<Bytes>, luck: Luck, earlyLuck: Luck)

  predicate ItemNamed(item: Item) { Named(item.dst) && (item.early.Some? ==> Named(item.early.value)) }

  predicate WellNamed(items: seq<Item>) { forall i :: 0 <= i < |items| ==> ItemNamed(items[i]) }

  function ItemPut(st: State, item: Item): (r: Step)
    requires ItemNamed(item)
  {
    var r := Placed(st, item.dst, item.bytes, item.luck);
    if !r.ok || item.early.None? then r else Placed(r.st, item.early.value, item.bytes, item.earlyLuck)
  }

  function ItemsPut(st: State, items: seq<Item>): (r: Step)
    requires WellNamed(items)
  {
    if items == [] then Step(true, st)
    else
      var r := ItemsPut(st, items[..|items| - 1]);
      if r.ok then ItemPut(r.st, items[|items| - 1]) else r
  }

  /** drv_install_package: nothing without verification; then file by file until one fails. */
  function Installed(st: State, items: seq<Item>, verified: bool): (r: Step)
    requires WellNamed(items)
  {
    if verified then ItemsPut(st, items) else Step(false, st)
  }

  ghost function Dests(items: seq<Item>): set<Path> {
    if items == [] then {}
    else Dests(items[..|items| - 1]) + {items[|items| - 1].dst} +
         (if items[|items| - 1].early.Some? then {items[|items| - 1].early.value} else {})
  }

  /** No record write of the installation is cut short or loses its marker. */
  predicate Careful(items: seq<Item>) {
    forall i :: 0 <= i < |items| ==> AllOrNothing(items[i].luck) && AllOrNothing(items[i].earlyLuck)
  }

  // ------------------------------------------------------------ rollback

  /** What the system answers during a rollback: which directories open, in which order they are
      listed, and how the write for each store file ends. */
  datatype Answers = Answers(opens: Path -> bool, order: Order, luck: Path -> Outcome)

  ghost function Walk(store: Files, ask: Answers): seq<Path> {
    Visits(store, ask.opens, ask.order, [[]], Dirs(store))
  }

  /** One store file: a marker removes its destination, a snapshot without a marker is copied back. */
  function RestoredOne(live: Files, store: Files, s: Path, outcome: Outcome): (c: Copy) {
    if EndsAbsent(s) then Unlinked(live, Unmarked(s), outcome)
    else if s != [] && Exists(store, Marker(s)) then Copy(true, live)
    else Copied(live, Get(store, s), s, outcome)
  }

  datatype Tally = Tally(live: Files, failed: nat)

  function Counted(t: Tally, c: Copy): Tally { Tally(c.fs, if c.ok then t.failed else t.failed + 1) }

  /** The files among the first entries of a directory are restored in their order. */
  function DirRestored(t: Tally, store: Files, d: Path, es: seq<string>, luck: Path -> Outcome): (r: Tally) {
    if es == [] then t
    else
      var e, before := es[|es| - 1], DirRestored(t, store, d, es[..|es| - 1], luck);
      if Hidden(e) || IsDir(store, d + [e]) then before
      else Counted(before, RestoredOne(before.live, store, d + [e], luck(d + [e])))
  }

  ghost function DirsRestored(t: Tally, store: Files, dirs: seq<Path>, ask: Answers): (r: Tally) {
    if dirs == [] then t
    else
      var n := |dirs| - 1;
      DirRestored(DirsRestored(t, store, dirs[..n], ask), store, dirs[n], Listing(store, ask.order, dirs[n]), ask.luck)
  }

  /** drv_rollback: walk the whole store; success means no write failed. */
  ghost function RolledBack(st: State, ask: Answers): (r: Step) {
    if st.store == map[] then Step(false, st)
    else
      var t := DirsRestored(Tally(st.live, 0), st.store, Walk(st.store, ask), ask);
      Step(t.failed == 0, st.(live := t.live))
  }

  // ------------------------------------------------------------ what rollback means

  /** The store files that a walk handles when it lists these directories. */
  function Handled(store: Files, order: Order, dirs: seq<Path>): set<Path> {
    set s | s in store && s != [] && Parent(s) in dirs && !Hidden(Last(s)) && Last(s) in Listing(store, order, Parent(s))
  }

  /** The store files a rollback handles. */
  ghost function Listed(store: Files, ask: Answers): set<Path> { Handled(store, ask.order, Walk(store, ask)) }

  /** The store file whose handling decides p. */
  function Key(store: Files, p: Path): Path
    requires p != []
  {
    if Marker(p) in store then Marker(p) else p
  }

  /** What a rollback leaves at live path p when its record is handled. */
  function Undone(live: Files, store: Files, p: Path): Option<Bytes>
    requires p != []
  {
    if Marker(p) in store then None
    else if p in store && !EndsAbsent(p) && !IsDir(store, Marker(p)) then Some(store[p])
    else Get(live, p)
  }

  /** The record of p says what p originally was. */
  ghost predicate Faithful(store: Files, orig: Files, p: Path)
    requires p != []
  {
    if Marker(p) in store then p !in orig else p in store && p in orig && store[p] == orig[p]
  }

  predicate Recorded(store: Files, p: Path) { p != [] && (Marker(p) in store || p in store) }

  /** Rolling back restores a recorded destination exactly when its record is faithful. */
  lemma UndoneIffFaithful(live: Files, store: Files, orig: Files, p: Path)
    requires Recorded(store, p) && !EndsAbsent(p) && !IsDir(store, Marker(p))
    ensures Undone(live, store, p) == Get(orig, p) <==> Faithful(store, orig, p)
  {
  }

  /** Live path p once the records in `done` have been handled. */
  function After(live: Files, store: Files, done: set<Path>, p: Path): Option<Bytes> {
    if p != [] && Key(store, p) in done then Undone(live, store, p) else Get(live, p)
  }

  ghost predicate Progress(live: Files, live0: Files, store: Files, done: set<Path>) {
    forall p :: Get(live, p) == After(live0, store, done, p)
  }

  lemma OneProgress(live: Files, live0: Files, store: Files, done: set<Path>, s: Path, outcome: Outcome)
    requires Progress(live, live0, store, done) && s in store && s != []
    requires RestoredOne(live, store, s, outcome).ok
    ensures Progress(RestoredOne(live, store, s, outcome).fs, live0, store, done + {s})
  {
    var live' := RestoredOne(live, store, s, outcome).fs;
    if EndsAbsent(s) { UnmarkedFacts(s); }
    forall p ensures Get(live', p) == After(live0, store, done + {s}, p) {
      assert Get(live, p) == After(live0, store, done, p);
      if p != [] {
        MarkerFacts(p);
        assert p == s && EndsAbsent(s) ==> p != Unmarked(s);
        assert p != Dest(s) ==> Get(live', p) == Get(live, p);
        if p != Dest(s) && Key(store, p) == s {
          assert p == s && EndsAbsent(p);
        }
      }
    }
  }

  /** The files a directory walk handles among its first entries. */
  function Entries(store: Files, d: Path, es: seq<string>): set<Path> {
    set s | s in store && s != [] && Parent(s) == d && !Hidden(Last(s)) && Last(s) in es
  }

  lemma EntriesStep(store: Files, d: Path, es: seq<string>)
    requires es != [] && TreeLike(store)
    ensures var e := es[|es| - 1];
            Entries(store, d, es) == Entries(store, d, es[..|es| - 1]) +
              (if !Hidden(e) && !IsDir(store, d + [e]) && d + [e] in store then {d + [e]} else {})
  {
    var e, front := es[|es| - 1], es[..|es| - 1];
    assert es == front + [e];
    assert Parent(d + [e]) == d && Last(d + [e]) == e;
    forall s | s in store && s != [] && Parent(s) == d && Last(s) == e ensures s == d + [e] {}
  }

  ghost predicate AllEntries(store: Files, d: Path, es: seq<string>) {
    forall e :: e in es ==> d + [e] in store || IsDir(store, d + [e])
  }

  lemma {:induction false} DirProgress(t: Tally, live0: Files, store: Files, d: Path, es: seq<string>, luck: Path -> Outcome, done: set<Path>)
    requires TreeLike(store) && AllEntries(store, d, es)
    requires t.failed == 0 ==> Progress(t.live, live0, store, done)
    ensures var r := DirRestored(t, store, d, es, luck);
            t.failed <= r.failed && (r.failed == 0 ==> Progress(r.live, live0, store, done + Entries(store, d, es)))
  {
    if es == [] {
      assert done + Entries(store, d, es) == done;
    } else {
      var n := |es| - 1;
      var before := DirRestored(t, store, d, es[..n], luck);
      DirProgress(t, live0, store, d, es[..n], luck, done);
      EntriesStep(store, d, es);
      var done' := done + Entries(store, d, es[..n]);
      if Hidden(es[n]) || IsDir(store, d + [es[n]]) {
        assert done + Entries(store, d, es) == done';
      } else {
        assert done + Entries(store, d, es) == done' + {d + [es[n]]};
        if DirRestored(t, store, d, es, luck).failed == 0 {
          OneProgress(before.live, live0, store, done', d + [es[n]], luck(d + [es[n]]));
        }
      }
    }
  }

  lemma NameCases(store: Files, d: Path, e: string)
    requires e in Names(store, d)
    ensures d + [e] in store || IsDir(store, d + [e])
  {
    var p :| p in store && Above(d, p) && p[|d|] == e;
    assert d + [e] <= p;
    if |p| == |d| + 1 { assert p == d + [e]; } else { assert Above(d + [e], p); }
  }

  /** The files that one listing handles. */
  lemma ListingEntries(store: Files, order: Order, d: Path)
    requires Lists(order)
    ensures AllEntries(store, d, Listing(store, order, d))
    ensures Entries(store, d, Listing(store, order, d)) == Handled(store, order, [d])
  {
    var es := Listing(store, order, d);
    assert Draws(es, Names(store, d));
    forall e | e in es ensures d + [e] in store || IsDir(store, d + [e]) { NameCases(store, d, e); }
  }

  lemma HandledMore(store: Files, order: Order, dirs: seq<Path>)
    requires dirs != []
    ensures var n := |dirs| - 1; Handled(store, order, dirs) == Handled(store, order, dirs[..n]) + Handled(store, order, [dirs[n]])
  {
    assert dirs == dirs[..|dirs| - 1] + [dirs[|dirs| - 1]];
  }

  lemma {:induction false} DirsProgress(live0: Files, store: Files, dirs: seq<Path>, ask: Answers)
    requires TreeLike(store) && Lists(ask.order)
    ensures var r := DirsRestored(Tally(live0, 0), store, dirs, ask);
            r.failed == 0 ==> Progress(r.live, live0, store, Handled(store, ask.order, dirs))
  {
    if dirs == [] {
      assert Handled(store, ask.order, dirs) == {};
    } else {
      var n := |dirs| - 1;
      DirsProgress(live0, store, dirs[..n], ask);
      ListingEntries(store, ask.order, dirs[n]);
      DirProgress(DirsRestored(Tally(live0, 0), store, dirs[..n], ask), live0, store, dirs[n],
        Listing(store, ask.order, dirs[n]), ask.luck, Handled(store, ask.order, dirs[..n]));
      HandledMore(store, ask.order, dirs);
    }
  }

  /** A successful rollback, of any store, has done to every live path exactly what the records that
      were listed say, and nothing to the others. */
  lemma RolledBackExactly(st: State, ask: Answers)
    requires TreeLike(st.store) && Lists(ask.order)
    ensures RolledBack(st, ask).ok ==>
      forall p :: Get(RolledBack(st, ask).st.live, p) == After(st.live, st.store, Listed(st.store, ask), p)
  {
    DirsProgress(st.live, st.store, Walk(st.store, ask), ask);
  }

  /** A second successful rollback that handles no other records changes nothing. */
  lemma RollbackTwice(st: State, ask: Answers, again: Answers)
    requires TreeLike(st.store) && Lists(ask.order) && Lists(again.order)
    requires Listed(st.store, again) <= Listed(st.store, ask)
    requires RolledBack(st, ask).ok && RolledBack(RolledBack(st, ask).st, again).ok
    ensures RolledBack(RolledBack(st, ask).st, again).st == RolledBack(st, ask).st
  {
    var first := RolledBack(st, ask).st;
    var second := RolledBack(first, again).st;
    RolledBackExactly(st, ask);
    RolledBackExactly(first, again);
    forall p ensures Get(second.live, p) == Get(first.live, p) {
      assert p != [] && Key(st.store, p) in Listed(st.store, again) ==> Key(st.store, p) in Listed(st.store, ask);
    }
    SameFiles(second.live, first.live);
  }

  // ------------------------------------------------------------ when a rollback succeeds

  /** A file is where a directory on the way to p should be. */
  predicate Blocked(fs: Files, p: Path) { exists q :: q in fs && Above(q, p) }

  /** Destinations that are not directories of one another or of original files. */
  ghost predicate Flat(all: set<Path>, orig: Files) {
    && (forall p, q :: p in all && q in all && p <= q ==> p == q)
    && (forall p :: p in all ==> !IsDir(orig, p))
  }

  /** Only these destinations differ from the original files. */
  ghost predicate Within(live: Files, orig: Files, all: set<Path>) {
    TreeLike(live) && forall p :: p !in all ==> Get(live, p) == Get(orig, p)
  }

  predicate Skips(store: Files, s: Path) { s != [] && !EndsAbsent(s) && Exists(store, Marker(s)) }

  lemma HoldsUnlessBlocked(live: Files, orig: Files, all: set<Path>, p: Path)
    requires Within(live, orig, all) && Flat(all, orig) && p in all
    ensures CanHold(live, p) <==> !Blocked(orig, p)
    ensures p in live ==> !Blocked(orig, p)
  {
    if Blocked(orig, p) {
      var q :| q in orig && Above(q, p);
      assert q !in all && Get(live, q) == Get(orig, q) && q in live;
    } else {
      forall q | q in live && (q <= p || p <= q) ensures q == p {
        if q !in all { assert Get(live, q) == Get(orig, q) && q in orig; }
      }
    }
  }

  /** Restoring one store file keeps to its destination, and without write errors it fails only if
      that destination is blocked. */
  lemma OneCounts(live: Files, store: Files, orig: Files, all: set<Path>, s: Path, outcome: Outcome)
    requires Within(live, orig, all) && Flat(all, orig) && s in store && Dest(s) in all
    ensures var c := RestoredOne(live, store, s, outcome);
            && Within(c.fs, orig, all) && (forall p :: p != Dest(s) ==> Get(c.fs, p) == Get(live, p))
            && (outcome.Done? ==> (c.ok <==> Skips(store, s) || !Blocked(orig, Dest(s))))
  {
    HoldsUnlessBlocked(live, orig, all, Dest(s));
  }

  /** No file of a directory fails. */
  ghost predicate Fine(store: Files, orig: Files, done: set<Path>) {
    forall s :: s in done ==> Skips(store, s) || !Blocked(orig, Dest(s))
  }

  lemma {:induction false} DirCounts(t: Tally, store: Files, orig: Files, all: set<Path>, d: Path, es: seq<string>, luck: Path -> Outcome)
    requires Within(t.live, orig, all) && Flat(all, orig) && TreeLike(store) && forall s :: s in store ==> Dest(s) in all
    requires AllEntries(store, d, es)
    ensures var r := DirRestored(t, store, d, es, luck);
            && Within(r.live, orig, all)
            && ((forall s :: luck(s).Done?) ==> (r.failed == 0 <==> t.failed == 0 && Fine(store, orig, Entries(store, d, es))))
  {
    if es != [] {
      var n := |es| - 1;
      DirCounts(t, store, orig, all, d, es[..n], luck);
      EntriesStep(store, d, es);
      if !Hidden(es[n]) && !IsDir(store, d + [es[n]]) {
        OneCounts(DirRestored(t, store, d, es[..n], luck).live, store, orig, all, d + [es[n]], luck(d + [es[n]]));
      }
    }
  }

  lemma {:induction false} DirsCount(live: Files, store: Files, orig: Files, all: set<Path>, dirs: seq<Path>, ask: Answers)
    requires Within(live, orig, all) && Flat(all, orig) && TreeLike(store) && forall s :: s in store ==> Dest(s) in all
    requires Lists(ask.order)
    ensures var r := DirsRestored(Tally(live, 0), store, dirs, ask);
            && Within(r.live, orig, all)
            && ((forall s :: ask.luck(s).Done?) ==> (r.failed == 0 <==> Fine(store, orig, Handled(store, ask.order, dirs))))
  {
    if dirs != [] {
      var n := |dirs| - 1;
      DirsCount(live, store, orig, all, dirs[..n], ask);
      ListingEntries(store, ask.order, dirs[n]);
      DirCounts(DirsRestored(Tally(live, 0), store, dirs[..n], ask), store, orig, all, dirs[n],
        Listing(store, ask.order, dirs[n]), ask.luck);
      HandledMore(store, ask.order, dirs);
    }
  }

  /** Without write errors a rollback succeeds exactly if there is a store and no original file is
      in the way of a destination whose record it handles. */
  lemma SucceedsExactly(st: State, ask: Answers, orig: Files, all: set<Path>)
    requires Within(st.live, orig, all) && Flat(all, orig) && TreeLike(st.store) && Lists(ask.order)
    requires (forall s :: s in st.store ==> Dest(s) in all) && forall s :: ask.luck(s).Done?
    ensures RolledBack(st, ask).ok <==>
      st.store != map[] && Fine(st.store, orig, Listed(st.store, ask))
  {
    DirsCount(st.live, st.store, orig, all, Walk(st.store, ask), ask);
  }

  // ------------------------------------------------------------ every run

  ghost function Records(store: Files, all: set<Path>): set<Path> { set p | p in all && Recorded(store, p) }

  /** What every install and every rollback, complete or failed, keeps: live files differ from the
      originals only where there is a record, and a record says what the original was. */
  ghost predicate Inv(st: State, orig: Files, all: set<Path>) {
    && Within(st.live, orig, Records(st.store, all)) && TreeLike(st.store)
    && (forall s :: s in st.store ==> Dest(s) in all)
    && (forall p :: p in Records(st.store, all) ==> p != [] && Faithful(st.store, orig, p))
  }

  lemma InvStart(files: Files, all: set<Path>)
    requires TreeLike(files)
    ensures Inv(State(files, map[]), files, all)
  {
  }

  /** No directory sits where a record or a destination belongs. */
  lemma NoDirectory(st: State, orig: Files, all: set<Path>, dst: Path)
    requires Inv(st, orig, all) && Clear(all) && Flat(all, orig) && dst in all
    ensures !IsDir(st.live, dst) && !IsDir(st.store, dst) && !IsDir(st.store, Marker(dst))
    ensures dst in st.store ==> Recorded(st.store, dst)
  {
    forall q | q in st.live && dst <= q ensures |q| <= |dst| {
      if q !in all { assert Get(st.live, q) == Get(orig, q) && q in orig; }
    }
    forall s | s in st.store ensures !Above(dst, s) && !Above(Marker(dst), s) {
      if EndsAbsent(s) { UnmarkedFacts(s); }
      assert Dest(s) in all && (Above(dst, s) ==> Above(dst, Dest(s)));
      assert Above(Marker(dst), s) ==> Above(Marker(dst), Dest(s));
    }
  }

  /** Writing the record files of one destination leaves the other records alone. */
  lemma OtherRecords(store: Files, store': Files, orig: Files, all: set<Path>, dst: Path)
    requires Clear(all) && dst in all
    requires forall s :: s != dst && s != Marker(dst) ==> Get(store', s) == Get(store, s)
    ensures forall p :: p in all && p != dst ==>
      (Recorded(store', p) <==> Recorded(store, p)) && (Faithful(store', orig, p) <==> Faithful(store, orig, p))
  {
    MarkerFacts(dst);
    forall p | p in all && p != dst
      ensures (Recorded(store', p) <==> Recorded(store, p)) && (Faithful(store', orig, p) <==> Faithful(store, orig, p))
    {
      MarkerFacts(p);
      assert Get(store', p) == Get(store, p) && Get(store', Marker(p)) == Get(store, Marker(p));
    }
  }

  /** New record files of a destination that had none keep the invariant if they are faithful. */
  lemma RecordKeeps(st: State, store': Files, orig: Files, all: set<Path>, dst: Path)
    requires Inv(st, orig, all) && Clear(all) && dst in all && !Recorded(st.store, dst) && TreeLike(store')
    requires forall s :: s != dst && s != Marker(dst) ==> Get(store', s) == Get(st.store, s)
    requires Recorded(store', dst) ==> Faithful(store', orig, dst)
    ensures Inv(st.(store := store'), orig, all)
  {
    OtherRecords(st.store, store', orig, all, dst);
    MarkerFacts(dst);
    forall s | s in store' ensures Dest(s) in all {
      if s != dst && s != Marker(dst) { assert Get(store', s) == Get(st.store, s); }
    }
    assert Records(st.store, all) <= Records(store', all);
  }

  lemma MarkerFits(store: Files, dst: Path)
    requires dst != [] && TreeLike(store) && CanHold(store, dst) && !IsDir(store, Marker(dst))
    ensures CanHold(store[dst := []], Marker(dst)) && TreeLike(store[dst := []])
    ensures TreeLike(store[dst := []][Marker(dst) := MARK])
  {
    var m := Marker(dst);
    MarkerFacts(dst);
    assert forall q: Path :: q <= m && |q| < |m| ==> q <= dst;
    forall q | q in store && m <= q ensures q == m { assert |q| > |m| ==> Above(m, q); }
  }

  /** snapshot_before leaves the live files alone and records only dst. */
  lemma SnapshotKeeps(st: State, orig: Files, all: set<Path>, dst: Path, l: Luck)
    requires Inv(st, orig, all) && Clear(all) && Flat(all, orig) && dst in all && AllOrNothing(l)
    ensures var r := Snapped(st, dst, l);
            r.st.live == st.live && Inv(r.st, orig, all) && (r.ok ==> Recorded(r.st.store, dst))
  {
    hide Copied, TreeLike, Faithful, Above;
    var r := Snapped(st, dst, l);
    NoDirectory(st, orig, all, dst);
    MarkerFacts(dst);
    if !Recorded(st.store, dst) {
      assert Get(st.live, dst) == Get(orig, dst);
      if dst in st.live {
        SnapshotPresent(st, orig, all, dst, l);
      } else {
        SnapshotAbsent(st, orig, all, dst, l);
      }
    }
  }

  lemma SnapshotPresent(st: State, orig: Files, all: set<Path>, dst: Path, l: Luck)
    requires Inv(st, orig, all) && Clear(all) && dst in all && AllOrNothing(l)
    requires !Exists(st.store, dst) && !Exists(st.store, Marker(dst)) && dst in st.live && Get(st.live, dst) == Get(orig, dst)
    ensures var r := Snapped(st, dst, l); Inv(r.st, orig, all) && (r.ok ==> Recorded(r.st.store, dst))
  {
    MarkerFacts(dst);
    var c := Copied(st.store, Some(st.live[dst]), dst, l.snap);
    if c.ok { RecordKeeps(st, c.fs, orig, all, dst); }
  }

  lemma SnapshotAbsent(st: State, orig: Files, all: set<Path>, dst: Path, l: Luck)
    requires Inv(st, orig, all) && Clear(all) && dst in all && AllOrNothing(l)
    requires !Exists(st.store, dst) && !Exists(st.store, Marker(dst)) && !Exists(st.live, dst) && dst !in orig
    ensures var r := Snapped(st, dst, l); Inv(r.st, orig, all) && (r.ok ==> Recorded(r.st.store, dst))
  {
    MarkerFacts(dst);
    assert TreeLike(st.store);
    hide Inv, Clear, Above;
    var c := Copied(st.store, Some([]), dst, l.snap);
    if c.ok {
      MarkerFits(st.store, dst);
      RecordKeeps(st, Copied(c.fs, Some(MARK), Marker(dst), l.mark).fs, orig, all, dst);
    }
  }

  /** The snapshot comes first, so the copy only changes recorded destinations. */
  lemma PlacedKeeps(st: State, orig: Files, all: set<Path>, dst: Path, bytes: Option<Bytes>, l: Luck)
    requires Inv(st, orig, all) && Clear(all) && Flat(all, orig) && dst in all && AllOrNothing(l)
    ensures Inv(Placed(st, dst, bytes, l).st, orig, all)
  {
    SnapshotKeeps(st, orig, all, dst, l);
    var s := Snapped(st, dst, l);
    if s.ok { CopyKeeps(s.st, orig, all, dst, bytes, l.write); }
  }

  lemma CopyKeeps(st: State, orig: Files, all: set<Path>, dst: Path, bytes: Option<Bytes>, outcome: Outcome)
    requires Inv(st, orig, all) && dst in all && Recorded(st.store, dst)
    ensures Inv(st.(live := Copied(st.live, bytes, dst, outcome).fs), orig, all)
  {
    hide Faithful, Recorded;
  }

  lemma {:induction false} ItemsKeep(st: State, orig: Files, all: set<Path>, items: seq<Item>)
    requires Inv(st, orig, all) && Clear(all) && Flat(all, orig) && Dests(items) <= all
    requires WellNamed(items) && Careful(items)
    ensures Inv(ItemsPut(st, items).st, orig, all)
  {
    hide Inv, Clear, Flat, Placed;
    if items != [] {
      var n := |items| - 1;
      var r := ItemsPut(st, items[..n]);
      ItemsKeep(st, orig, all, items[..n]);
      if r.ok {
        var item := items[n];
        PlacedKeeps(r.st, orig, all, item.dst, item.bytes, item.luck);
        if item.early.Some? {
          PlacedKeeps(Placed(r.st, item.dst, item.bytes, item.luck).st, orig, all, item.early.value, item.bytes, item.earlyLuck);
        }
      }
    }
  }

  /** Rolling back, complete or not, keeps to recorded destinations. */
  lemma RollbackKeeps(st: State, orig: Files, all: set<Path>, ask: Answers)
    requires Inv(st, orig, all) && Clear(all) && Flat(all, orig) && Lists(ask.order)
    ensures Inv(RolledBack(st, ask).st, orig, all)
  {
    var recorded := Records(st.store, all);
    forall s | s in st.store ensures Dest(s) in recorded { if EndsAbsent(s) { UnmarkedFacts(s); } }
    DirsCount(st.live, st.store, orig, recorded, Walk(st.store, ask), ask);
  }

  /** One destination changes that live file and its record files, and no record that exists. */
  lemma PlacedFrame(st: State, dst: Path, bytes: Option<Bytes>, l: Luck)
    requires dst != []
    ensures var r := Placed(st, dst, bytes, l).st;
            && (forall p :: p != dst ==> Get(r.live, p) == Get(st.live, p))
            && (forall s :: s in st.store ==> s in r.store && r.store[s] == st.store[s])
  {
    SnapshotFrame(st, dst, l);
    hide Snapped;
  }

  lemma SnapshotFrame(st: State, dst: Path, l: Luck)
    requires dst != []
    ensures var r := Snapped(st, dst, l).st;
            r.live == st.live && forall s :: s in st.store ==> s in r.store && r.store[s] == st.store[s]
  {
    MarkerFacts(dst);
  }

  /** Whatever an installation does and however it ends, it changes no live file but its
      destinations, and a record once written stays as it is. */
  lemma {:induction false} InstallFrame(st: State, items: seq<Item>, verified: bool)
    requires WellNamed(items)
    ensures var r := Installed(st, items, verified).st;
            && (forall p :: p !in Dests(items) ==> Get(r.live, p) == Get(st.live, p))
            && (forall s :: s in st.store ==> s in r.store && r.store[s] == st.store[s])
    ensures !verified ==> Installed(st, items, verified) == Step(false, st)
    decreases |items|
  {
    hide Placed;
    if verified && items != [] {
      var n := |items| - 1;
      var r, item := ItemsPut(st, items[..n]), items[n];
      InstallFrame(st, items[..n], true);
      PlacedFrame(r.st, item.dst, item.bytes, item.luck);
      if item.early.Some? {
        PlacedFrame(Placed(r.st, item.dst, item.bytes, item.luck).st, item.early.value, item.bytes, item.earlyLuck);
      }
    }
  }

  // ------------------------------------------------------------ what an installation writes

  /** The item writes p, as its destination or as its early-load copy. */
  predicate Writes(item: Item, p: Path) { item.dst == p || item.early == Some(p) }

  /** Item i is the last one that writes p. */
  predicate LastWrites(items: seq<Item>, i: int, p: Path) {
    0 <= i < |items| && Writes(items[i], p) && forall j :: i < j < |items| ==> !Writes(items[j], p)
  }

  lemma {:induction false} DestsAre(items: seq<Item>, p: Path)
    ensures p in Dests(items) <==> exists i :: LastWrites(items, i, p)
  {
    if items != [] {
      var n := |items| - 1;
      var front := items[..n];
      DestsAre(front, p);
      if Writes(items[n], p) { assert LastWrites(items, n, p); }
      forall i | i < n && !Writes(items[n], p) ensures LastWrites(items, i, p) <==> LastWrites(front, i, p) { }
    }
  }

  lemma PlacedWrites(st: State, dst: Path, bytes: Option<Bytes>, l: Luck)
    requires dst != [] && Placed(st, dst, bytes, l).ok
    ensures bytes.Some? && Get(Placed(st, dst, bytes, l).st.live, dst) == bytes
  {
    hide Snapped;
  }

  lemma ItemWrites(st: State, item: Item, p: Path)
    requires ItemNamed(item) && ItemPut(st, item).ok
    ensures var live := ItemPut(st, item).st.live;
            item.bytes.Some? && Get(live, p) == if Writes(item, p) then item.bytes else Get(st.live, p)
  {
    var r := Placed(st, item.dst, item.bytes, item.luck);
    hide Placed;
    PlacedWrites(st, item.dst, item.bytes, item.luck);
    PlacedFrame(st, item.dst, item.bytes, item.luck);
    if item.early.Some? {
      PlacedWrites(r.st, item.early.value, item.bytes, item.earlyLuck);
      PlacedFrame(r.st, item.early.value, item.bytes, item.earlyLuck);
    }
  }

  /** After a successful installation every destination, early-load copies included, holds the bytes of
      the last item that writes it. */
  lemma {:induction false} InstallDelivers(st: State, items: seq<Item>)
    requires WellNamed(items) && Installed(st, items, true).ok
    ensures var live := Installed(st, items, true).st.live;
            forall p, i :: LastWrites(items, i, p) ==> items[i].bytes.Some? && Get(live, p) == items[i].bytes
    decreases |items|
  {
    if items != [] {
      var n := |items| - 1;
      var front := items[..n];
      InstallDelivers(st, front);
      var was := ItemsPut(st, front).st;
      forall p, i | LastWrites(items, i, p)
        ensures items[i].bytes.Some? && Get(ItemPut(was, items[n]).st.live, p) == items[i].bytes
      {
        ItemWrites(was, items[n], p);
        if i < n { assert LastWrites(front, i, p); }
      }
    }
  }

  predicate AllDone(l: Luck) { l.snap.Done? && l.mark.Done? && l.write.Done? }

  /** No write of the installation fails by itself. */
  predicate Smooth(items: seq<Item>) {
    forall i :: 0 <= i < |items| ==> AllDone(items[i].luck) && AllDone(items[i].earlyLuck)
  }

  /** The item can be read and no original file is in the way of its destinations. */
  ghost predicate Installable(orig: Files, item: Item) {
    item.bytes.Some? && !Blocked(orig, item.dst) && (item.early.Some? ==> !Blocked(orig, item.early.value))
  }

  /** A record always finds room in the store. */
  lemma RecordFits(st: State, orig: Files, all: set<Path>, dst: Path)
    requires Inv(st, orig, all) && Clear(all) && Flat(all, orig) && dst in all
    ensures CanHold(st.store, dst)
  {
    NoDirectory(st, orig, all, dst);
    forall q | q in st.store && (q <= dst || dst <= q) ensures q == dst {
      assert Dest(q) in all;
      if EndsAbsent(q) { UnmarkedFacts(q); }
    }
  }

  lemma PlacedSucceeds(st: State, orig: Files, all: set<Path>, dst: Path, bytes: Option<Bytes>, l: Luck)
    requires Inv(st, orig, all) && Clear(all) && Flat(all, orig) && dst in all && AllDone(l)
    ensures Placed(st, dst, bytes, l).ok <==> bytes.Some? && !Blocked(orig, dst)
  {
    RecordFits(st, orig, all, dst);
    NoDirectory(st, orig, all, dst);
    WithinMore(st, orig, all);
    HoldsUnlessBlocked(st.live, orig, all, dst);
    hide CanHold, Inv, Clear, Flat, Within, Blocked;
    SnapshotKeeps(st, orig, all, dst, l);
  }

  /** Without write errors an installation succeeds exactly if every item can be read and no original
      file is in the way. */
  lemma {:induction false} InstallSucceedsExactly(st: State, orig: Files, all: set<Path>, items: seq<Item>)
    requires Inv(st, orig, all) && Clear(all) && Flat(all, orig) && Dests(items) <= all && WellNamed(items) && Smooth(items)
    ensures Installed(st, items, true).ok <==> forall i :: 0 <= i < |items| ==> Installable(orig, items[i])
    decreases |items|
  {
    hide Inv, Clear, Flat, Placed, Blocked;
    if items != [] {
      var n := |items| - 1;
      var front, item := items[..n], items[n];
      InstallSucceedsExactly(st, orig, all, front);
      ItemsKeep(st, orig, all, front);
      var r := ItemsPut(st, front);
      if r.ok {
        PlacedSucceeds(r.st, orig, all, item.dst, item.bytes, item.luck);
        PlacedKeeps(r.st, orig, all, item.dst, item.bytes, item.luck);
        if item.early.Some? {
          PlacedSucceeds(Placed(r.st, item.dst, item.bytes, item.luck).st, orig, all, item.early.value, item.bytes, item.earlyLuck);
        }
      }
      assert forall i :: 0 <= i < n ==> front[i] == items[i];
    }
  }

  /** One administrative action: install a package, or roll back. */
  datatype Action = Put(items: seq<Item>, verified: bool) | Undo(ask: Answers)

  ghost predicate Sound(a: Action) {
    match a
    case Put(items, _) => WellNamed(items)
    case Undo(ask) => Lists(ask.order)
  }

  ghost function Acted(st: State, a: Action): (r: Step)
    requires Sound(a)
  {
    match a
    case Put(items, verified) => Installed(st, items, verified)
    case Undo(ask) => RolledBack(st, ask)
  }

  ghost predicate AllSound(actions: seq<Action>) { forall i :: 0 <= i < |actions| ==> Sound(actions[i]) }

  predicate AllCareful(actions: seq<Action>) {
    forall i :: 0 <= i < |actions| ==> (actions[i].Put? ==> Careful(actions[i].items))
  }

  ghost function Ran(st: State, actions: seq<Action>): State
    requires AllSound(actions)
  {
    if actions == [] then st else Acted(Ran(st, actions[..|actions| - 1]), actions[|actions| - 1]).st
  }

  ghost function AllDests(actions: seq<Action>): set<Path> {
    if actions == [] then {}
    else AllDests(actions[..|actions| - 1]) +
         (if actions[|actions| - 1].Put? then Dests(actions[|actions| - 1].items) else {})
  }

  lemma {:induction false} RunKeeps(files: Files, actions: seq<Action>, all: set<Path>)
    requires TreeLike(files) && Clear(all) && Flat(all, files) && AllDests(actions) <= all
    requires AllSound(actions) && AllCareful(actions)
    ensures Inv(Ran(State(files, map[]), actions), files, all)
  {
    hide Inv, Clear, Flat, RolledBack;
    if actions == [] {
      InvStart(files, all);
    } else {
      var n := |actions| - 1;
      var st := Ran(State(files, map[]), actions[..n]);
      RunKeeps(files, actions[..n], all);
      match actions[n]
      case Put(items, verified) => if verified { ItemsKeep(st, files, all, items); }
      case Undo(ask) => RollbackKeeps(st, files, all, ask);
    }
  }

  /** The walk comes to the record that decides p. */
  ghost predicate Heeded(store: Files, ask: Answers, p: Path) { p != [] && Key(store, p) in Listed(store, ask) }

  /** After any installs and rollbacks, complete or failed, a successful rollback gives back exactly
      the files there were at the start if and only if every destination whose record the walk did
      not come to still held its original. */
  lemma RunRestoresExactly(files: Files, actions: seq<Action>, ask: Answers)
    requires TreeLike(files) && AllSound(actions) && AllCareful(actions) && Lists(ask.order)
    requires Clear(AllDests(actions)) && Flat(AllDests(actions), files)
    ensures var st := Ran(State(files, map[]), actions);
            RolledBack(st, ask).ok ==> (RolledBack(st, ask).st.live == files <==>
              forall p :: p in AllDests(actions) && !Heeded(st.store, ask, p) ==> Get(st.live, p) == Get(files, p))
  {
    var all, st := AllDests(actions), Ran(State(files, map[]), actions);
    RunKeeps(files, actions, all);
    if RolledBack(st, ask).ok { RestoresExactly(st, files, all, ask); }
  }

  lemma RestoresExactly(st: State, orig: Files, all: set<Path>, ask: Answers)
    requires Inv(st, orig, all) && Clear(all) && Flat(all, orig) && Lists(ask.order) && RolledBack(st, ask).ok
    ensures RolledBack(st, ask).st.live == orig <==>
      forall p :: p in all && !Heeded(st.store, ask, p) ==> Get(st.live, p) == Get(orig, p)
  {
    var live := RolledBack(st, ask).st.live;
    RolledBackExactly(st, ask);
    forall p
      ensures Get(live, p) == if p in all && Heeded(st.store, ask, p) then Get(orig, p) else Get(st.live, p)
    {
      RestoredPath(st, orig, all, ask, p);
    }
    if forall p :: p in all && !Heeded(st.store, ask, p) ==> Get(st.live, p) == Get(orig, p) {
      SameFiles(live, orig);
    }
  }

  lemma RestoredPath(st: State, orig: Files, all: set<Path>, ask: Answers, p: Path)
    requires Inv(st, orig, all) && Clear(all) && Flat(all, orig)
    ensures After(st.live, st.store, Listed(st.store, ask), p) ==
      if p in all && Heeded(st.store, ask, p) then Get(orig, p) else Get(st.live, p)
  {
    var done := Listed(st.store, ask);
    if p != [] { MarkerFacts(p); }
    if p in all {
      NoDirectory(st, orig, all, p);
      if Recorded(st.store, p) { UndoneIffFaithful(st.live, st.store, orig, p); }
      assert !Hidden(Last(p)) && !Hidden(Last(Marker(p)));
    } else if p != [] && Key(st.store, p) in done {
      assert Dest(Key(st.store, p)) in all;
    }
  }

  /** In particular, if everything opens, is listed in full and finds room on the stack, all is restored. */
  lemma RunRestores(files: Files, actions: seq<Action>, ask: Answers)
    requires TreeLike(files) && AllSound(actions) && AllCareful(actions) && ListsFully(ask.order)
    requires Clear(AllDests(actions)) && Flat(AllDests(actions), files)
    requires var st := Ran(State(files, map[]), actions);
             RolledBack(st, ask).ok && (forall d :: ask.opens(d)) && Roomy(st.store, ask.opens)
    ensures RolledBack(Ran(State(files, map[]), actions), ask).st.live == files
  {
    var all, st := AllDests(actions), Ran(State(files, map[]), actions);
    RunKeeps(files, actions, all);
    FullyLists(ask.order);
    RunRestoresExactly(files, actions, ask);
    OpenListsRecords(st, files, all, ask);
    hide Inv, RolledBack, Ran, Walk, AllDests, Clear, Flat, Roomy, AllSound, AllCareful, Lists;
  }

  /** If everything opens and finds room, every record is come to. */
  lemma OpenHeeds(st: State, orig: Files, all: set<Path>, ask: Answers, p: Path)
    requires Inv(st, orig, all) && Clear(all) && ListsFully(ask.order) && (forall d :: ask.opens(d)) && Roomy(st.store, ask.opens)
    requires p in all && Recorded(st.store, p)
    ensures Heeded(st.store, ask, p)
  {
    MarkerFacts(p);
    var s, d := Key(st.store, p), Parent(p);
    RoomyListsAll(st.store, ask.opens, ask.order);
    assert Above(d, s) && s[|d|] == Last(s) && Last(s) in Names(st.store, d);
    assert Reachable(st.store, ask.opens, d);
    assert Enumerates(Listing(st.store, ask.order, d), Names(st.store, d));
  }

  lemma OpenListsRecords(st: State, orig: Files, all: set<Path>, ask: Answers)
    requires Inv(st, orig, all) && Clear(all) && ListsFully(ask.order) && (forall d :: ask.opens(d)) && Roomy(st.store, ask.opens)
    ensures forall p :: p in all && !Heeded(st.store, ask, p) ==> Get(st.live, p) == Get(orig, p)
  {
    forall p | p in all && !Heeded(st.store, ask, p) ensures Get(st.live, p) == Get(orig, p) {
      if Recorded(st.store, p) { OpenHeeds(st, orig, all, ask, p); }
    }
  }

  /** Without write errors that rollback succeeds exactly if there is something to roll back and no
      original file is in the way of a destination whose record it handles. */
  lemma RunSucceedsExactly(files: Files, actions: seq<Action>, ask: Answers)
    requires TreeLike(files) && AllSound(actions) && AllCareful(actions) && Lists(ask.order)
    requires Clear(AllDests(actions)) && Flat(AllDests(actions), files) && forall s :: ask.luck(s).Done?
    ensures var st := Ran(State(files, map[]), actions);
            RolledBack(st, ask).ok <==> st.store != map[] && forall p ::
              p in AllDests(actions) && Heeded(st.store, ask, p) ==> !Blocked(files, p)
  {
    var all, st := AllDests(actions), Ran(State(files, map[]), actions);
    RunKeeps(files, actions, all);
    hide RolledBack, Walk, Clear, Inv;
    WithinMore(st, files, all);
    SucceedsExactly(st, ask, files, all);
    FineExactly(st, files, all, Listed(st.store, ask));
  }

  lemma WithinMore(st: State, orig: Files, all: set<Path>)
    requires Inv(st, orig, all)
    ensures Within(st.live, orig, all) && TreeLike(st.store) && forall s :: s in st.store ==> Dest(s) in all
  {
  }

  lemma FineExactly(st: State, orig: Files, all: set<Path>, done: set<Path>)
    requires Inv(st, orig, all) && Clear(all) && Flat(all, orig) && TreeLike(orig) && done <= st.store.Keys
    ensures Fine(st.store, orig, done) <==>
      forall p :: p in all && p != [] && Key(st.store, p) in done ==> !Blocked(orig, p)
  {
    if Fine(st.store, orig, done) {
      forall p | p in all && p != [] && Key(st.store, p) in done ensures !Blocked(orig, p) {
        MarkerFacts(p);
        NoDirectory(st, orig, all, p);
        var s := Key(st.store, p);
        assert p in Records(st.store, all) && Dest(s) == p && !Skips(st.store, s);
      }
    } else {
      var s :| s in done && !(Skips(st.store, s) || !Blocked(orig, Dest(s)));
      if EndsAbsent(s) { UnmarkedFacts(s); }
      assert Dest(s) in all && Key(st.store, Dest(s)) == s;
    }
  }

  // ------------------------------------------------------------ in place

  lemma ItemsStep(st: State, items: seq<Item>, i: nat)
    requires WellNamed(items) && i < |items|
    ensures ItemsPut(st, items[..i + 1]) ==
      if ItemsPut(st, items[..i]).ok then ItemPut(ItemsPut(st, items[..i]).st, items[i]) else ItemsPut(st, items[..i])
  {
    assert items[..i + 1][..i] == items[..i];
  }

  /** Once a file has failed, the rest of the package is not looked at. */
  lemma {:induction false} ItemsStop(st: State, items: seq<Item>, i: nat)
    requires WellNamed(items) && i <= |items| && !ItemsPut(st, items[..i]).ok
    ensures ItemsPut(st, items) == ItemsPut(st, items[..i])
  {
    if i < |items| {
      assert items[..|items| - 1][..i] == items[..i];
      ItemsStop(st, items[..|items| - 1], i);
    } else {
      assert items[..i] == items;
    }
  }

  /** Between two directories of the walk: what has been listed, and what the stack still holds. */
  ghost predicate Walking(st: State, ask: Answers, t: Tally, stack: seq<Path>, listed: seq<Path>, left: set<Path>) {
    && |stack| <= MAX_STACK && Ready(st.store, stack, left)
    && Walk(st.store, ask) == listed + Visits(st.store, ask.opens, ask.order, stack, left)
    && t == DirsRestored(Tally(st.live, 0), st.store, listed, ask)
  }

  lemma NothingStored(st: State, ask: Answers)
    requires |st.store| == 0
    ensures RolledBack(st, ask) == Step(false, st)
  {
    assert st.store == map[];
  }

  lemma WalkStarts(st: State, ask: Answers)
    ensures Walking(st, ask, Tally(st.live, 0), [[]], [], Dirs(st.store))
  {
    ReadyStart(st.store);
    assert Walk(st.store, ask) == [] + Walk(st.store, ask);
  }

  lemma VisitsNext(store: Files, opens: Path -> bool, order: Order, stack: seq<Path>, left: set<Path>, listed: seq<Path>)
    requires stack != [] && stack[|stack| - 1] in left
    ensures var d := stack[|stack| - 1];
            listed + Visits(store, opens, order, stack, left) ==
              (if opens(d) then listed + [d] else listed) + Visits(store, opens, order, Next(store, opens, order, stack), left - {d})
  {
    hide Next;
    var d := stack[|stack| - 1];
    var more := Visits(store, opens, order, Next(store, opens, order, stack), left - {d});
    assert listed + ([d] + more) == listed + [d] + more;
    assert [] + more == more;
  }

  lemma DirsNext(t: Tally, store: Files, listed: seq<Path>, d: Path, ask: Answers)
    ensures DirsRestored(t, store, listed + [d], ask) ==
      DirRestored(DirsRestored(t, store, listed, ask), store, d, Listing(store, ask.order, d), ask.luck)
  {
    assert (listed + [d])[..|listed|] == listed;
  }

  lemma NextFits(store: Files, opens: Path -> bool, order: Order, stack: seq<Path>)
    requires stack != [] && |stack| <= MAX_STACK
    ensures |Next(store, opens, order, stack)| <= MAX_STACK
  {
  }

  lemma WalkSteps(st: State, ask: Answers, t: Tally, stack: seq<Path>, listed: seq<Path>, left: set<Path>)
    requires Walking(st, ask, t, stack, listed, left) && stack != [] && Lists(ask.order)
    ensures var d := stack[|stack| - 1];
            && d in left
            && Walking(st, ask, if ask.opens(d) then DirRestored(t, st.store, d, Listing(st.store, ask.order, d), ask.luck) else t,
                 Next(st.store, ask.opens, ask.order, stack), if ask.opens(d) then listed + [d] else listed, left - {d})
  {
    hide Ready, Next, DirRestored, DirsRestored, Lists, Visits, Listing, Walk, Dirs;
    NextReady(st.store, ask.opens, ask.order, stack, left);
    NextFits(st.store, ask.opens, ask.order, stack);
    VisitsNext(st.store, ask.opens, ask.order, stack, left, listed);
    DirsNext(Tally(st.live, 0), st.store, listed, stack[|stack| - 1], ask);
  }

  lemma StackFits(st: State, ask: Answers, t: Tally, stack: seq<Path>, listed: seq<Path>, left: set<Path>)
    requires Walking(st, ask, t, stack, listed, left)
    ensures |stack| <= MAX_STACK
  {
  }

  lemma WalkEnds(st: State, ask: Answers, t: Tally, listed: seq<Path>, left: set<Path>)
    requires Walking(st, ask, t, [], listed, left) && st.store != map[]
    ensures RolledBack(st, ask) == Step(t.failed == 0, st.(live := t.live))
  {
    assert Walk(st.store, ask) == listed;
  }

  class Machine {
    var live: Files
    var store: Files

    ghost function View(): State
      reads this
    {
      State(live, store)
    }

    constructor (files: Files)
      ensures View() == State(files, map[])
    {
      live, store := files, map[];
    }

    /** snapshot_before, in place. */
    method SnapshotBefore(dst: Path, l: Luck) returns (ok: bool)
      requires dst != []
      modifies this`store
      ensures Step(ok, View()) == Snapped(old(View()), dst, l)
    {
      if Exists(store, dst) || Exists(store, Marker(dst)) { return true; }
      if dst in live {
        var c := Copied(store, Some(live[dst]), dst, l.snap);
        store := c.fs;
        return c.ok;
      }
      var c := Copied(store, Some([]), dst, l.snap);
      store := c.fs;
      if IsDir(live, dst) || !c.ok { return false; }
      store := Copied(store, Some(MARK), Marker(dst), l.mark).fs;
      return true;
    }

    /** One file of drv_install_package: the snapshot, then the copy. */
    method InstallFile(dst: Path, bytes: Option<Bytes>, l: Luck) returns (ok: bool)
      requires dst != []
      modifies this
      ensures Step(ok, View()) == Placed(old(View()), dst, bytes, l)
    {
      ok := SnapshotBefore(dst, l);
      if !ok { return; }
      var c := Copied(live, bytes, dst, l.write);
      live := c.fs;
      ok := c.ok;
    }

    /** drv_install_package: nothing without verification; then file by file until one fails. A
        microcode file is also copied to its early-load place. */
    method Install(items: seq<Item>, verified: bool) returns (ok: bool)
      requires WellNamed(items)
      modifies this
      ensures Step(ok, View()) == Installed(old(View()), items, verified)
      ensures ok ==> forall p, i :: LastWrites(items, i, p) ==> Get(live, p) == items[i].bytes
    {
      if !verified { return false; }
      ok := true;
      ghost var st := View();
      for i := 0 to |items|
        invariant ok && Step(ok, View()) == ItemsPut(st, items[..i])
      {
        ItemsStep(st, items, i);
        ok := InstallItem(items[i]);
        if !ok { ItemsStop(st, items, i + 1); return; }
      }
      assert items[..|items|] == items;
      InstallDelivers(st, items);
    }

    method InstallItem(item: Item) returns (ok: bool)
      requires ItemNamed(item)
      modifies this
      ensures Step(ok, View()) == ItemPut(old(View()), item)
    {
      ok := InstallFile(item.dst, item.bytes, item.luck);
      if ok && item.early.Some? { ok := InstallFile(item.early.value, item.bytes, item.earlyLuck); }
    }

    /** One store file of the rollback walk: a marker removes its destination, a snapshot without
        a marker is copied back. */
    method Restore(s: Path, outcome: Outcome) returns (ok: bool)
      modifies this`live
      ensures Copy(ok, live) == RestoredOne(old(live), store, s, outcome)
    {
      var c := RestoredOne(live, store, s, outcome);
      live := c.fs;
      ok := c.ok;
    }

    /** The entries of one directory: files are restored, directories pushed while there is room. */
    method WalkDir(d: Path, stack0: seq<Path>, ask: Answers, failed0: nat) returns (stack: seq<Path>, failed: nat)
      requires |stack0| <= MAX_STACK
      modifies this`live
      ensures stack == Capped(stack0 + Subdirs(store, d, Listing(store, ask.order, d)))
      ensures Tally(live, failed) == DirRestored(Tally(old(live), failed0), store, d, Listing(store, ask.order, d), ask.luck)
    {
      hide IsDir, Hidden, RestoredOne, Names;
      var es := Listing(store, ask.order, d);
      stack, failed := stack0, failed0;
      for i := 0 to |es|
        invariant stack == Capped(stack0 + Subdirs(store, d, es[..i]))
        invariant Tally(live, failed) == DirRestored(Tally(old(live), failed0), store, d, es[..i], ask.luck)
      {
        assert es[..i + 1][..i] == es[..i];
        var path := d + [es[i]];
        if Hidden(es[i]) {
        } else if IsDir(store, path) {
          if |stack| < MAX_STACK { stack := stack + [path]; }
        } else {
          var ok := Restore(path, ask.luck(path));
          if !ok { failed := failed + 1; }
        }
      }
      assert es[..|es|] == es;
    }

    /** drv_rollback: walk the whole store from its root, with a stack of directories. One that
        does not open is skipped. Success means no write failed. */
    method Rollback(ask: Answers) returns (ok: bool)
      requires Lists(ask.order)
      modifies this`live
      ensures Step(ok, View()) == RolledBack(old(View()), ask)
    {
      hide Walking, Capped, Subdirs, Listing, DirRestored, RolledBack, Lists, Dirs;
      if |store| == 0 {
        NothingStored(View(), ask);
        return false;
      }
      var stack: seq<Path>, failed: nat := [[]], 0;
      ghost var st, listed: seq<Path>, left := View(), [], Dirs(store);
      WalkStarts(st, ask);
      while stack != []
        invariant Walking(st, ask, Tally(live, failed), stack, listed, left)
        decreases left
      {
        var d, rest := stack[|stack| - 1], stack[..|stack| - 1];
        WalkSteps(st, ask, Tally(live, failed), stack, listed, left);
        assert |rest| <= MAX_STACK by { StackFits(st, ask, Tally(live, failed), stack, listed, left); }
        if ask.opens(d) {
          stack, failed := WalkDir(d, rest, ask, failed);
          listed := listed + [d];
        } else {
          stack := rest;
        }
        left := left - {d};
      }
      WalkEnds(st, ask, Tally(live, failed), listed, left);
      ok := failed == 0;
    }
  }

  /** Any installs and rollbacks from an empty store, then a rollback: the machine ends in the state
      the actions lead to. If the rollback succeeds, no record write was cut short and the
      destinations are clear, the live files are the first ones exactly if every destination whose
      record was not come to still held its original. */
  method AnyRunThenRollback(files: Files, actions: seq<Action>, ask: Answers) returns (m: Machine, ok: bool)
    requires TreeLike(files) && AllSound(actions) && Lists(ask.order)
    ensures fresh(m) && Step(ok, m.View()) == RolledBack(Ran(State(files, map[]), actions), ask)
    ensures ok && AllCareful(actions) && Clear(AllDests(actions)) && Flat(AllDests(actions), files) ==>
      var before := Ran(State(files, map[]), actions);
      (m.live == files <==>
        forall p :: p in AllDests(actions) && !Heeded(m.store, ask, p) ==> Get(before.live, p) == Get(files, p))
  {
    m := new Machine(files);
    ghost var start := State(files, map[]);
    for i := 0 to |actions|
      invariant fresh(m) && m.View() == Ran(start, actions[..i])
    {
      assert actions[..i + 1][..i] == actions[..i];
      match actions[i]
      case Put(items, verified) => var done := m.Install(items, verified);
      case Undo(again) => var done := m.Rollback(again);
    }
    assert actions[..|actions|] == actions;
    ok := m.Rollback(ask);
    if AllCareful(actions) && Clear(AllDests(actions)) && Flat(AllDests(actions), files) {
      RunRestoresExactly(files, actions, ask);
    }
  }
}
