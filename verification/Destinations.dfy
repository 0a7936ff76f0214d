/** Which destinations the known-good store of hardware/driver.c can restore. */
module Destinations {
  import opened Wrappers
  import opened Paths
  import opened StoreWalk
  import opened Rollback

  const ALL_DONE := Luck(Done, Done, Done)

  function Lone(p: Path, bytes: Bytes): Action { Put([Item(p, None, Some(bytes), ALL_DONE, ALL_DONE)], true) }

  /** Every directory on the way to p opens, and no component of p is hidden. */
  ghost predicate Walkable(opens: Path -> bool, p: Path) {
    (forall n :: 0 <= n < |p| ==> opens(p[..n])) && Shown(p)
  }

  /** The store after one installation. */
  function LoneStore(files: Files, p: Path): Files
    requires p != []
  {
    if p in files then map[p := files[p]] else map[p := [], Marker(p) := MARK]
  }

  lemma LoneInstalled(files: Files, p: Path, bytes: Bytes)
    requires TreeLike(files) && Named(p) && CanHold(files, p)
    ensures Sound(Lone(p, bytes)) && Dests(Lone(p, bytes).items) == {p}
    ensures Acted(State(files, map[]), Lone(p, bytes)).st == State(files[p := bytes], LoneStore(files, p))
    ensures TreeLike(files[p := bytes]) && TreeLike(LoneStore(files, p))
  {
    MarkerFacts(p);
    var items := Lone(p, bytes).items;
    var st := State(files, map[]);
    assert items[..0] == [] && Dests(items[..0]) == {} && ItemsPut(st, items[..0]) == Step(true, st);
    LonePlaced(files, p, bytes);
    hide Placed, TreeLike, CanHold, LoneStore;
  }

  lemma LonePlaced(files: Files, p: Path, bytes: Bytes)
    requires TreeLike(files) && p != [] && CanHold(files, p)
    ensures Placed(State(files, map[]), p, Some(bytes), ALL_DONE) == Step(true, State(files[p := bytes], LoneStore(files, p)))
    ensures TreeLike(files[p := bytes]) && TreeLike(LoneStore(files, p))
  {
    MarkerFacts(p);
    assert !IsDir(files, p);
  }

  /** A store with the records of one destination is a single branch. */
  lemma {:induction false} LoneHeight(files: Files, p: Path, d: Path)
    requires p != []
    ensures Height(LoneStore(files, p), d) <= 1
    decreases |d|
  {
    if d != [] {
      var store, a := LoneStore(files, p), Parent(d);
      LoneHeight(files, p, a);
      MarkerFacts(p);
      forall e | e in Subs(store, a) ensures |a| < |p| && e == p[|a|] {
        var s :| s in store && Above(a + [e], s);
        assert s[..|s| - 1] == Parent(p) && Parent(p)[|a|] == e;
      }
      if |a| < |p| { AtMostOne(Subs(store, a), p[|a|]); } else { assert Subs(store, a) == {}; }
    }
  }

  lemma AtMostOne(names: set<string>, e: string)
    requires forall f :: f in names ==> f == e
    ensures |names| <= 1
  {
    if e in names { assert names == {e}; } else { assert names == {}; }
  }

  lemma LoneListed(files: Files, p: Path, ask: Answers)
    requires p != [] && ListsFully(ask.order)
    ensures Parent(p) in Walk(LoneStore(files, p), ask) <==> Way(ask.opens, [], Parent(p))
  {
    var store, a := LoneStore(files, p), Parent(p);
    assert Above(a, p) && p in store;
    forall d ensures Height(store, d) <= 1 { LoneHeight(files, p, d); }
    RoomyListsAll(store, ask.opens, ask.order);
    if a in Walk(store, ask) { OnlyReachable(store, ask.opens, ask.order, a); }
  }

  lemma WalkableIffWay(opens: Path -> bool, p: Path)
    requires p != []
    ensures Walkable(opens, p) <==> Way(opens, [], Parent(p)) && !Hidden(Last(p))
  {
    var a := Parent(p);
    assert forall n :: 0 <= n < |p| ==> p[..n] == a[..n];
    assert forall i :: 0 <= i < |a| ==> p[i] == a[i];
  }

  /** The records of the one destination are handled, or none is. */
  lemma LoneHandled(files: Files, p: Path, ask: Answers)
    requires Named(p) && ListsFully(ask.order)
    ensures Listed(LoneStore(files, p), ask) ==
      if Walkable(ask.opens, p) then LoneStore(files, p).Keys else {}
  {
    MarkerFacts(p);
    LoneListed(files, p, ask);
    WalkableIffWay(ask.opens, p);
    assert Hidden(Last(Marker(p))) <==> Hidden(Last(p));
    hide Walk, Walkable, Way;
  }

  /** What one installation and a rollback leave. */
  function LoneResult(files: Files, p: Path, bytes: Bytes, walked: bool): Files
    requires p != []
  {
    if !walked then files[p := bytes]
    else if EndsAbsent(p) then (if p in files then files[p := bytes] else files) - {Unmarked(p)}
    else files
  }

  /** For every file system, destination and answers: install one file and roll back. If a directory
      on the way does not open, or a component is hidden, the rollback reports success and the
      installed file stays. If the name reads as a marker, another file is deleted and a file that
      was replaced stays replaced. Otherwise all is as before. */
  lemma LoneRollback(files: Files, p: Path, bytes: Bytes, ask: Answers)
    requires TreeLike(files) && Named(p) && CanHold(files, p) && ListsFully(ask.order) && forall s :: ask.luck(s).Done?
    ensures Sound(Lone(p, bytes))
    ensures var st := Acted(State(files, map[]), Lone(p, bytes)).st; var r := RolledBack(st, ask);
            && st.live == files[p := bytes]
            && (r.ok ==> r.st.live == LoneResult(files, p, bytes, Walkable(ask.opens, p)))
            && (!(EndsAbsent(p) && IsDir(files, Unmarked(p))) ==> r.ok)
  {
    LoneInstalled(files, p, bytes);
    LoneHandled(files, p, ask);
    var st := State(files[p := bytes], LoneStore(files, p));
    var r := RolledBack(st, ask);
    RolledBackExactly(st, ask);
    if r.ok {
      LoneAfter(files, p, bytes, Walkable(ask.opens, p));
      SameFiles(r.st.live, LoneResult(files, p, bytes, Walkable(ask.opens, p)));
    }
    if !(EndsAbsent(p) && IsDir(files, Unmarked(p))) { LoneSucceeds(files, p, bytes, ask); }
  }

  lemma LoneAfter(files: Files, p: Path, bytes: Bytes, walked: bool)
    requires Named(p)
    ensures var store := LoneStore(files, p);
            forall x :: After(files[p := bytes], store, if walked then store.Keys else {}, x) == Get(LoneResult(files, p, bytes, walked), x)
  {
    var store := LoneStore(files, p);
    MarkerFacts(p);
    if EndsAbsent(p) { UnmarkedFacts(p); }
    forall x
      ensures After(files[p := bytes], store, if walked then store.Keys else {}, x) == Get(LoneResult(files, p, bytes, walked), x)
    {
      if x != [] { MarkerFacts(x); }
      assert |p| == |Marker(p)|;
    }
  }

  lemma LoneFlat(files: Files, p: Path)
    requires Named(p) && CanHold(files, p) && !(EndsAbsent(p) && IsDir(files, Unmarked(p)))
    ensures Flat({p, Dest(p)}, files) && p in LoneStore(files, p)
    ensures forall s :: s in LoneStore(files, p) ==> Dest(s) in {p, Dest(p)} && !Blocked(files, Dest(s))
  {
    MarkerFacts(p);
    if EndsAbsent(p) { UnmarkedFacts(p); }
    assert !Blocked(files, p) && !IsDir(files, p);
    forall q | q in files ensures !Above(q, Dest(p)) { AboveBoth(q, p, Dest(p)); }
  }

  lemma AboveBoth(q: Path, p: Path, d: Path)
    requires p != [] && |p| == |d| && Parent(p) == Parent(d)
    ensures Above(q, p) <==> Above(q, d)
  {
    assert forall i :: 0 <= i < |p| - 1 ==> p[i] == Parent(p)[i] && d[i] == Parent(d)[i];
  }

  lemma LoneSucceeds(files: Files, p: Path, bytes: Bytes, ask: Answers)
    requires TreeLike(files) && Named(p) && CanHold(files, p) && ListsFully(ask.order) && forall s :: ask.luck(s).Done?
    requires !(EndsAbsent(p) && IsDir(files, Unmarked(p)))
    ensures RolledBack(State(files[p := bytes], LoneStore(files, p)), ask).ok
  {
    LoneInstalled(files, p, bytes);
    LoneFlat(files, p);
    hide LoneStore, RolledBack, Flat, TreeLike, Dest, Blocked;
    SucceedsExactly(State(files[p := bytes], LoneStore(files, p)), ask, files, {p, Dest(p)});
  }

  /** So one installation is undone exactly if its name can be walked to and, where it reads as a
      marker, neither it nor the file it seems to mark was there. */
  lemma LoneUndoneExactly(files: Files, p: Path, bytes: Bytes, ask: Answers)
    requires TreeLike(files) && Named(p) && CanHold(files, p) && ListsFully(ask.order) && forall s :: ask.luck(s).Done?
    requires Get(files, p) != Some(bytes)
    ensures Sound(Lone(p, bytes))
    ensures var r := RolledBack(Acted(State(files, map[]), Lone(p, bytes)).st, ask);
            r.ok ==> (r.st.live == files <==>
              Walkable(ask.opens, p) && (EndsAbsent(p) ==> p !in files && Unmarked(p) !in files))
  {
    LoneRollback(files, p, bytes, ask);
    if EndsAbsent(p) {
      UnmarkedFacts(p);
      MarkerFacts(Unmarked(p));
      assert p !in files && Unmarked(p) !in files ==> files - {Unmarked(p)} == files;
    }
  }

  /** A run among these destinations, and a rollback for which every directory opens. */
  ghost predicate Among(all: set<Path>, files: Files, actions: seq<Action>, ask: Answers) {
    && TreeLike(files) && Flat(all, files) && AllSound(actions) && AllCareful(actions) && AllDests(actions) <= all
    && ListsFully(ask.order) && forall d :: ask.opens(d)
  }

  /** A successful rollback with room for every directory gives back the files at the start. */
  ghost predicate Restores(files: Files, actions: seq<Action>, ask: Answers) {
    AllSound(actions) ==>
      var st := Ran(State(files, map[]), actions);
      RolledBack(st, ask).ok && Roomy(st.store, ask.opens) ==> RolledBack(st, ask).st.live == files
  }

  ghost function Easy(): Answers { Answers(_ => true, Toward([]), _ => Done) }

  lemma RanStep(st: State, actions: seq<Action>, a: Action)
    requires AllSound(actions) && Sound(a)
    ensures AllSound(actions + [a]) && Ran(st, actions + [a]) == Acted(Ran(st, actions), a).st
    ensures AllDests(actions + [a]) == AllDests(actions) + (if a.Put? then Dests(a.items) else {})
  {
    assert (actions + [a])[..|actions|] == actions;
  }

  /** One installation whose destination is hidden or reads as a marker. */
  lemma LoneLoses(all: set<Path>, p: Path, files: Files)
    requires Flat(all, files) && p in all && Named(p) && TreeLike(files) && CanHold(files, p) && Get(files, p) != Some([1])
    requires (!Shown(p) || (EndsAbsent(p) && p in files)) && !(EndsAbsent(p) && IsDir(files, Unmarked(p)))
    ensures Among(all, files, [Lone(p, [1])], Easy()) && !Restores(files, [Lone(p, [1])], Easy())
  {
    LoneInstalled(files, p, [1]);
    RanStep(State(files, map[]), [], Lone(p, [1]));
    assert [] + [Lone(p, [1])] == [Lone(p, [1])];
    assert Walkable(Easy().opens, p) <==> Shown(p);
    forall d ensures Height(LoneStore(files, p), d) <= 1 { LoneHeight(files, p, d); }
    LoneUndoneExactly(files, p, [1], Easy());
    LoneRollback(files, p, [1], Easy());
    hide RolledBack, Installed, Height, LoneStore, LoneResult;
  }

  /** p, which was empty, has been replaced, and q has been added. */
  function TwoFiles(p: Path, q: Path, bytes: Bytes): Files { map[p := bytes, q := [1]] }

  lemma SecondInstall(p: Path, q: Path)
    requires Named(p) && Named(q) && Above(Marker(p), q) && !(p <= q) && !(q <= p)
    ensures var st := State(TwoFiles(p, q, []), LoneStore(map[p := []], q));
            Acted(st, Lone(p, [1])).st == st.(live := TwoFiles(p, q, [1]))
  {
    var items := Lone(p, [1]).items;
    var st := State(TwoFiles(p, q, []), LoneStore(map[p := []], q));
    assert items[..0] == [] && ItemsPut(st, items[..0]) == Step(true, st);
    assert q in st.store && IsDir(st.store, Marker(p));
    assert st.live[p := [1]] == TwoFiles(p, q, [1]);
  }

  lemma TwoInstalls(p: Path, q: Path)
    requires Named(p) && Named(q) && Above(Marker(p), q) && !(p <= q) && !(q <= p)
    ensures var actions := [Lone(q, [1]), Lone(p, [1])];
            && AllSound(actions) && AllDests(actions) == {q, p} && AllCareful(actions)
            && Ran(State(map[p := []], map[]), actions) == State(TwoFiles(p, q, [1]), LoneStore(map[p := []], q))
  {
    var files: Files := map[p := []];
    LoneInstalled(files, q, [1]);
    assert files[q := [1]] == TwoFiles(p, q, []);
    assert Sound(Lone(p, [1])) && Dests(Lone(p, [1]).items) == {p} by { LoneInstalled(map[], p, [1]); }
    SecondInstall(p, q);
    hide Acted, LoneStore, TwoFiles, Sound, Dests, Ran;
    RanTwo(State(files, map[]), Lone(q, [1]), Lone(p, [1]));
  }

  lemma RanTwo(st: State, a: Action, b: Action)
    requires Sound(a) && Sound(b) && a.Put? && b.Put?
    ensures AllSound([a, b]) && Ran(st, [a, b]) == Acted(Acted(st, a).st, b).st
    ensures AllDests([a, b]) == Dests(a.items) + Dests(b.items)
  {
    assert Ran(st, []) == st && AllDests([]) == {};
    hide *;
    RanStep(st, [], a);
    assert [] + [a] == [a];
    RanStep(st, [a], b);
    assert [a] + [b] == [a, b];
  }

  lemma TwoRollback(p: Path, q: Path)
    requires Named(p) && Named(q) && Above(Marker(p), q) && !(p <= q) && !(q <= p)
    requires !EndsAbsent(p) && !EndsAbsent(q) && Shown(q)
    ensures var st := State(TwoFiles(p, q, [1]), LoneStore(map[p := []], q));
            RolledBack(st, Easy()).ok && Get(RolledBack(st, Easy()).st.live, p) == Some([1])
  {
    var files: Files := map[p := []];
    var st := State(TwoFiles(p, q, [1]), LoneStore(files, q));
    TwoFacts(p, q);
    LoneHandled(files, q, Easy());
    assert Walkable(Easy().opens, q);
    RolledBackExactly(st, Easy());
    hide LoneStore, Clear, RolledBack, After, Within, Flat, TreeLike, TwoFiles, Handled;
    SucceedsExactly(st, Easy(), files, {p, q});
  }

  lemma TwoFacts(p: Path, q: Path)
    requires Named(p) && Named(q) && Above(Marker(p), q) && !(p <= q) && !(q <= p) && !EndsAbsent(p) && !EndsAbsent(q)
    ensures var files: Files, live, store := map[p := []], TwoFiles(p, q, [1]), LoneStore(map[p := []], q);
            && Within(live, files, {p, q}) && Flat({p, q}, files) && TreeLike(store) && store != map[]
            && (forall s :: s in store ==> Dest(s) == q) && Fine(store, files, store.Keys)
            && After(live, store, store.Keys, p) == Some([1])
  {
    TwoWithin(p, q);
    TwoRecords(p, q);
    hide Within, Flat, TreeLike, Fine, LoneStore, After, EndsAbsent, Above;
  }

  lemma TwoWithin(p: Path, q: Path)
    requires Named(p) && Named(q) && !(p <= q) && !(q <= p)
    ensures Within(TwoFiles(p, q, [1]), map[p := []], {p, q}) && Flat({p, q}, map[p := []])
  {
  }

  lemma TwoRecords(p: Path, q: Path)
    requires Named(p) && Named(q) && !(p <= q) && !(q <= p) && !EndsAbsent(p) && !EndsAbsent(q)
    ensures var files: Files, live, store := map[p := []], TwoFiles(p, q, [1]), LoneStore(map[p := []], q);
            && TreeLike(store) && store != map[] && (forall s :: s in store ==> Dest(s) == q)
            && Fine(store, files, store.Keys) && After(live, store, store.Keys, p) == Some([1])
  {
    MarkerFacts(p);
    MarkerFacts(q);
    assert q in LoneStore(map[p := []], q);
  }

  /** Installing q below the marker of p keeps p from being recorded. */
  lemma MarkerDirectoryLoses(all: set<Path>, p: Path, q: Path)
    requires Flat(all, map[]) && p in all && q in all && Named(p) && Named(q) && Above(Marker(p), q)
    requires !EndsAbsent(p) && !EndsAbsent(q) && Shown(q)
    ensures var files, actions := map[p := []], [Lone(q, [1]), Lone(p, [1])];
            Among(all, files, actions, Easy()) && !Restores(files, actions, Easy())
  {
    MarkerFacts(p);
    assert !(p <= q) && !(q <= p);
    TwoInstalls(p, q);
    TwoRollback(p, q);
    forall d ensures Height(LoneStore(map[p := []], q), d) <= 1 { LoneHeight(map[p := []], q, d); }
    hide RolledBack, Ran, Height, LoneStore, AllDests;
  }

  lemma ClearRestores(all: set<Path>, files: Files, actions: seq<Action>, ask: Answers)
    requires Clear(all) && Among(all, files, actions, ask)
    ensures Restores(files, actions, ask)
  {
    hide Ran, RolledBack, Roomy, Lists, Shown, EndsAbsent, IsDir;
    var st := Ran(State(files, map[]), actions);
    if RolledBack(st, ask).ok && Roomy(st.store, ask.opens) { RunRestores(files, actions, ask); }
  }

  /** Which destinations are safe: whatever is installed among them and however often, every
      successful rollback restores everything, exactly if none is hidden or reads as a marker and
      none lies below the marker of another. */
  lemma NamesExactly(all: set<Path>)
    requires Flat(all, map[]) && forall p :: p in all ==> Named(p)
    ensures (forall files, actions, ask | Among(all, files, actions, ask) :: Restores(files, actions, ask)) <==> Clear(all)
  {
    hide Among, Restores, Flat;
    if Clear(all) {
      forall files, actions, ask | Among(all, files, actions, ask) ensures Restores(files, actions, ask) {
        ClearRestores(all, files, actions, ask);
      }
    } else {
      var files, actions, ask := UnclearLoses(all);
    }
  }

  lemma UnclearLoses(all: set<Path>) returns (files: Files, actions: seq<Action>, ask: Answers)
    requires Flat(all, map[]) && (forall p :: p in all ==> Named(p)) && !Clear(all)
    ensures Among(all, files, actions, ask) && !Restores(files, actions, ask)
  {
    hide Among, Restores, Shown, EndsAbsent, Above, Flat, Marker;
    ask := Easy();
    if p :| p in all && !Shown(p) {
      HiddenLoses(all, p);
      files, actions := map[], [Lone(p, [1])];
    } else if p :| p in all && EndsAbsent(p) {
      MarkerLoses(all, p);
      files, actions := map[p := []], [Lone(p, [1])];
    } else {
      var p, q :| p in all && q in all && p != [] && Above(Marker(p), q);
      MarkerDirectoryLoses(all, p, q);
      files, actions := map[p := []], [Lone(q, [1]), Lone(p, [1])];
    }
  }

  lemma HiddenLoses(all: set<Path>, p: Path)
    requires Flat(all, map[]) && p in all && Named(p) && !Shown(p)
    ensures Among(all, map[], [Lone(p, [1])], Easy()) && !Restores(map[], [Lone(p, [1])], Easy())
  {
    LoneLoses(all, p, map[]);
  }

  lemma MarkerLoses(all: set<Path>, p: Path)
    requires Flat(all, map[]) && p in all && Named(p) && EndsAbsent(p)
    ensures Among(all, map[p := []], [Lone(p, [1])], Easy()) && !Restores(map[p := []], [Lone(p, [1])], Easy())
  {
    assert |Unmarked(p)| == |p|;
    LoneLoses(all, p, map[p := []]);
  }
}
