/** Which directories of the store the rollback walk of hardware/driver.c lists: it keeps a stack of
    at most 64 directories and skips silently what does not fit and what does not open. */
module StoreWalk {
  import opened Paths

  /** How many directories the rollback walk can hold at a time. */
  const MAX_STACK := 64

  /** The names listed in a directory. */
  function Names(store: Files, d: Path): set<string> {
    set p | p in store && Above(d, p) :: p[|d|]
  }

  /** readdir hands out names of a directory in any order, each at most once. */
  type Order = (Path, set<string>) -> seq<string>

  ghost predicate Lists(order: Order) {
    forall d, names :: Draws(order(d, names), names)
  }

  predicate Draws(es: seq<string>, names: set<string>) {
    && (forall e :: e in es ==> e in names)
    && (forall i, j :: 0 <= i < j < |es| ==> es[i] != es[j])
  }

  /** No listing is cut short: every name is handed out. */
  ghost predicate ListsFully(order: Order) {
    forall d, names :: Enumerates(order(d, names), names)
  }

  predicate Enumerates(es: seq<string>, names: set<string>) {
    Draws(es, names) && forall e :: e in names ==> e in es
  }

  lemma FullyLists(order: Order)
    requires ListsFully(order)
    ensures Lists(order)
  {
    forall d, names ensures Draws(order(d, names), names) { assert Enumerates(order(d, names), names); }
  }

  function Listing(store: Files, order: Order, d: Path): seq<string> { order(d, Names(store, d)) }

  /** An entry that the walk takes for a directory. */
  predicate Pushed(store: Files, d: Path, e: string) { !Hidden(e) && IsDir(store, d + [e]) }

  /** The subdirectories among the first entries of a directory, in their order. */
  function Subdirs(store: Files, d: Path, es: seq<string>): seq<Path> {
    if es == [] then []
    else
      var e := es[|es| - 1];
      Subdirs(store, d, es[..|es| - 1]) + (if Pushed(store, d, e) then [d + [e]] else [])
  }

  /** The walk's stack drops what it has no room for. */
  function Capped(stack: seq<Path>): seq<Path> {
    if |stack| <= MAX_STACK then stack else stack[..MAX_STACK]
  }

  /** The directories of the store, its root included. */
  ghost function Dirs(store: Files): set<Path> {
    {[]} + set p, n: nat | p in store && n < |p| :: p[..n]
  }

  /** The stack once its top has been popped and, if it opens, its subdirectories are pushed. */
  ghost function Next(store: Files, opens: Path -> bool, order: Order, stack: seq<Path>): seq<Path>
    requires stack != []
  {
    var d, rest := stack[|stack| - 1], stack[..|stack| - 1];
    if opens(d) then Capped(rest + Subdirs(store, d, Listing(store, order, d))) else rest
  }

  /** The directories a walk with this stack lists, in order. One that cannot be opened is skipped
      silently. `left` holds the directories not popped yet. */
  ghost function Visits(store: Files, opens: Path -> bool, order: Order, stack: seq<Path>, left: set<Path>): seq<Path>
    decreases left
  {
    if stack == [] || stack[|stack| - 1] !in left then []
    else
      var d := stack[|stack| - 1];
      (if opens(d) then [d] else []) + Visits(store, opens, order, Next(store, opens, order, stack), left - {d})
  }

  // ------------------------------------------------------------ which directories are listed

  lemma DirsHas(store: Files, d: Path)
    requires IsDir(store, d)
    ensures d in Dirs(store)
  {
    var p :| p in store && Above(d, p);
    assert p[..|d|] == d;
  }

  /** Every directory from a down to x opens and shows. */
  ghost predicate Way(opens: Path -> bool, a: Path, x: Path) {
    && a <= x && (forall n :: |a| <= n <= |x| ==> opens(x[..n])) && (forall i :: |a| <= i < |x| ==> !Hidden(x[i]))
  }

  /** A directory of the store that can be walked to. */
  ghost predicate Reachable(store: Files, opens: Path -> bool, d: Path) {
    (d == [] || IsDir(store, d)) && Way(opens, [], d)
  }

  predicate Under(stack: seq<Path>, d: Path) { exists i :: 0 <= i < |stack| && stack[i] <= d }

  ghost predicate Apart(stack: seq<Path>) {
    forall i, j :: 0 <= i < |stack| && 0 <= j < |stack| && i != j ==> !(stack[i] <= stack[j])
  }

  /** The stack holds directories, none inside another, and nothing below them was popped before. */
  ghost predicate Ready(store: Files, stack: seq<Path>, left: set<Path>) {
    && (forall i :: 0 <= i < |stack| ==> stack[i] == [] || IsDir(store, stack[i])) && Apart(stack)
    && (forall d :: (d == [] || IsDir(store, d)) && Under(stack, d) ==> d in left)
  }

  lemma ReadyStart(store: Files)
    ensures Ready(store, [[]], Dirs(store))
  {
    forall d | d == [] || IsDir(store, d) ensures d in Dirs(store) { if d != [] { DirsHas(store, d); } }
  }

  lemma ReadyPop(store: Files, stack: seq<Path>, left: set<Path>)
    requires Ready(store, stack, left) && stack != []
    ensures var n := |stack| - 1; stack[n] in left && Ready(store, stack[..n], left - {stack[n]})
  {
    var n := |stack| - 1;
    assert stack[n] <= stack[n] && Under(stack, stack[n]);
    forall d | (d == [] || IsDir(store, d)) && Under(stack[..n], d) ensures d in left && d != stack[n] {
      var i :| 0 <= i < n && stack[..n][i] <= d;
      assert stack[i] <= d && Under(stack, d);
    }
  }

  predicate Child(store: Files, d: Path, c: Path) {
    |c| == |d| + 1 && d <= c && !Hidden(c[|d|]) && IsDir(store, c)
  }

  /** Different subdirectories of d that show. */
  ghost predicate Children(store: Files, d: Path, s: seq<Path>) {
    && (forall i :: 0 <= i < |s| ==> Child(store, d, s[i]))
    && (forall i, j :: 0 <= i < j < |s| ==> s[i] != s[j])
  }

  lemma {:induction false} SubdirsAre(store: Files, d: Path, es: seq<string>)
    requires forall i, j :: 0 <= i < j < |es| ==> es[i] != es[j]
    ensures var s := Subdirs(store, d, es);
            && Children(store, d, s) && (forall i :: 0 <= i < |s| ==> exists j :: 0 <= j < |es| && s[i] == d + [es[j]])
            && (forall j :: 0 <= j < |es| && !Hidden(es[j]) && IsDir(store, d + [es[j]]) ==> d + [es[j]] in s)
  {
    if es != [] {
      var n := |es| - 1;
      var s, before := Subdirs(store, d, es), Subdirs(store, d, es[..n]);
      SubdirsAre(store, d, es[..n]);
      hide Hidden, IsDir;
      forall i | 0 <= i < |s|
        ensures Child(store, d, s[i]) && exists j :: 0 <= j < |es| && s[i] == d + [es[j]]
      {
        if i < |before| {
          var j :| 0 <= j < n && before[i] == d + [es[..n][j]];
          assert s[i] == d + [es[j]];
        }
      }
      if |before| < |s| {
        forall i | 0 <= i < |before| ensures before[i] != d + [es[n]] {
          var j :| 0 <= j < n && before[i] == d + [es[..n][j]];
          assert before[i][|d|] == es[j] && (d + [es[n]])[|d|] == es[n];
        }
      }
      forall j | 0 <= j < |es| && !Hidden(es[j]) && IsDir(store, d + [es[j]]) ensures d + [es[j]] in s {
        if j < n { assert es[..n][j] == es[j]; }
      }
    }
  }

  lemma Incomparable(a: Path, d: Path, c: Path)
    requires !(a <= d) && !(d <= a) && d <= c
    ensures !(c <= a) && (|c| == |d| + 1 ==> !(a <= c))
  {
  }

  /** Replacing a popped directory by its subdirectories keeps the stack ready. */
  lemma ReadyPush(store: Files, rest: seq<Path>, left: set<Path>, d: Path, subs: seq<Path>)
    requires Ready(store, rest, left) && Children(store, d, subs)
    requires forall i :: 0 <= i < |rest| ==> !(d <= rest[i]) && !(rest[i] <= d)
    requires forall x :: IsDir(store, x) && Above(d, x) ==> x in left
    ensures Ready(store, rest + subs, left)
  {
    var stack := rest + subs;
    forall i, j | 0 <= i < |rest| && 0 <= j < |subs| ensures !(rest[i] <= subs[j]) && !(subs[j] <= rest[i]) {
      Incomparable(rest[i], d, subs[j]);
    }
    forall x | (x == [] || IsDir(store, x)) && Under(stack, x) ensures x in left {
      var i :| 0 <= i < |stack| && stack[i] <= x;
      if i < |rest| { assert rest[i] <= x && Under(rest, x); }
    }
  }

  lemma ReadyPart(store: Files, stack: seq<Path>, left: set<Path>, n: nat)
    requires Ready(store, stack, left) && n <= |stack|
    ensures Ready(store, stack[..n], left)
  {
    forall x | Under(stack[..n], x) ensures Under(stack, x) {
      var i :| 0 <= i < n && stack[..n][i] <= x;
      assert stack[i] <= x;
    }
  }

  /** One step of the walk, with and without the cap. */
  lemma ReadyStep(store: Files, stack: seq<Path>, left: set<Path>, subs: seq<Path>)
    requires Ready(store, stack, left) && stack != [] && Children(store, stack[|stack| - 1], subs)
    ensures var n := |stack| - 1; var next := stack[..n] + subs;
            Ready(store, next, left - {stack[n]}) && Ready(store, Capped(next), left - {stack[n]})
  {
    var n := |stack| - 1;
    var d, rest := stack[n], stack[..n];
    ReadyPop(store, stack, left);
    forall x | IsDir(store, x) && Above(d, x) ensures x in left - {d} {
      assert stack[n] <= x && Under(stack, x);
    }
    ReadyPush(store, rest, left - {d}, d, subs);
    if |rest + subs| > MAX_STACK { ReadyPart(store, rest + subs, left - {d}, MAX_STACK); }
  }

  lemma NextReady(store: Files, opens: Path -> bool, order: Order, stack: seq<Path>, left: set<Path>)
    requires Lists(order) && Ready(store, stack, left) && stack != []
    ensures stack[|stack| - 1] in left
    ensures Ready(store, Next(store, opens, order, stack), left - {stack[|stack| - 1]})
  {
    var d := stack[|stack| - 1];
    var es := Listing(store, order, d);
    assert Draws(es, Names(store, d));
    SubdirsAre(store, d, es);
    ReadyPop(store, stack, left);
    ReadyStep(store, stack, left, Subdirs(store, d, es));
  }

  ghost predicate AllDirs(store: Files, stack: seq<Path>) {
    forall i :: 0 <= i < |stack| ==> stack[i] == [] || IsDir(store, stack[i])
  }

  ghost predicate SomeWay(opens: Path -> bool, stack: seq<Path>, x: Path) {
    exists i :: 0 <= i < |stack| && Way(opens, stack[i], x)
  }

  /** What is on the stack next was there before, or is a subdirectory of the top, which opens. */
  lemma NextIs(store: Files, opens: Path -> bool, order: Order, stack: seq<Path>, i: nat)
    requires Lists(order) && stack != [] && i < |Next(store, opens, order, stack)|
    ensures var n, c := |stack| - 1, Next(store, opens, order, stack)[i];
            if i < n then c == stack[i] else opens(stack[n]) && Child(store, stack[n], c)
  {
    var d := stack[|stack| - 1];
    var es := Listing(store, order, d);
    assert Draws(es, Names(store, d));
    SubdirsAre(store, d, es);
    hide Child, Subdirs, Listing;
  }

  lemma NextOnWay(store: Files, opens: Path -> bool, order: Order, stack: seq<Path>, x: Path)
    requires Lists(order) && stack != [] && AllDirs(store, stack)
    ensures AllDirs(store, Next(store, opens, order, stack))
    ensures SomeWay(opens, Next(store, opens, order, stack), x) ==> SomeWay(opens, stack, x)
  {
    hide Next, Lists, Way, IsDir;
    var n, next := |stack| - 1, Next(store, opens, order, stack);
    forall i | 0 <= i < |next| ensures next[i] == [] || IsDir(store, next[i]) { NextIs(store, opens, order, stack, i); }
    if i :| 0 <= i < |next| && Way(opens, next[i], x) {
      NextIs(store, opens, order, stack, i);
      if i >= n { WayUp(opens, stack[n], next[i], x); }
      assert Way(opens, stack[if i < n then i else n], x);
    }
  }

  /** Only directories on the stack, or on a way down from it, are listed. */
  lemma {:induction false} VisitsOnWay(store: Files, opens: Path -> bool, order: Order, stack: seq<Path>, left: set<Path>, x: Path)
    requires Lists(order) && x in Visits(store, opens, order, stack, left) && AllDirs(store, stack)
    ensures (x == [] || IsDir(store, x)) && SomeWay(opens, stack, x)
    decreases left
  {
    hide Next;
    var n := |stack| - 1;
    NextOnWay(store, opens, order, stack, x);
    if x == stack[n] && opens(x) {
      assert x[..|x|] == x;
      assert Way(opens, stack[n], x);
    } else {
      VisitsOnWay(store, opens, order, Next(store, opens, order, stack), left - {stack[n]}, x);
    }
  }

  lemma WayUp(opens: Path -> bool, d: Path, c: Path, x: Path)
    requires Way(opens, c, x) && opens(d) && d <= c && |c| == |d| + 1 && !Hidden(c[|d|])
    ensures Way(opens, d, x)
  {
    assert x[..|d|] == d && x[|d|] == c[|d|];
  }

  /** The subdirectories that are pushed. */
  function Subs(store: Files, d: Path): set<string> {
    set e | e in Names(store, d) && Pushed(store, d, e)
  }

  /** The most places of the stack that are taken when d is on top of it: along the way to d, every
      directory leaves all its subdirectories but one behind. */
  ghost function Height(store: Files, d: Path): int
    decreases |d|
  {
    if d == [] then 1 else Height(store, Parent(d)) - 1 + |Subs(store, Parent(d))|
  }

  /** Every directory that can be walked to finds room on the stack. */
  ghost predicate Roomy(store: Files, opens: Path -> bool) {
    forall d :: Reachable(store, opens, d) ==> Height(store, d) <= MAX_STACK
  }

  ghost predicate ListsAll(store: Files, opens: Path -> bool, order: Order) {
    forall d :: Reachable(store, opens, d) ==> d in Visits(store, opens, order, [[]], Dirs(store))
  }

  lemma {:induction false} SubdirsCount(store: Files, d: Path, es: seq<string>)
    requires forall i, j :: 0 <= i < j < |es| ==> es[i] != es[j]
    ensures |Subdirs(store, d, es)| == |set e | e in es && Pushed(store, d, e)|
  {
    if es != [] {
      var e, front := es[|es| - 1], es[..|es| - 1];
      SubdirsCount(store, d, front);
      hide Pushed;
      assert e !in front;
      assert forall f :: f in es <==> f in front || f == e;
      var was := set f | f in front && Pushed(store, d, f);
      var now := set f | f in es && Pushed(store, d, f);
      assert now == if Pushed(store, d, e) then was + {e} else was;
    }
  }

  lemma ListingCount(store: Files, order: Order, d: Path)
    requires ListsFully(order)
    ensures |Subdirs(store, d, Listing(store, order, d))| == |Subs(store, d)|
  {
    var es := Listing(store, order, d);
    assert Enumerates(es, Names(store, d));
    SubdirsCount(store, d, es);
    assert Subs(store, d) == set e | e in es && Pushed(store, d, e);
  }

  /** Each place of the stack is within the height of what it holds, which was found on a way. */
  ghost predicate Placeable(store: Files, opens: Path -> bool, stack: seq<Path>) {
    && |stack| <= MAX_STACK
    && (forall i :: 0 <= i < |stack| ==> i < Height(store, stack[i]))
    && (forall i :: 0 <= i < |stack| && stack[i] != [] ==> Way(opens, [], Parent(stack[i])) && !Hidden(Last(stack[i])))
  }

  lemma ChildPlace(store: Files, d: Path, c: Path)
    requires Child(store, d, c)
    ensures c != [] && Parent(c) == d && !Hidden(Last(c)) && Height(store, c) == Height(store, d) - 1 + |Subs(store, d)|
  {
    assert Parent(c) == d;
  }

  lemma PushPlaceable(store: Files, opens: Path -> bool, rest: seq<Path>, d: Path, subs: seq<Path>)
    requires Placeable(store, opens, rest) && Children(store, d, subs) && Way(opens, [], d)
    requires |rest| < Height(store, d) && |subs| == |Subs(store, d)|
    ensures Placeable(store, opens, Capped(rest + subs))
  {
    hide Height, Way, Subs, Child, Hidden;
    var s := Capped(rest + subs);
    forall i | 0 <= i < |s|
      ensures i < Height(store, s[i]) && (s[i] != [] ==> Way(opens, [], Parent(s[i])) && !Hidden(Last(s[i])))
    {
      if i < |rest| { assert s[i] == rest[i]; } else {
        assert s[i] == subs[i - |rest|];
        ChildPlace(store, d, subs[i - |rest|]);
      }
    }
  }

  lemma PlaceableStep(store: Files, opens: Path -> bool, order: Order, stack: seq<Path>)
    requires ListsFully(order) && Placeable(store, opens, stack) && stack != []
    ensures Placeable(store, opens, Next(store, opens, order, stack))
  {
    var n := |stack| - 1;
    var d, es := stack[n], Listing(store, order, stack[n]);
    if opens(d) {
      assert Enumerates(es, Names(store, d));
      SubdirsAre(store, d, es);
      ListingCount(store, order, d);
      WayTo(opens, d);
      hide Height, Way, Subdirs, Subs, Listing, Children, Lists;
      PushPlaceable(store, opens, stack[..n], d, Subdirs(store, d, es));
    }
  }

  lemma WayTo(opens: Path -> bool, d: Path)
    requires opens(d) && (d != [] ==> Way(opens, [], Parent(d)) && !Hidden(Last(d)))
    ensures Way(opens, [], d)
  {
    forall n | 0 <= n <= |d| ensures opens(d[..n]) {
      if n < |d| { assert d[..n] == Parent(d)[..n]; } else { assert d[..n] == d; }
    }
    forall i | 0 <= i < |d| ensures !Hidden(d[i]) { if i < |d| - 1 { assert d[i] == Parent(d)[i]; } }
  }

  /** With room for every reachable directory, everything on a way down from the stack is listed. */
  lemma {:induction false} WayIsVisited(store: Files, opens: Path -> bool, order: Order, stack: seq<Path>, left: set<Path>, x: Path)
    requires ListsFully(order) && Roomy(store, opens) && Ready(store, stack, left) && Placeable(store, opens, stack)
    requires SomeWay(opens, stack, x) && (x == [] || IsDir(store, x))
    ensures x in Visits(store, opens, order, stack, left)
    decreases left
  {
    hide Ready, Placeable, Roomy, Lists, IsDir, Next, Way;
    var d, next := stack[|stack| - 1], Next(store, opens, order, stack);
    NextReady(store, opens, order, stack, left);
    PlaceableStep(store, opens, order, stack);
    NextPlace(store, opens, order, stack, x);
    if !(x == d && opens(d)) { WayIsVisited(store, opens, order, next, left - {d}, x); }
  }

  /** What is on a way down from the stack stays so until it is listed. */
  lemma NextPlace(store: Files, opens: Path -> bool, order: Order, stack: seq<Path>, x: Path)
    requires ListsFully(order) && Roomy(store, opens) && Placeable(store, opens, stack)
    requires SomeWay(opens, stack, x) && (x == [] || IsDir(store, x))
    ensures var d := stack[|stack| - 1]; (x == d && opens(d)) || SomeWay(opens, Next(store, opens, order, stack), x)
  {
    var n := |stack| - 1;
    var d, next := stack[n], Next(store, opens, order, stack);
    var i :| 0 <= i < |stack| && Way(opens, stack[i], x);
    if i < n {
      assert next[i] == stack[i];
    } else {
      assert x[..|d|] == d;
      if x != d {
        var j := ChildPushed(store, opens, order, stack, x);
        WayDown(opens, d, x);
        assert Way(opens, next[j], x);
      }
    }
  }

  lemma WayDown(opens: Path -> bool, d: Path, x: Path)
    requires Way(opens, d, x) && d != x
    ensures Way(opens, x[..|d| + 1], x) && opens(x[..|d| + 1]) && !Hidden(x[|d|])
  {
  }

  lemma InnerDir(store: Files, d: Path, x: Path)
    requires IsDir(store, x) && Above(d, x)
    ensures IsDir(store, x[..|d| + 1]) && x[|d|] in Names(store, d) && x[..|d| + 1] == d + [x[|d|]]
  {
    var p :| p in store && Above(x, p);
    assert Above(x[..|d| + 1], p) && Above(d, p) && p[|d|] == x[|d|];
  }

  /** The next directory on a way finds its place. */
  lemma ChildPushed(store: Files, opens: Path -> bool, order: Order, stack: seq<Path>, x: Path) returns (j: nat)
    requires ListsFully(order) && Roomy(store, opens) && Placeable(store, opens, stack) && stack != []
    requires var d := stack[|stack| - 1]; d != x && IsDir(store, x) && Way(opens, d, x)
    ensures var next := Next(store, opens, order, stack); j < |next| && next[j] == x[..|stack[|stack| - 1]| + 1]
  {
    var n := |stack| - 1;
    var d, es := stack[n], Listing(store, order, stack[n]);
    var subs, c := Subdirs(store, d, es), x[..|d| + 1];
    assert Enumerates(es, Names(store, d));
    SubdirsAre(store, d, es);
    ListingCount(store, order, d);
    assert opens(d) by { assert x[..|d|] == d; }
    ChildFits(store, opens, d, x);
    hide Way, IsDir, Height, Subdirs, Subs, Child, Lists, Hidden, Pushed;
    var k :| 0 <= k < |subs| && subs[k] == c;
    j := n + k;
  }

  lemma ChildFits(store: Files, opens: Path -> bool, d: Path, x: Path)
    requires Roomy(store, opens) && d != x && IsDir(store, x) && Way(opens, d, x)
    requires d != [] ==> Way(opens, [], Parent(d)) && !Hidden(Last(d))
    ensures var c := x[..|d| + 1];
            c == d + [x[|d|]] && x[|d|] in Names(store, d) && Pushed(store, d, x[|d|]) && Height(store, d) - 1 + |Subs(store, d)| <= MAX_STACK
  {
    var c := x[..|d| + 1];
    InnerDir(store, d, x);
    WayDown(opens, d, x);
    assert opens(d) by { assert x[..|d|] == d; }
    WayTo(opens, d);
    assert Parent(c) == d && Last(c) == x[|d|];
    WayTo(opens, c);
    assert Reachable(store, opens, c);
  }

  /** Room on the stack means that exactly the reachable directories are listed. */
  lemma RoomyListsAll(store: Files, opens: Path -> bool, order: Order)
    requires ListsFully(order) && Roomy(store, opens)
    ensures ListsAll(store, opens, order)
  {
    ReadyStart(store);
    forall d | Reachable(store, opens, d) ensures d in Visits(store, opens, order, [[]], Dirs(store)) {
      assert Way(opens, [[]][0], d);
      WayIsVisited(store, opens, order, [[]], Dirs(store), d);
    }
  }

  lemma OnlyReachable(store: Files, opens: Path -> bool, order: Order, d: Path)
    requires Lists(order) && d in Visits(store, opens, order, [[]], Dirs(store))
    ensures Reachable(store, opens, d)
  {
    var start: seq<Path> := [[]];
    VisitsOnWay(store, opens, order, start, Dirs(store), d);
    var i :| 0 <= i < |start| && Way(opens, start[i], d);
  }

  ghost function Enum(names: set<string>): (es: seq<string>)
    ensures Enumerates(es, names)
  {
    if names == {} then [] else var e :| e in names; Enum(names - {e}) + [e]
  }

  /** Every directory on the way to c is listed with the way's next step last. */
  ghost function Toward(c: Path): (order: Order)
    ensures ListsFully(order)
  {
    (d: Path, names: set<string>) =>
      if Above(d, c) && c[|d|] in names then Enum(names - {c[|d|]}) + [c[|d|]] else Enum(names)
  }

  /** On the way to c the stack is as high as it can get. */
  lemma {:induction false} ClimbTo(store: Files, opens: Path -> bool, c: Path, n: nat) returns (stack: seq<Path>, left: set<Path>)
    requires Reachable(store, opens, c) && n < |c|
    requires forall i :: 0 <= i <= n ==> Height(store, c[..i]) <= MAX_STACK
    ensures Ready(store, stack, left) && stack != [] && stack[|stack| - 1] == c[..n] && |stack| == Height(store, c[..n])
    ensures c in Visits(store, opens, Toward(c), [[]], Dirs(store)) ==> c in Visits(store, opens, Toward(c), stack, left)
    decreases n
  {
    hide Visits, Ready, Reachable, Toward, Dirs;
    if n == 0 {
      stack, left := [[]], Dirs(store);
      ReadyStart(store);
      assert c[..0] == [];
    } else {
      assert forall i :: 0 <= i <= n - 1 ==> Height(store, c[..i]) <= MAX_STACK;
      var s, l := ClimbTo(store, opens, c, n - 1);
      var next := ClimbStep(store, opens, c, n - 1, s, l);
      assert c[..n][..n - 1] == c[..n - 1];
      stack, left := next, l - {c[..n - 1]};
    }
  }

  /** One step up: without the cap, the next directory of the way is on top. */
  lemma ClimbStep(store: Files, opens: Path -> bool, c: Path, n: nat, stack: seq<Path>, left: set<Path>) returns (next: seq<Path>)
    requires Reachable(store, opens, c) && n < |c|
    requires Ready(store, stack, left) && stack != [] && stack[|stack| - 1] == c[..n] && |stack| == Height(store, c[..n])
    ensures next != [] && next[|next| - 1] == c[..n + 1] && |next| == Height(store, c[..n + 1])
    ensures Ready(store, next, left - {c[..n]}) && Ready(store, Capped(next), left - {c[..n]})
    ensures c in Visits(store, opens, Toward(c), stack, left) ==> c in Visits(store, opens, Toward(c), Capped(next), left - {c[..n]})
  {
    var d := c[..n];
    var subs := Subdirs(store, d, Listing(store, Toward(c), d));
    WayLast(store, opens, c, n);
    hide Ready, Height, Subdirs, Reachable, Toward, Children, Listing, Visits, Capped, Way;
    ReadyStep(store, stack, left, subs);
    next := stack[..|stack| - 1] + subs;
    ReadyPop(store, stack, left);
    if c in Visits(store, opens, Toward(c), stack, left) { VisitsNotTop(store, opens, Toward(c), stack, left, c); }
    assert Next(store, opens, Toward(c), stack) == Capped(next);
  }

  lemma VisitsNotTop(store: Files, opens: Path -> bool, order: Order, stack: seq<Path>, left: set<Path>, x: Path)
    requires stack != [] && stack[|stack| - 1] != x && x in Visits(store, opens, order, stack, left)
    ensures x in Visits(store, opens, order, Next(store, opens, order, stack), left - {stack[|stack| - 1]})
  {
    hide Next;
  }

  /** The order leaves the next directory of the way on top. */
  lemma WayLast(store: Files, opens: Path -> bool, c: Path, n: nat)
    requires Reachable(store, opens, c) && n < |c|
    ensures var d := c[..n]; var subs := Subdirs(store, d, Listing(store, Toward(c), d));
            && subs != [] && subs[|subs| - 1] == c[..n + 1] && Children(store, d, subs) && opens(d)
            && Height(store, c[..n + 1]) == Height(store, d) - 1 + |subs|
  {
    var d, es := c[..n], Listing(store, Toward(c), c[..n]);
    assert Enumerates(es, Names(store, d));
    SubdirsAre(store, d, es);
    ListingCount(store, Toward(c), d);
    InnerDir(store, d, c);
    assert es[|es| - 1] == c[n] && Pushed(store, d, c[n]) && d + [c[n]] == c[..n + 1];
    ChildPlace(store, d, c[..n + 1]);
  }

  /** A directory too high for the stack is dropped by the order that lists the way to it last. */
  lemma CrowdedDrops(store: Files, opens: Path -> bool, c: Path)
    requires Reachable(store, opens, c) && Height(store, c) > MAX_STACK
    requires forall i :: 0 <= i < |c| ==> Height(store, c[..i]) <= MAX_STACK
    ensures !ListsAll(store, opens, Toward(c))
  {
    var n := |c| - 1;
    assert c[..n + 1] == c;
    var stack, left := ClimbTo(store, opens, c, n);
    var next := ClimbStep(store, opens, c, n, stack, left);
    var left' := left - {c[..n]};
    assert forall i :: 0 <= i < |Capped(next)| ==> !Way(opens, Capped(next)[i], next[|next| - 1]);
    if c in Visits(store, opens, Toward(c), Capped(next), left') {
      VisitsOnWay(store, opens, Toward(c), Capped(next), left', c);
    }
  }

  lemma LowestTooHigh(store: Files, opens: Path -> bool, d: Path) returns (c: Path)
    requires Reachable(store, opens, d) && Height(store, d) > MAX_STACK
    ensures Reachable(store, opens, c) && Height(store, c) > MAX_STACK
    ensures forall i :: 0 <= i < |c| ==> Height(store, c[..i]) <= MAX_STACK
    decreases |d|
  {
    c := d;
    if i :| 0 <= i < |d| && Height(store, d[..i]) > MAX_STACK {
      WayPart(store, opens, d, i);
      c := LowestTooHigh(store, opens, d[..i]);
    }
  }

  lemma WayPart(store: Files, opens: Path -> bool, d: Path, i: nat)
    requires Reachable(store, opens, d) && i < |d|
    ensures Reachable(store, opens, d[..i])
  {
    assert forall n :: 0 <= n <= i ==> d[..i][..n] == d[..n];
    var p :| p in store && Above(d, p);
    assert Above(d[..i], p);
  }

  /** The walk lists every directory it can reach, whatever the order of listing, exactly if every
      such directory finds room on the stack. */
  lemma WalkExactly(store: Files, opens: Path -> bool)
    ensures (forall order | ListsFully(order) :: ListsAll(store, opens, order)) <==> Roomy(store, opens)
  {
    if Roomy(store, opens) {
      forall order | ListsFully(order) ensures ListsAll(store, opens, order) { RoomyListsAll(store, opens, order); }
    } else {
      var d :| Reachable(store, opens, d) && Height(store, d) > MAX_STACK;
      var c := LowestTooHigh(store, opens, d);
      CrowdedDrops(store, opens, c);
      assert ListsFully(Toward(c));
    }
  }
}
