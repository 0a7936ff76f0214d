/** The paths and files of the known-good store of hardware/driver.c. */
module Paths {
  import opened Wrappers

  /** A path, component by component: below the install root for live files, below the
      known-good directory for the store. The snapshot of a live file has the same path there. */
  type Path = seq<string>
  type Bytes = seq<int>
  type Files = map<Path, Bytes>

  const ABSENT: string := ".absent"

  // ------------------------------------------------------------ names

  function Last(p: Path): string
    requires p != []
  {
    p[|p| - 1]
  }

  function Parent(p: Path): Path
    requires p != []
  {
    p[..|p| - 1]
  }

  /** The store path of the marker that says p did not exist. */
  function Marker(p: Path): Path
    requires p != []
  {
    Parent(p) + [Last(p) + ABSENT]
  }

  predicate MarkerName(name: string) {
    |name| >= |ABSENT| && name[|name| - |ABSENT|..] == ABSENT
  }

  predicate EndsAbsent(p: Path) { p != [] && MarkerName(Last(p)) }

  /** The destination a marker stands for. */
  function Unmarked(m: Path): Path
    requires EndsAbsent(m)
  {
    Parent(m) + [Last(m)[..|Last(m)| - |ABSENT|]]
  }

  /** The destination a store file is about. */
  function Dest(s: Path): Path {
    if EndsAbsent(s) then Unmarked(s) else s
  }

  lemma MarkerFacts(p: Path)
    requires p != []
    ensures EndsAbsent(Marker(p)) && Unmarked(Marker(p)) == p && |Marker(p)| == |p|
    ensures Parent(Marker(p)) == Parent(p) && Last(Marker(p)) == Last(p) + ABSENT && Marker(p) != p
  {
    assert Last(Marker(p)) == Last(p) + ABSENT;
    assert (Last(p) + ABSENT)[..|Last(p)|] == Last(p) && (Last(p) + ABSENT)[|Last(p)|..] == ABSENT;
    assert Parent(Marker(p)) == Parent(p) && Parent(p) + [Last(p)] == p;
  }

  lemma UnmarkedFacts(m: Path)
    requires EndsAbsent(m)
    ensures Unmarked(m) != [] && Marker(Unmarked(m)) == m && |Unmarked(m)| == |m| && Parent(Unmarked(m)) == Parent(m)
  {
    var u, n := Unmarked(m), |Last(m)| - |ABSENT|;
    assert Last(m)[..n] + Last(m)[n..] == Last(m);
    assert Parent(u) == Parent(m) && Last(u) == Last(m)[..n];
    assert Parent(m) + [Last(m)] == m;
  }

  /** readdir entries that start with a dot are skipped. */
  predicate Hidden(name: string) { name != "" && name[0] == '.' }

  predicate Shown(p: Path) { forall i :: 0 <= i < |p| ==> !Hidden(p[i]) }

  /** A path of a file: no component is empty. */
  predicate Named(p: Path) { p != [] && forall i :: 0 <= i < |p| ==> p[i] != "" }

  /** Above: a is a directory on the way to p. */
  predicate Above(a: Path, p: Path) { a <= p && |a| < |p| }

  /** Destinations whose records cannot be mistaken for one another: none has a hidden component,
      none reads as a marker, and none lies below the marker of another. */
  ghost predicate Clear(all: set<Path>) {
    && (forall p :: p in all ==> Named(p) && Shown(p) && !EndsAbsent(p))
    && (forall p, q :: p in all && q in all && p != [] ==> !Above(Marker(p), q))
  }

  // ------------------------------------------------------------ files

  function Get(fs: Files, p: Path): Option<Bytes> { if p in fs then Some(fs[p]) else None }

  /** No file is also a directory. */
  ghost predicate TreeLike(fs: Files) {
    forall p, q :: p in fs && q in fs && p <= q ==> p == q
  }

  /** p can be created or replaced without a file becoming a directory. */
  predicate CanHold(fs: Files, p: Path) {
    forall q :: q in fs && (q <= p || p <= q) ==> q == p
  }

  predicate IsDir(fs: Files, d: Path) { exists p :: p in fs && Above(d, p) }

  /** access(2): a file or a directory is there. */
  predicate Exists(fs: Files, p: Path) { p in fs || IsDir(fs, p) }

  lemma SameFiles(a: Files, b: Files)
    requires forall p :: Get(a, p) == Get(b, p)
    ensures a == b
  {
    assert forall p :: p in a <==> Get(a, p).Some?;
    assert forall p :: p in b <==> Get(b, p).Some?;
    assert a.Keys == b.Keys;
  }

  /** How a file copy ends: complete, not even opened, or cut short after n bytes. */
  datatype Outcome = Done | NotOpened | Short(n: nat)

  datatype Copy = Copy(ok: bool, fs: Files)

  /** copy_file, or any write of bytes: it may fail before or after opening the target. */
  function Copied(fs: Files, bytes: Option<Bytes>, dst: Path, outcome: Outcome): (c: Copy) {
    if bytes.None? || !CanHold(fs, dst) then Copy(false, fs)
    else match outcome
      case Done => Copy(true, fs[dst := bytes.value])
      case NotOpened => Copy(false, fs)
      case Short(n) => Copy(false, fs[dst := bytes.value[..if n <= |bytes.value| then n else |bytes.value|]])
  }

  /** unlink: a missing file is as good as a removed one, a directory in the way is not. */
  function Unlinked(fs: Files, d: Path, outcome: Outcome): (c: Copy) {
    if d !in fs then Copy(CanHold(fs, d), fs)
    else if !outcome.Done? then Copy(false, fs)
    else Copy(true, fs - {d})
  }
}
