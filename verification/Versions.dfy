/** drv_version_cmp (hardware/driver.c): the order on version strings. */
module Versions {

  const ULONG_MAX := 0xFFFF_FFFF_FFFF_FFFF
  /** A non-numeric run is compared in pieces of at most this many characters. */
  const RUN_MAX := 31

  predicate Digit(c: char) { '0' <= c <= '9' }

  function DigitValue(c: char): nat
    requires Digit(c)
  {
    (c - '0') as nat
  }

  /** How many leading characters are digits. */
  function DigitRun(s: string): (n: nat)
    ensures n <= |s| && forall i :: 0 <= i < n ==> Digit(s[i])
    ensures n < |s| ==> !Digit(s[n])
  {
    if s == "" || !Digit(s[0]) then 0 else 1 + DigitRun(s[1..])
  }

  /** How many leading characters are not digits, at most RUN_MAX. */
  function OtherRun(s: string, limit: nat): (n: nat)
    ensures n <= |s| && n <= limit
    ensures s != "" && !Digit(s[0]) && limit > 0 ==> n > 0
  {
    if s == "" || Digit(s[0]) || limit == 0 then 0 else 1 + OtherRun(s[1..], limit - 1)
  }

  function Decimal(s: string): nat
    requires forall i :: 0 <= i < |s| ==> Digit(s[i])
  {
    if s == "" then 0 else 10 * Decimal(s[..|s| - 1]) + DigitValue(s[|s| - 1])
  }

  /** strtoul of a run of digits: a value out of range reads as the largest one. */
  function Number(s: string): nat
    requires forall i :: 0 <= i < |s| ==> Digit(s[i])
  {
    if Decimal(s) <= ULONG_MAX then Decimal(s) else ULONG_MAX
  }

  /** strcmp, as a sign. */
  function StringOrder(a: string, b: string): (r: int) {
    if a == "" && b == "" then 0
    else if a == "" then -1
    else if b == "" then 1
    else if a[0] < b[0] then -1
    else if a[0] > b[0] then 1
    else StringOrder(a[1..], b[1..])
  }

  predicate Separator(c: char) { c == '-' || c == '.' || c == '~' || c == '+' || c == '_' }

  function Lower(c: char): char { if 'A' <= c <= 'Z' then c - 'A' + 'a' else c }

  predicate StartsWith(s: string, mark: string) {
    |mark| <= |s| && forall i :: 0 <= i < |mark| ==> Lower(s[i]) == mark[i]
  }

  const MARKS: seq<string> := ["rc", "alpha", "beta", "pre", "dev", "snapshot", "cvs", "git"]

  /** version_is_prerelease. */
  predicate Prerelease(rest: string) {
    if rest != "" && Separator(rest[0]) then Prerelease(rest[1..])
    else exists i :: 0 <= i < |MARKS| && StartsWith(rest, MARKS[i])
  }

  function SkipDot(s: string): string { if s != "" && s[0] == '.' then s[1..] else s }

  /** What is left decides once one string has ended. */
  function RestOrder(a: string, b: string): int
    requires a == "" || b == ""
  {
    if a == "" && b == "" then 0
    else if a != "" then (if Prerelease(a) then -1 else 1)
    else if Prerelease(b) then 1 else -1
  }

  /** The specification: compare number by number and run by run from the left. */
  function Order(a: string, b: string): (r: int)
    decreases |a| + |b|
  {
    if a == "" || b == "" then RestOrder(a, b)
    else if Digit(a[0]) && Digit(b[0]) then
      var i, j := DigitRun(a), DigitRun(b);
      var va, vb := Number(a[..i]), Number(b[..j]);
      if va != vb then (if va < vb then -1 else 1) else Order(SkipDot(a[i..]), SkipDot(b[j..]))
    else if !Digit(a[0]) && !Digit(b[0]) then
      var i, j := OtherRun(a, RUN_MAX), OtherRun(b, RUN_MAX);
      var c := StringOrder(a[..i], b[..j]);
      if c != 0 then c else Order(a[i..], b[j..])
    else if Digit(a[0]) then 1 else -1
  }

  /** drv_version_cmp: an absent or empty string comes before every other. */
  function Cmp(a: string, b: string): (r: int)
    ensures -1 <= r <= 1
  {
    OrderSign(a, b);
    if a == "" then (if b == "" then 0 else -1) else if b == "" then 1 else Order(a, b)
  }

  lemma StringOrderSign(a: string, b: string)
    ensures -1 <= StringOrder(a, b) <= 1 && StringOrder(b, a) == -StringOrder(a, b)
    ensures StringOrder(a, b) == 0 <==> a == b
  {
    if a != "" && b != "" && a[0] == b[0] {
      StringOrderSign(a[1..], b[1..]);
      assert a == [a[0]] + a[1..] && b == [b[0]] + b[1..];
    }
  }

  lemma {:induction false} OrderSign(a: string, b: string)
    ensures -1 <= Order(a, b) <= 1 && Order(b, a) == -Order(a, b)
    decreases |a| + |b|
  {
    if a != "" && b != "" {
      if Digit(a[0]) && Digit(b[0]) {
        OrderSign(SkipDot(a[DigitRun(a)..]), SkipDot(b[DigitRun(b)..]));
      } else if !Digit(a[0]) && !Digit(b[0]) {
        var i, j := OtherRun(a, RUN_MAX), OtherRun(b, RUN_MAX);
        StringOrderSign(a[..i], b[..j]);
        OrderSign(a[i..], b[j..]);
      }
    }
  }

  /** The comparison is antisymmetric on all strings. */
  lemma CmpAntisymmetric(a: string, b: string)
    ensures Cmp(b, a) == -Cmp(a, b)
  {
    OrderSign(a, b);
  }

  /** The loop of drv_version_cmp, advancing both strings. */
  method VersionCmp(a0: string, b0: string) returns (r: int)
    ensures r == Cmp(a0, b0)
  {
    if a0 == "" { return if b0 != "" then -1 else 0; }
    if b0 == "" { return 1; }
    var a, b := a0, b0;
    while a != "" && b != ""
      invariant Order(a, b) == Order(a0, b0)
      decreases |a| + |b|
    {
      if Digit(a[0]) && Digit(b[0]) {
        var i, j := DigitRun(a), DigitRun(b);
        var va, vb := Number(a[..i]), Number(b[..j]);
        a, b := a[i..], b[j..];
        if va != vb { return if va < vb then -1 else 1; }
      } else if !Digit(a[0]) && !Digit(b[0]) {
        var i, j := OtherRun(a, RUN_MAX), OtherRun(b, RUN_MAX);
        var c := StringOrder(a[..i], b[..j]);
        if c != 0 { StringOrderSign(a[..i], b[..j]); return if c < 0 then -1 else 1; }
        a, b := a[i..], b[j..];
        continue;
      } else {
        return if Digit(a[0]) then 1 else -1;
      }
      a, b := SkipDot(a), SkipDot(b);
    }
    if a != "" || b != "" {
      var rest := if a != "" then a else b;
      if Prerelease(rest) { return if a != "" then -1 else 1; }
      return if a != "" then 1 else -1;
    }
    return 0;
  }

  // ------------------------------------------------------------ dotted numbers

  /** A well-formed dotted version: components of digits, each within range. */
  predicate Component(s: string) {
    s != "" && (forall i :: 0 <= i < |s| ==> Digit(s[i])) && Decimal(s) <= ULONG_MAX
  }

  /** The components joined by dots. */
  function Dotted(parts: seq<string>): string {
    if parts == [] then ""
    else if |parts| == 1 then parts[0]
    else parts[0] + "." + Dotted(parts[1..])
  }

  predicate Components(parts: seq<string>) {
    parts != [] && forall i :: 0 <= i < |parts| ==> Component(parts[i])
  }

  function Values(parts: seq<string>): seq<nat>
    requires forall i :: 0 <= i < |parts| ==> Component(parts[i])
  {
    if parts == [] then [] else
      assert Component(parts[0]);
      [Decimal(parts[0])] + Values(parts[1..])
  }

  /** Lexicographic order of number sequences; a proper prefix comes first. */
  function Lex(x: seq<nat>, y: seq<nat>): int {
    if x == [] && y == [] then 0
    else if x == [] then -1
    else if y == [] then 1
    else if x[0] != y[0] then (if x[0] < y[0] then -1 else 1)
    else Lex(x[1..], y[1..])
  }

  /** A component in front of the end or of a dot is read whole. */
  lemma HeadOf(c: string, tail: string)
    requires Component(c) && (tail == "" || tail[0] == '.')
    ensures var s := c + tail; s != "" && Digit(s[0]) && DigitRun(s) == |c| && s[..|c|] == c && s[|c|..] == tail
  {
    RunOf(c, tail);
    assert (c + tail)[0] == c[0];
  }

  /** What follows the first component. */
  function DottedTail(parts: seq<string>): string
    requires parts != []
  {
    if |parts| == 1 then "" else "." + Dotted(parts[1..])
  }

  lemma DottedTailIs(parts: seq<string>)
    requires parts != []
    ensures var tail := DottedTail(parts);
            && Dotted(parts) == parts[0] + tail && (tail == "" || tail[0] == '.') && SkipDot(tail) == Dotted(parts[1..])
  {
    var tail := DottedTail(parts);
    if |parts| == 1 {
      assert parts[0] + "" == parts[0];
    } else {
      assert tail[1..] == Dotted(parts[1..]);
    }
  }

  lemma DottedHead(parts: seq<string>)
    requires Components(parts)
    ensures var s := Dotted(parts);
            && s != "" && Digit(s[0]) && DigitRun(s) == |parts[0]| && s[..|parts[0]|] == parts[0]
            && SkipDot(s[|parts[0]|..]) == Dotted(parts[1..])
  {
    assert Component(parts[0]);
    DottedTailIs(parts);
    HeadOf(parts[0], DottedTail(parts));
  }

  lemma RunOf(c: string, tail: string)
    requires (forall i :: 0 <= i < |c| ==> Digit(c[i])) && (tail == "" || !Digit(tail[0]))
    ensures DigitRun(c + tail) == |c|
  {
    if c != "" {
      assert (c + tail)[1..] == c[1..] + tail;
      RunOf(c[1..], tail);
    } else {
      assert c + tail == tail;
    }
  }

  lemma DigitIsNoPrerelease(s: string)
    requires s != "" && Digit(s[0])
    ensures !Prerelease(s)
  {
    forall i | 0 <= i < |MARKS| ensures !StartsWith(s, MARKS[i]) {
      assert MARKS[i] != "" && !Digit(MARKS[i][0]);
      assert Lower(s[0]) == s[0];
    }
  }

  /** On dotted numbers the comparison is the lexicographic order of the components. */
  lemma {:induction false} DottedOrder(x: seq<string>, y: seq<string>)
    requires Components(x) && Components(y)
    ensures Cmp(Dotted(x), Dotted(y)) == Lex(Values(x), Values(y))
    decreases |x|
  {
    DottedHead(x);
    DottedHead(y);
    assert Component(x[0]) && Component(y[0]);
    assert Values(x)[1..] == Values(x[1..]) && Values(y)[1..] == Values(y[1..]);
    if Decimal(x[0]) == Decimal(y[0]) {
      assert Order(Dotted(x), Dotted(y)) == Order(Dotted(x[1..]), Dotted(y[1..]));
      RestNumbers(x[1..]);
      RestNumbers(y[1..]);
      if |x| > 1 && |y| > 1 { DottedOrder(x[1..], y[1..]); }
    }
  }

  /** What follows the first component is empty or starts with a digit. */
  lemma RestNumbers(parts: seq<string>)
    requires forall i :: 0 <= i < |parts| ==> Component(parts[i])
    ensures parts == [] ==> Dotted(parts) == ""
    ensures parts != [] ==> Dotted(parts) != "" && !Prerelease(Dotted(parts))
  {
    if parts != [] {
      DottedHead(parts);
      DigitIsNoPrerelease(Dotted(parts));
    }
  }

  /** x comes before y: they agree up to some place, where x ends or is smaller. */
  ghost predicate Earlier(x: seq<nat>, y: seq<nat>) { exists k :: DiffersAt(x, y, k) }

  predicate DiffersAt(x: seq<nat>, y: seq<nat>, k: nat) {
    k <= |x| && k < |y| && x[..k] == y[..k] && (k == |x| || x[k] < y[k])
  }

  /** The sign of the comparison is that order. */
  lemma {:induction false} LexMeans(x: seq<nat>, y: seq<nat>)
    ensures (Lex(x, y) < 0 <==> Earlier(x, y)) && (Lex(x, y) == 0 <==> x == y) && (Lex(x, y) > 0 <==> Earlier(y, x))
    decreases |x|
  {
    if x != [] && y != [] && x[0] == y[0] {
      LexMeans(x[1..], y[1..]);
      EarlierTail(x, y);
      EarlierTail(y, x);
      assert x == [x[0]] + x[1..] && y == [y[0]] + y[1..];
    } else {
      if x == [] && y != [] { assert DiffersAt(x, y, 0); }
      if y == [] && x != [] { assert DiffersAt(y, x, 0); }
      if x != [] && y != [] {
        if x[0] < y[0] {
          assert DiffersAt(x, y, 0);
          FirstDecides(y, x);
        } else {
          assert DiffersAt(y, x, 0);
          FirstDecides(x, y);
        }
      }
    }
  }

  lemma FirstDecides(x: seq<nat>, y: seq<nat>)
    requires x != [] && y != [] && x[0] > y[0]
    ensures !Earlier(x, y)
  {
    forall k: nat ensures !DiffersAt(x, y, k) {
      if 0 < k <= |x| && k <= |y| { assert x[..k][0] == x[0] && y[..k][0] == y[0]; }
    }
  }

  lemma EarlierTail(x: seq<nat>, y: seq<nat>)
    requires x != [] && y != [] && x[0] == y[0]
    ensures Earlier(x, y) <==> Earlier(x[1..], y[1..])
  {
    if k: nat :| DiffersAt(x, y, k) {
      assert k > 0 && x[1..][..k - 1] == x[..k][1..] && y[1..][..k - 1] == y[..k][1..];
      assert DiffersAt(x[1..], y[1..], k - 1);
    }
    if k: nat :| DiffersAt(x[1..], y[1..], k) {
      assert x[..k + 1] == [x[0]] + x[1..][..k] && y[..k + 1] == [y[0]] + y[1..][..k];
      assert DiffersAt(x, y, k + 1);
    }
  }

  /** The lexicographic order is total and transitive. */
  lemma LexTransitive(x: seq<nat>, y: seq<nat>, z: seq<nat>)
    requires Lex(x, y) <= 0 && Lex(y, z) <= 0
    ensures Lex(x, z) <= 0 && (Lex(x, z) == 0 ==> Lex(x, y) == 0 && Lex(y, z) == 0)
  {
    if x != [] && y != [] && z != [] && x[0] == y[0] == z[0] {
      LexTransitive(x[1..], y[1..], z[1..]);
    }
  }

  /** Equal leading numbers drop out. */
  lemma SameNumber(c: string, s: string, t: string)
    requires Component(c) && (s == "" || !Digit(s[0])) && (t == "" || !Digit(t[0]))
    ensures Order(c + s, c + t) == Order(SkipDot(s), SkipDot(t))
  {
    RunOf(c, s);
    RunOf(c, t);
    assert (c + s)[..|c|] == c == (c + t)[..|c|];
    assert (c + s)[|c|..] == s && (c + t)[|c|..] == t;
    assert (c + s)[0] == c[0] == (c + t)[0];
  }

  /** An unknown version comes before every known one. */
  lemma UnknownFirst(v: string)
    requires v != ""
    ensures Cmp("", v) < 0 && Cmp(v, "") > 0
  {
  }

  /** A suffix puts a dotted version before the plain one exactly if it marks a pre-release; any other
      puts it after. */
  lemma SuffixPlaces(x: seq<string>, suffix: string)
    requires Components(x) && suffix != "" && !Digit(suffix[0]) && suffix[0] != '.'
    ensures Cmp(Dotted(x) + suffix, Dotted(x)) == if Prerelease(suffix) then -1 else 1
  {
    DottedHead(x);
    SuffixOrder(x, suffix);
  }

  lemma {:induction false} SuffixOrder(x: seq<string>, suffix: string)
    requires Components(x) && suffix != "" && !Digit(suffix[0]) && suffix[0] != '.'
    ensures Order(Dotted(x) + suffix, Dotted(x)) == if Prerelease(suffix) then -1 else 1
    decreases |x|
  {
    assert Component(x[0]);
    if |x| == 1 {
      TailAlone(x, suffix);
      hide *;
      SuffixAlone(suffix);
      SameNumber(x[0], suffix, "");
    } else {
      TailMore(x, suffix);
      hide *;
      SameNumber(x[0], "." + (Dotted(x[1..]) + suffix), "." + Dotted(x[1..]));
      SuffixOrder(x[1..], suffix);
    }
  }

  lemma TailAlone(x: seq<string>, suffix: string)
    requires |x| == 1 && suffix != "" && suffix[0] != '.'
    ensures Dotted(x) + suffix == x[0] + suffix && Dotted(x) == x[0] + "" && SkipDot(suffix) == suffix && SkipDot("") == ""
  {
  }

  lemma TailMore(x: seq<string>, suffix: string)
    requires |x| > 1 && Components(x)
    ensures var d := Dotted(x[1..]);
            && Dotted(x) == x[0] + ("." + d) && Dotted(x) + suffix == x[0] + ("." + (d + suffix))
            && SkipDot("." + d) == d && SkipDot("." + (d + suffix)) == d + suffix
            && !Digit(("." + d)[0]) && !Digit(("." + (d + suffix))[0]) && Components(x[1..])
  {
    assert Dotted(x) == x[0] + "." + Dotted(x[1..]);
    hide Dotted;
    BehindDot(x[0], Dotted(x[1..]), suffix);
    hide *;
  }

  lemma BehindDot(c: string, d: string, suffix: string)
    ensures c + "." + d == c + ("." + d) && c + "." + d + suffix == c + ("." + (d + suffix))
    ensures SkipDot("." + d) == d && SkipDot("." + (d + suffix)) == d + suffix
    ensures !Digit(("." + d)[0]) && !Digit(("." + (d + suffix))[0])
  {
    assert ("." + d)[1..] == d && ("." + (d + suffix))[1..] == d + suffix;
  }

  lemma SuffixAlone(suffix: string)
    requires suffix != ""
    ensures Order(suffix, "") == if Prerelease(suffix) then -1 else 1
  {
  }

  /** A pre-release mark may stand behind any separators, in any case. */
  lemma {:induction false} MarksPrerelease(separators: string, mark: string, i: nat, rest: string)
    requires (forall k :: 0 <= k < |separators| ==> Separator(separators[k])) && i < |MARKS|
    requires |mark| == |MARKS[i]| && forall k :: 0 <= k < |mark| ==> Lower(mark[k]) == MARKS[i][k]
    ensures Prerelease(separators + mark + rest)
  {
    var s := separators + mark + rest;
    if separators == "" {
      assert StartsWith(s, MARKS[i]);
      assert MARKS[i] != "" && !Separator(MARKS[i][0]);
      assert s[0] == mark[0];
    } else {
      assert s[1..] == separators[1..] + mark + rest;
      MarksPrerelease(separators[1..], mark, i, rest);
    }
  }

  lemma PrereleaseSuffixes()
    ensures Prerelease("-rc1") && !Prerelease("-maclite")
  {
    assert "-rc1"[1..] == "rc1" && StartsWith("rc1", MARKS[0]);
    assert "-maclite"[1..] == "maclite";
    forall i | 0 <= i < |MARKS| ensures !StartsWith("maclite", MARKS[i]) { assert MARKS[i][0] != 'm'; }
  }

  lemma RunOrder()
    ensures Order("-maclite", "-rc1") == -1
  {
    OtherRuns("-maclite", 0, 8, RUN_MAX);
    OtherRuns("-rc1", 0, 3, RUN_MAX);
    assert StringOrder("-maclite", "-rc") == -1 by {
      assert "-maclite"[1..] == "maclite" && "-rc"[1..] == "rc";
    }
    assert "-maclite"[..8] == "-maclite" && "-rc1"[..3] == "-rc";
  }

  lemma OtherRuns(s: string, i: nat, n: nat, limit: nat)
    requires i <= n <= |s| && n - i <= limit && (forall k :: i <= k < n ==> !Digit(s[k])) && (n < |s| ==> Digit(s[n]))
    ensures OtherRun(s[i..], limit) == n - i
    decreases n - i
  {
    if i < n {
      assert s[i..][1..] == s[i + 1..];
      OtherRuns(s, i + 1, n, limit - 1);
    }
  }

  /** Suffixes break transitivity: for every number c, each of these versions comes before the
      next, and the last before the first. */
  lemma SuffixCycle(c: string)
    requires Component(c)
    ensures Cmp(c + "-rc1", c) == -1 && Cmp(c, c + "-maclite") == -1 && Cmp(c + "-maclite", c + "-rc1") == -1
  {
    assert c + "" == c;
    SameNumber(c, "-rc1", "");
    SameNumber(c, "", "-maclite");
    SameNumber(c, "-maclite", "-rc1");
    PrereleaseSuffixes();
    RunOrder();
  }
}
