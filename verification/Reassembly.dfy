/** drain_backend_output and the final flush of finish_backend_if_needed
    (installer/mica-installer.c): lines reassembled from arbitrary reads of a pipe. */
module Reassembly {
  import opened Numbers

  type Line = seq<byte>

  const NEWLINE: byte := 10
  const BUFFER := 4096
  const KEEP := 2048
  const READ_MAX := 1024

  // ------------------------------------------------------------ newline split

  /** No newline in s. */
  predicate Unbroken(s: seq<byte>) { forall k :: 0 <= k < |s| ==> s[k] != NEWLINE }

  function FirstNewline(s: seq<byte>): (i: nat)
    ensures i <= |s| && (forall k :: 0 <= k < i ==> s[k] != NEWLINE) && (i < |s| ==> s[i] == NEWLINE)
  {
    if s == [] || s[0] == NEWLINE then 0 else 1 + FirstNewline(s[1..])
  }

  /** What follows the first line. */
  function AfterLine(s: seq<byte>): seq<byte>
    requires FirstNewline(s) < |s|
  {
    s[FirstNewline(s) + 1..]
  }

  /** The terminated lines of s, without their newlines. */
  function Lines(s: seq<byte>): seq<Line>
    decreases |s|
  {
    if FirstNewline(s) == |s| then [] else [s[..FirstNewline(s)]] + Lines(AfterLine(s))
  }

  /** What follows the last newline. */
  function Rest(s: seq<byte>): (r: seq<byte>)
    ensures Unbroken(r) && |r| <= |s|
    decreases |s|
  {
    if FirstNewline(s) == |s| then s else Rest(AfterLine(s))
  }

  lemma LinesStep(s: seq<byte>)
    requires FirstNewline(s) < |s|
    ensures Lines(s) == [s[..FirstNewline(s)]] + Lines(AfterLine(s)) && Lines(s)[1..] == Lines(AfterLine(s))
    ensures Rest(s) == Rest(AfterLine(s))
  {
    RestStep(s);
  }

  lemma FirstNewlineIs(s: seq<byte>, i: nat)
    requires i <= |s| && (forall k :: 0 <= k < i ==> s[k] != NEWLINE) && (i < |s| ==> s[i] == NEWLINE)
    ensures FirstNewline(s) == i
  {
  }

  /** Splitting may be done in two parts, the remainder of the first put before the second. */
  lemma {:induction false} SplitAppend(a: seq<byte>, b: seq<byte>)
    ensures Lines(a + b) == Lines(a) + Lines(Rest(a) + b) && Rest(a + b) == Rest(Rest(a) + b)
    decreases |a|
  {
    if FirstNewline(a) < |a| {
      SplitAppend(AfterLine(a), b);
      FirstLineAppend(a, b);
      LinesStep(a);
      LinesStep(a + b);
    }
  }

  lemma FirstLineAppend(a: seq<byte>, b: seq<byte>)
    requires FirstNewline(a) < |a|
    ensures FirstNewline(a + b) == FirstNewline(a)
    ensures (a + b)[..FirstNewline(a)] == a[..FirstNewline(a)] && AfterLine(a + b) == AfterLine(a) + b
  {
    FirstNewlineIs(a + b, FirstNewline(a));
  }

  lemma RestOnly(r: seq<byte>)
    requires Unbroken(r)
    ensures Lines(r) == [] && Rest(r) == r
  {
    FirstNewlineIs(r, |r|);
  }

  predicate LineStart(s: seq<byte>, i: int) {
    0 <= i <= |s| && (i == 0 || s[i - 1] == NEWLINE)
  }

  /** r is a suffix of s that starts where a line starts. */
  predicate Tail(s: seq<byte>, r: seq<byte>) {
    |r| <= |s| && r == s[|s| - |r|..] && LineStart(s, |s| - |r|)
  }

  lemma WholeIsTail(s: seq<byte>)
    ensures Tail(s, s)
  {
    assert s[0..] == s;
  }

  lemma TailAfterLine(s: seq<byte>, r: seq<byte>)
    requires FirstNewline(s) < |s| && Tail(AfterLine(s), r)
    ensures Tail(s, r)
  {
    hide *;
    NewlineThere(s);
    SuffixIsTail(s, FirstNewline(s), r);
  }

  lemma SuffixIsTail(s: seq<byte>, i: nat, r: seq<byte>)
    requires i < |s| && s[i] == NEWLINE && Tail(s[i + 1..], r)
    ensures Tail(s, r)
  {
    var t := s[i + 1..];
    var j := |t| - |r|;
    assert t[j..] == s[i + 1 + j..];
    if j > 0 { assert t[j - 1] == s[i + j]; }
  }

  lemma RestStep(s: seq<byte>)
    requires FirstNewline(s) < |s|
    ensures Rest(s) == Rest(AfterLine(s)) && |AfterLine(s)| < |s|
  {
    assert |AfterLine(s)| < |s|;
    hide FirstNewline, AfterLine;
  }

  lemma RestWhole(s: seq<byte>)
    requires FirstNewline(s) == |s|
    ensures Rest(s) == s
  {
  }

  lemma {:induction false} RestStarts(s: seq<byte>)
    ensures Tail(s, Rest(s))
    decreases |s|
  {
    hide *;
    if FirstNewline(s) < |s| {
      RestStep(s);
      RestStarts(AfterLine(s));
      TailAfterLine(s, Rest(AfterLine(s)));
    } else {
      NewlineBound(s);
      RestWhole(s);
      WholeIsTail(s);
    }
  }

  lemma NewlineBound(s: seq<byte>)
    ensures FirstNewline(s) <= |s|
  {
  }

  lemma NewlineThere(s: seq<byte>)
    requires FirstNewline(s) < |s|
    ensures s[FirstNewline(s)] == NEWLINE && AfterLine(s) == s[FirstNewline(s) + 1..]
  {
  }

  /** A line start with no newline after it is where the remainder starts. */
  lemma RestFrom(s: seq<byte>, i: nat)
    requires LineStart(s, i) && Unbroken(s[i..])
    ensures Rest(s) == s[i..]
  {
    RestStarts(s);
    SameStart(s, i, |s| - |Rest(s)|);
  }

  lemma SameStart(s: seq<byte>, i: nat, j: nat)
    requires LineStart(s, i) && Unbroken(s[i..]) && LineStart(s, j) && Unbroken(s[j..])
    ensures i == j
  {
    assert forall k :: i <= k < |s| ==> s[k] == s[i..][k - i];
    assert forall k :: j <= k < |s| ==> s[k] == s[j..][k - j];
  }

  /** Bytes accounted for by lines and remainder. */
  function Bytes(lines: seq<Line>, rest: seq<byte>): nat {
    if lines == [] then |rest| else |lines[0]| + 1 + Bytes(lines[1..], rest)
  }

  lemma {:induction false} BytesAppend(a: seq<Line>, b: seq<Line>, rest: seq<byte>)
    ensures Bytes(a + b, rest) == Bytes(a, []) + Bytes(b, rest)
  {
    if a == [] {
      assert a + b == b;
    } else {
      assert (a + b)[1..] == a[1..] + b;
      BytesAppend(a[1..], b, rest);
    }
  }

  lemma {:induction false} SplitKeepsBytes(s: seq<byte>)
    ensures Bytes(Lines(s), Rest(s)) == |s|
    decreases |s|
  {
    if FirstNewline(s) < |s| {
      SplitKeepsBytes(AfterLine(s));
      LinesStep(s);
    }
  }

  // -------------------------------------------------------------------- feed

  /** What has been parsed, what is still buffered, and whether the channel is open: the parser
      closes it on a line that reports a failure. */
  datatype Feed = Feed(lines: seq<Line>, rest: seq<byte>, open: bool)

  predicate NoneFails(lines: seq<Line>, fails: Line -> bool) {
    forall k :: 0 <= k < |lines| ==> !fails(lines[k])
  }

  predicate Overflows(rest: seq<byte>, chunk: seq<byte>) { |rest| + |chunk| > BUFFER }

  /** What is kept of the buffer when a chunk arrives. */
  function Kept(rest: seq<byte>, chunk: seq<byte>): seq<byte> {
    if Overflows(rest, chunk) && |rest| >= KEEP then rest[|rest| - KEEP..] else rest
  }

  function Receive(f: Feed, chunk: seq<byte>, fails: Line -> bool): Feed {
    if !f.open then f else
      var s := Kept(f.rest, chunk) + chunk;
      Feed(f.lines + Lines(s), Rest(s), NoneFails(Lines(s), fails))
  }

  /** The reads of several ticks one after the other. */
  function Joined(drains: seq<seq<seq<byte>>>): seq<seq<byte>> {
    if drains == [] then [] else Joined(drains[..|drains| - 1]) + drains[|drains| - 1]
  }

  predicate Readable(chunks: seq<seq<byte>>) {
    forall k :: 0 <= k < |chunks| ==> 0 < |chunks[k]| <= READ_MAX
  }

  function Received(chunks: seq<seq<byte>>, fails: Line -> bool): Feed {
    if chunks == [] then Feed([], [], true)
    else Receive(Received(chunks[..|chunks| - 1], fails), chunks[|chunks| - 1], fails)
  }

  lemma ReceivedMore(chunks: seq<seq<byte>>, chunk: seq<byte>, fails: Line -> bool)
    ensures Received(chunks + [chunk], fails) == Receive(Received(chunks, fails), chunk, fails)
  {
    assert (chunks + [chunk])[..|chunks|] == chunks;
  }

  lemma ChunkReadable(chunks: seq<seq<byte>>, k: nat)
    requires Readable(chunks) && k < |chunks|
    ensures 0 < |chunks[k]| <= READ_MAX
  {
  }

  lemma ClosedStays(f: Feed, chunk: seq<byte>, fails: Line -> bool)
    requires !f.open
    ensures Receive(f, chunk, fails) == f
  {
  }

  lemma JoinedNone(before: seq<seq<byte>>, drains: seq<seq<seq<byte>>>)
    ensures before + Joined(drains[..0]) == before
  {
  }

  lemma JoinedMore(before: seq<seq<byte>>, drains: seq<seq<seq<byte>>>, i: nat)
    requires i < |drains|
    ensures before + Joined(drains[..i + 1]) == before + Joined(drains[..i]) + drains[i]
  {
    assert drains[..i + 1][..i] == drains[..i];
  }

  function Flat(chunks: seq<seq<byte>>): seq<byte> {
    if chunks == [] then [] else Flat(chunks[..|chunks| - 1]) + chunks[|chunks| - 1]
  }

  /** Some line reaches more than 3072 bytes while more than 4096 follow its start. */
  ghost predicate Overlong(s: seq<byte>) {
    exists i :: LongLine(s, i)
  }

  predicate LongLine(s: seq<byte>, i: int) {
    0 <= i < |s| - BUFFER && LineStart(s, i) && Unbroken(s[i..i + BUFFER - READ_MAX + 1])
  }

  lemma OverflowIsOverlong(before: seq<byte>, chunk: seq<byte>, after: seq<byte>)
    requires |chunk| <= READ_MAX && Overflows(Rest(before), chunk)
    ensures Overlong(before + chunk + after)
  {
    var s := before + chunk + after;
    RestStarts(before);
    var i := |before| - |Rest(before)|;
    assert Rest(before) == before[i..] && LineStart(s, i);
    assert s[i..i + BUFFER - READ_MAX + 1] == Rest(before)[..BUFFER - READ_MAX + 1];
    assert LongLine(s, i);
  }

  lemma NoOverflow(before: seq<byte>, chunk: seq<byte>, after: seq<byte>)
    requires |chunk| <= READ_MAX && !Overlong(before + chunk + after)
    ensures !Overflows(Rest(before), chunk)
  {
    if Overflows(Rest(before), chunk) { OverflowIsOverlong(before, chunk, after); }
  }

  /** For a stream without overlong lines, every way the pipe splits it: the lines parsed are the
      newline split up to where the channel closed, which happens exactly if some line fails. */
  lemma {:induction false} AnyChunking(chunks: seq<seq<byte>>, after: seq<byte>, fails: Line -> bool)
    requires Readable(chunks) && !Overlong(Flat(chunks) + after)
    ensures var f, s := Received(chunks, fails), Flat(chunks);
            && f.lines <= Lines(s)
            && (f.open <==> NoneFails(Lines(s), fails))
            && (f.open ==> f.lines == Lines(s) && f.rest == Rest(s))
    decreases |chunks|
  {
    if chunks == [] {
      RestOnly([]);
    } else {
      var front, chunk := chunks[..|chunks| - 1], chunks[|chunks| - 1];
      var s := Flat(front);
      assert s + chunk + after == s + (chunk + after);
      AnyChunking(front, chunk + after, fails);
      NoOverflow(s, chunk, after);
      SplitAppend(s, chunk);
      FailsAppend(Lines(s), Lines(Rest(s) + chunk), fails);
    }
  }

  lemma FailsAppend(a: seq<Line>, b: seq<Line>, fails: Line -> bool)
    ensures NoneFails(a + b, fails) <==> NoneFails(a, fails) && NoneFails(b, fails)
  {
    assert forall k :: 0 <= k < |a| ==> (a + b)[k] == a[k];
    assert forall k :: 0 <= k < |b| ==> (a + b)[|a| + k] == b[k];
  }

  /** Lines of at most 3072 bytes are never overlong and leave room for the terminator. */
  lemma ShortLinesFit(s: seq<byte>)
    requires forall i, j :: 0 <= i <= j <= |s| && Unbroken(s[i..j]) ==> j - i <= BUFFER - READ_MAX
    ensures !Overlong(s) && |Rest(s)| < BUFFER
  {
    RestStarts(s);
    var i := |s| - |Rest(s)|;
    assert s[i..|s|] == s[i..];
  }

  // --------------------------------------------------- exactly when none is lost

  /** Never more bytes than arrived; fewer once the buffer overflowed. */
  lemma {:induction false} BytesBound(chunks: seq<seq<byte>>)
    requires Readable(chunks)
    ensures var f := Received(chunks, Never); f.open && Bytes(f.lines, f.rest) <= |Flat(chunks)|
    ensures var f := Received(chunks, Never); |f.rest| <= BUFFER
    ensures chunks != [] ==>
              var g := Received(chunks[..|chunks| - 1], Never);
              (Overflows(g.rest, chunks[|chunks| - 1]) || Bytes(g.lines, g.rest) < |Flat(chunks[..|chunks| - 1])| ==>
                 Bytes(Received(chunks, Never).lines, Received(chunks, Never).rest) < |Flat(chunks)|)
    decreases |chunks|
  {
    if chunks != [] {
      var chunk := chunks[|chunks| - 1];
      BytesBound(chunks[..|chunks| - 1]);
      ReceiveBytes(Received(chunks[..|chunks| - 1], Never), chunk);
    }
  }

  function Never(l: Line): bool { false }

  lemma ReceiveBytes(g: Feed, chunk: seq<byte>)
    requires g.open && |chunk| <= READ_MAX && |g.rest| <= BUFFER
    ensures var f := Receive(g, chunk, Never);
            && f.open && |f.rest| <= BUFFER
            && Bytes(f.lines, f.rest) <= Bytes(g.lines, g.rest) + |chunk|
            && (Overflows(g.rest, chunk) ==> Bytes(f.lines, f.rest) < Bytes(g.lines, g.rest) + |chunk|)
  {
    var s := Kept(g.rest, chunk) + chunk;
    SplitKeepsBytes(s);
    BytesAppend(g.lines, Lines(s), Rest(s));
    assert g.lines + [] == g.lines;
    BytesAppend(g.lines, [], g.rest);
  }

  /** Once bytes are missing they stay missing. */
  lemma {:induction false} LossIsFinal(chunks: seq<seq<byte>>, k: nat)
    requires Readable(chunks) && k <= |chunks|
    requires Bytes(Received(chunks[..k], Never).lines, Received(chunks[..k], Never).rest) < |Flat(chunks[..k])|
    ensures Bytes(Received(chunks, Never).lines, Received(chunks, Never).rest) < |Flat(chunks)|
    decreases |chunks|
  {
    if k == |chunks| {
      assert chunks[..k] == chunks;
    } else {
      assert chunks[..|chunks| - 1][..k] == chunks[..k];
      LossIsFinal(chunks[..|chunks| - 1], k);
      BytesBound(chunks);
    }
  }

  /** As long as nothing is missing, the state is the split. */
  lemma {:induction false} ExactUntilLoss(chunks: seq<seq<byte>>)
    requires Readable(chunks)
    ensures var f, s := Received(chunks, Never), Flat(chunks);
            Bytes(f.lines, f.rest) < |s| || (f.lines == Lines(s) && f.rest == Rest(s))
    decreases |chunks|
  {
    if chunks == [] {
      RestOnly([]);
    } else {
      ExactUntilLoss(chunks[..|chunks| - 1]);
      BytesBound(chunks);
      SplitAppend(Flat(chunks[..|chunks| - 1]), chunks[|chunks| - 1]);
    }
  }

  function Singles(s: seq<byte>): (c: seq<seq<byte>>)
    ensures Readable(c) && |c| == |s|
  {
    if s == [] then [] else Singles(s[..|s| - 1]) + [[s[|s| - 1]]]
  }

  lemma {:induction false} SinglesFlat(s: seq<byte>)
    ensures Flat(Singles(s)) == s
  {
    if s != [] {
      SinglesFlat(s[..|s| - 1]);
      SinglesStep(s);
      FlatStep(Singles(s));
      hide *;
    }
  }

  lemma SinglesStep(s: seq<byte>)
    requires s != []
    ensures var c := Singles(s);
            c != [] && c[..|c| - 1] == Singles(s[..|s| - 1]) && c[|c| - 1] == [s[|s| - 1]] && s == s[..|s| - 1] + [s[|s| - 1]]
  {
    hide Readable;
    assert Singles(s) == Singles(s[..|s| - 1]) + [[s[|s| - 1]]];
    hide *;
  }

  lemma {:induction false} FlatAppend(a: seq<seq<byte>>, b: seq<seq<byte>>)
    ensures Flat(a + b) == Flat(a) + Flat(b)
    decreases |b|
  {
    if b == [] {
      assert a + b == a;
    } else {
      FlatAppend(a, b[..|b| - 1]);
      assert (a + b)[..|a + b| - 1] == a + b[..|b| - 1];
      FlatStep(a + b);
      FlatStep(b);
      hide *;
    }
  }

  lemma FlatStep(c: seq<seq<byte>>)
    requires c != []
    ensures Flat(c) == Flat(c[..|c| - 1]) + c[|c| - 1]
  {
  }

  /** A chunking of an overlong stream that fills the buffer and then reads as much as it can. */
  function Unlucky(s: seq<byte>, p: nat): (c: seq<seq<byte>>)
    requires p + READ_MAX <= |s|
    ensures Readable(c) && |c| > p && c[p] == s[p..p + READ_MAX]
  {
    Singles(s[..p]) + [s[p..p + READ_MAX]] + Singles(s[p + READ_MAX..])
  }

  lemma UnluckyFlat(s: seq<byte>, p: nat)
    requires p + READ_MAX <= |s|
    ensures Flat(Unlucky(s, p)) == s && Flat(Unlucky(s, p)[..p]) == s[..p]
  {
    var a, m, b := Singles(s[..p]), s[p..p + READ_MAX], Singles(s[p + READ_MAX..]);
    SinglesFlat(s[..p]);
    SinglesFlat(s[p + READ_MAX..]);
    FlatAppend(a + [m], b);
    assert (a + [m])[..|a|] == a;
    assert s[..p] + m + s[p + READ_MAX..] == s;
    assert (a + [m] + b)[..p] == a;
  }

  /** The chunk after the buffer was filled overflows it, unless bytes were lost before. */
  lemma UnluckyOverflows(s: seq<byte>, i: nat, before: seq<seq<byte>>, chunk: seq<byte>)
    requires LongLine(s, i) && Readable(before) && Flat(before) == s[..i + BUFFER - READ_MAX + 1] && |chunk| == READ_MAX
    ensures var g := Received(before, Never);
            Overflows(g.rest, chunk) || Bytes(g.lines, g.rest) < |Flat(before)|
  {
    var p := i + BUFFER - READ_MAX + 1;
    ExactUntilLoss(before);
    assert s[..p][i..] == s[i..p];
    RestFrom(s[..p], i);
  }

  lemma LostAt(chunks: seq<seq<byte>>, p: nat)
    requires Readable(chunks) && p < |chunks|
    requires var g := Received(chunks[..p], Never);
             Overflows(g.rest, chunks[p]) || Bytes(g.lines, g.rest) < |Flat(chunks[..p])|
    ensures var f := Received(chunks, Never); Bytes(f.lines, f.rest) < |Flat(chunks)|
  {
    assert chunks[..p + 1][..p] == chunks[..p];
    BytesBound(chunks[..p + 1]);
    LossIsFinal(chunks, p + 1);
  }

  lemma OverlongLoses(s: seq<byte>) returns (chunks: seq<seq<byte>>)
    requires Overlong(s)
    ensures Chunking(chunks, s) && !Faithful(chunks, s)
  {
    var i :| LongLine(s, i);
    var p := i + BUFFER - READ_MAX + 1;
    chunks := Unlucky(s, p);
    UnluckyFlat(s, p);
    UnluckyOverflows(s, i, chunks[..p], chunks[p]);
    LostAt(chunks, p);
    SplitKeepsBytes(s);
  }

  predicate Chunking(chunks: seq<seq<byte>>, s: seq<byte>) { Readable(chunks) && Flat(chunks) == s }

  predicate Faithful(chunks: seq<seq<byte>>, s: seq<byte>) {
    var f := Received(chunks, Never);
    f.lines == Lines(s) && f.rest == Rest(s)
  }

  /** While no line closes the channel, reassembly is independent of the chunking exactly when no
      line is overlong. */
  lemma FaithfulForEveryChunking(s: seq<byte>)
    ensures (forall chunks :: Chunking(chunks, s) ==> Faithful(chunks, s)) <==> !Overlong(s)
  {
    if Overlong(s) {
      var chunks := OverlongLoses(s);
    } else {
      forall chunks | Chunking(chunks, s) ensures Faithful(chunks, s) {
        assert s + [] == s;
        AnyChunking(chunks, [], Never);
        assert NoneFails(Lines(s), Never);
      }
    }
  }

  /** Four full reads without a newline fill the buffer to the last byte. */
  lemma FourReadsFill(a: seq<byte>, b: seq<byte>, c: seq<byte>, d: seq<byte>, fails: Line -> bool)
    requires |a| == |b| == |c| == |d| == READ_MAX && Unbroken(a) && Unbroken(b) && Unbroken(c) && Unbroken(d)
    ensures Received([a, b, c, d], fails) == Feed([], a + b + c + d, true) && |a + b + c + d| == BUFFER
  {
    assert Received([], fails) == Feed([], [], true) && [] + a == a;
    OneRead([], [], a, fails);
    hide Received, Unbroken;
    assert [] + [a] == [a];
    OneRead([a], a, b, fails);
    assert [a] + [b] == [a, b];
    OneRead([a, b], a + b, c, fails);
    assert [a, b] + [c] == [a, b, c];
    OneRead([a, b, c], a + b + c, d, fails);
    assert [a, b, c] + [d] == [a, b, c, d];
  }

  lemma OneRead(before: seq<seq<byte>>, rest: seq<byte>, chunk: seq<byte>, fails: Line -> bool)
    requires Received(before, fails) == Feed([], rest, true) && Unbroken(rest) && Unbroken(chunk)
    requires |rest| + |chunk| <= BUFFER
    ensures Received(before + [chunk], fails) == Feed([], rest + chunk, true) && Unbroken(rest + chunk)
  {
    ReceivedMore(before, chunk, fails);
    RestOnly(rest + chunk);
  }

  /** So the flush then writes its terminator outside the buffer. */
  method FillThenFlush(r: Reader, a: seq<byte>, b: seq<byte>, c: seq<byte>, d: seq<byte>) returns (outside: bool)
    requires r.Valid() && r.State() == Feed([], [], true)
    requires |a| == |b| == |c| == |d| == READ_MAX && Unbroken(a) && Unbroken(b) && Unbroken(c) && Unbroken(d)
    modifies r, r.buffer
    ensures outside
  {
    FourReadsFill(a, b, c, d, r.fails);
    assert [] + [a, b, c, d] == [a, b, c, d];
    r.Drain([a, b, c, d], []);
    outside := r.Flush();
  }

  // ------------------------------------------------------------------ in place

  class Reader {
    const buffer: array<byte>
    const fails: Line -> bool
    var used: nat
    var open: bool
    /** The lines handed to the parser. */
    var parsed: seq<Line>

    ghost predicate Valid()
      reads this, buffer
    {
      buffer.Length == BUFFER && used <= BUFFER && (open ==> Unbroken(buffer[..used]))
    }

    ghost function State(): Feed
      requires Valid()
      reads this, buffer
    {
      Feed(parsed, buffer[..used], open)
    }

    constructor (failing: Line -> bool)
      ensures Valid() && State() == Feed([], [], true) && fails == failing && fresh(buffer)
    {
      buffer := new byte[BUFFER];
      fails := failing;
      used, open, parsed := 0, true, [];
    }

    /** memmove to the front of the buffer. */
    method Shift(from: nat, count: nat)
      requires from + count <= buffer.Length
      modifies buffer
      ensures buffer[..count] == old(buffer[from..from + count])
    {
      forall k | 0 <= k < count { buffer[k] := buffer[from + k]; }
    }

    /** Room is made by dropping all but the last 2048 bytes; then the chunk is appended. */
    method Append(chunk: seq<byte>)
      requires Valid() && 0 < |chunk| <= READ_MAX
      modifies this`used, buffer
      ensures used <= BUFFER && buffer[..used] == Kept(old(buffer[..used]), chunk) + chunk
    {
      ghost var rest := buffer[..used];
      if used + |chunk| > buffer.Length {
        Shift(used - KEEP, KEEP);
        used := KEEP;
      }
      assert buffer[..used] == Kept(rest, chunk);
      forall k | 0 <= k < |chunk| { buffer[used + k] := chunk[k]; }
      assert buffer[..used + |chunk|] == Kept(rest, chunk) + chunk;
      used := used + |chunk|;
    }

    /** parse_backend_line, as far as the channel is concerned. */
    method Parse(line: Line)
      modifies this`parsed, this`open
      ensures parsed == old(parsed) + [line] && open == (old(open) && !fails(line))
    {
      parsed := parsed + [line];
      if fails(line) { open := false; }
    }

    /** The scan of s has reached i with these lines handed over. */
    ghost predicate Scanning(s: seq<byte>, before: seq<Line>, done: seq<Line>, start: nat, i: nat)
      reads this, buffer
    {
      && used == |s| <= buffer.Length && Split(s, start, i, done) && buffer[start..used] == s[start..]
      && parsed == before + done && open == NoneFails(done, fails)
    }

    /** The newline at i is overwritten and the line before it handed over. */
    method HandOver(start: nat, i: nat, ghost s: seq<byte>, ghost before: seq<Line>, ghost done: seq<Line>)
      returns (ghost all: seq<Line>)
      requires Scanning(s, before, done, start, i) && i < used && s[i] == NEWLINE
      modifies this`parsed, this`open, buffer
      ensures Scanning(s, before, all, i + 1, i + 1)
    {
      Parts(buffer[..], start, i, used);
      Halves(buffer[start..used], s, start, i);
      var line := buffer[start..i];
      buffer[i] := 0;
      Parse(line);
      SplitStep(s, start, i, done, fails);
      all := done + [line];
    }

    /** One turn of the scan. */
    method ScanByte(start0: nat, i: nat, ghost s: seq<byte>, ghost before: seq<Line>, ghost done: seq<Line>)
      returns (start: nat, ghost all: seq<Line>)
      requires Scanning(s, before, done, start0, i) && i < used
      modifies this`parsed, this`open, buffer
      ensures Scanning(s, before, all, start, i + 1)
    {
      start, all := start0, done;
      Parts(buffer[..], start, i, used);
      Halves(buffer[start..used], s, start, i);
      if buffer[i] == NEWLINE {
        all := HandOver(start, i, s, before, done);
        start := i + 1;
      } else {
        SplitSkip(s, start, i, done);
      }
    }

    /** The scan: every terminated line is handed over. */
    method Scan(ghost s: seq<byte>) returns (start: nat)
      requires buffer.Length == BUFFER && used <= BUFFER && open && s == buffer[..used]
      modifies this`parsed, this`open, buffer
      ensures start <= used && buffer[start..used] == Rest(s)
      ensures parsed == old(parsed) + Lines(s) && open == NoneFails(Lines(s), fails)
    {
      hide Split, Lines, Rest, NoneFails, Unbroken;
      ghost var done: seq<Line> := [];
      start := 0;
      var i := 0;
      SplitStart(s, fails);
      while i < used
        invariant i <= used && Scanning(s, old(parsed), done, start, i)
      {
        start, done := ScanByte(start, i, s, old(parsed), done);
        i := i + 1;
      }
      SplitEnd(s, start, done);
    }

    method Extract()
      requires buffer.Length == BUFFER && used <= BUFFER && open
      modifies this, buffer
      ensures Valid()
      ensures parsed == old(parsed) + Lines(old(buffer[..used]))
      ensures buffer[..used] == Rest(old(buffer[..used]))
      ensures open == NoneFails(Lines(old(buffer[..used])), fails)
    {
      var start := Scan(buffer[..used]);
      if start > 0 {
        Shift(start, used - start);
        used := used - start;
      }
    }

    /** One successful read of the pipe. */
    method Accept(chunk: seq<byte>)
      requires Valid() && open && 0 < |chunk| <= READ_MAX
      modifies this, buffer
      ensures Valid() && State() == Receive(old(State()), chunk, fails)
    {
      Append(chunk);
      Extract();
    }

    /** drain_backend_output: reads until there is nothing more or the channel has been closed. It
        goes on from what earlier ticks received. */
    method Drain(chunks: seq<seq<byte>>, ghost before: seq<seq<byte>>)
      requires Valid() && Readable(chunks) && State() == Received(before, fails)
      modifies this, buffer
      ensures Valid() && State() == Received(before + chunks, fails)
    {
      hide Received, Receive, Readable;
      ghost var all := before;
      var k := 0;
      while k < |chunks|
        invariant 0 <= k <= |chunks| && Valid() && all == before + chunks[..k] && State() == Received(all, fails)
      {
        ReceivedMore(all, chunks[k], fails);
        ChunkReadable(chunks, k);
        if open { Accept(chunks[k]); } else { ClosedStays(State(), chunks[k], fails); }
        all := all + [chunks[k]];
        assert chunks[..k + 1] == chunks[..k] + [chunks[k]];
        k := k + 1;
      }
      assert chunks[..k] == chunks;
    }

    /** Any number of ticks: each drains what the pipe holds then. */
    method Ticks(drains: seq<seq<seq<byte>>>, ghost before: seq<seq<byte>>) returns (ghost all: seq<seq<byte>>)
      requires Valid() && State() == Received(before, fails) && forall i :: 0 <= i < |drains| ==> Readable(drains[i])
      modifies this, buffer
      ensures Valid() && all == before + Joined(drains) && State() == Received(all, fails)
    {
      hide Received, Readable, Joined;
      all := before;
      JoinedNone(before, drains);
      for i := 0 to |drains|
        invariant Valid() && all == before + Joined(drains[..i]) && State() == Received(all, fails)
      {
        Drain(drains[i], all);
        JoinedMore(before, drains, i);
        all := all + drains[i];
      }
      assert drains[..|drains|] == drains;
    }

    /** The flush when the backend has ended. The terminator written after the last byte falls
        outside the buffer exactly when the buffer is full. */
    method Flush() returns (outside: bool)
      requires Valid()
      modifies this, buffer
      ensures open ==> used == 0
      ensures outside <==> old(open) && old(used) == BUFFER
      ensures parsed == if old(open) && old(used) > 0 then old(parsed) + [old(buffer[..used])] else old(parsed)
    {
      outside := false;
      if open && used > 0 {
        var line := buffer[..used];
        if used < buffer.Length { buffer[used] := 0; } else { outside := true; }
        Parse(line);
        used := 0;
      }
    }
  }

  lemma Parts(b: seq<byte>, start: nat, i: nat, used: nat)
    requires start <= i < used <= |b|
    ensures var t := b[start..used];
            t[..i - start] == b[start..i] && t[i - start] == b[i] && t[i + 1 - start..] == b[i + 1..used]
  {
  }

  /** A suffix of s, cut in two around i. */
  lemma Halves(t: seq<byte>, s: seq<byte>, start: nat, i: nat)
    requires start <= i < |s| && t == s[start..]
    ensures t[..i - start] == s[start..i] && t[i - start] == s[i] && t[i + 1 - start..] == s[i + 1..]
  {
  }

  /** The scan has reached i: the lines found so far and where the current one starts. */
  ghost predicate Split(s: seq<byte>, start: nat, i: nat, done: seq<Line>) {
    && start <= i <= |s| && Unbroken(s[start..i])
    && Lines(s) == done + Lines(s[start..]) && Rest(s) == Rest(s[start..])
  }

  lemma SplitStep(s: seq<byte>, start: nat, i: nat, done: seq<Line>, fails: Line -> bool)
    requires i < |s| && Split(s, start, i, done) && s[i] == NEWLINE
    ensures Split(s, i + 1, i + 1, done + [s[start..i]])
    ensures NoneFails(done + [s[start..i]], fails) <==> NoneFails(done, fails) && !fails(s[start..i])
  {
    var line, rest := s[start..i], s[i + 1..];
    NextLine(s, start, i);
    OneMoreFails(done, line, fails);
    OneMoreLine(Lines(s), done, line, Lines(s[start..]), Lines(rest));
  }

  lemma OneMoreLine(all: seq<Line>, done: seq<Line>, line: Line, before: seq<Line>, after: seq<Line>)
    requires all == done + before && before == [line] + after
    ensures all == done + [line] + after
  {
  }

  lemma OneMoreFails(done: seq<Line>, line: Line, fails: Line -> bool)
    ensures NoneFails(done + [line], fails) <==> NoneFails(done, fails) && !fails(line)
  {
    FailsAppend(done, [line], fails);
    assert NoneFails([line], fails) <==> !fails([line][0]);
  }

  lemma SplitStart(s: seq<byte>, fails: Line -> bool)
    ensures Split(s, 0, 0, []) && NoneFails([], fails) && s[0..] == s
  {
    assert s[0..] == s && [] + Lines(s) == Lines(s);
  }

  lemma SplitSkip(s: seq<byte>, start: nat, i: nat, done: seq<Line>)
    requires i < |s| && Split(s, start, i, done) && s[i] != NEWLINE
    ensures Split(s, start, i + 1, done)
  {
    assert s[start..i + 1] == s[start..i] + [s[i]];
  }

  lemma SplitEnd(s: seq<byte>, start: nat, done: seq<Line>)
    requires Split(s, start, |s|, done)
    ensures start <= |s| && Lines(s) == done && Rest(s) == s[start..]
  {
    assert s[start..] == s[start..|s|];
    RestOnly(s[start..]);
    assert done + [] == done;
  }

  lemma NextLine(s: seq<byte>, start: nat, i: nat)
    requires start <= i < |s| && Unbroken(s[start..i]) && s[i] == NEWLINE
    ensures Lines(s[start..]) == [s[start..i]] + Lines(s[i + 1..]) && Rest(s[start..]) == Rest(s[i + 1..])
  {
    var t := s[start..];
    assert forall k :: 0 <= k < i - start ==> t[k] == s[start..i][k];
    FirstNewlineIs(t, i - start);
    assert t[..i - start] == s[start..i] && AfterLine(t) == s[i + 1..];
    LinesStep(t);
  }
}
