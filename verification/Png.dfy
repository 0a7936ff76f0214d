/** read_png and the chunk writer (scripts/preview.py): row filters of the PNG specification
    (section 9 of the W3C Recommendation, section 6 of RFC 2083) undone in place. */
module Png {
  import opened Numbers
  import opened Wrappers

  type Row = seq<byte>

  function Byte(v: int): byte { (v % 256) as byte }

  function Abs(v: int): int { if v < 0 then -v else v }

  // ------------------------------------------------------------------ filters

  /** The Paeth choice among left, above and upper left. */
  function Paeth(a: int, b: int, c: int): int {
    var p := a + b - c;
    if Abs(p - a) <= Abs(p - b) && Abs(p - a) <= Abs(p - c) then a
    else if Abs(p - b) <= Abs(p - c) then b
    else c
  }

  /** It is the candidate nearest to a + b - c, the earlier one on a tie. */
  lemma PaethIsNearest(a: int, b: int, c: int)
    ensures var p, r := a + b - c, Paeth(a, b, c);
            && r in {a, b, c} && Abs(p - r) <= Abs(p - a) && Abs(p - r) <= Abs(p - b) && Abs(p - r) <= Abs(p - c)
            && (Abs(p - r) == Abs(p - a) ==> r == a)
            && (Abs(p - r) == Abs(p - b) && r != a ==> r == b)
  {
  }

  function Left(row: Row, x: nat, ch: nat): int
    requires x <= |row| && ch > 0
  {
    if x >= ch then row[x - ch] as int else 0
  }

  /** What filter type ft predicts for byte x from the bytes before it and the row above. A type the
      specification does not define predicts nothing. */
  function Predicted(ft: byte, row: Row, prev: Row, x: nat, ch: nat): int
    requires x <= |row| && x < |prev| && ch > 0
  {
    if ft == 1 then Left(row, x, ch)
    else if ft == 2 then prev[x] as int
    else if ft == 3 then (Left(row, x, ch) + prev[x] as int) / 2
    else if ft == 4 then Paeth(Left(row, x, ch), prev[x] as int, Left(prev, x, ch))
    else 0
  }

  /** The specification's filter: each byte less its prediction. */
  function Filtered(ft: byte, row: Row, prev: Row, ch: nat): (r: Row)
    requires |row| == |prev| && ch > 0
    ensures |r| == |row|
  {
    seq(|row|, x requires 0 <= x < |row| => Byte(row[x] as int - Predicted(ft, row, prev, x, ch)))
  }

  /** v is the candidate nearest to a + b - c, an earlier one on a tie. */
  predicate Nearest(v: int, a: int, b: int, c: int) {
    var p := a + b - c;
    && v in {a, b, c} && Abs(p - v) <= Abs(p - a) && Abs(p - v) <= Abs(p - b) && Abs(p - v) <= Abs(p - c)
    && (Abs(p - v) == Abs(p - a) ==> v == a) && (Abs(p - v) == Abs(p - b) && v != a ==> v == b)
  }

  /** What each filter type of section 9.2 of the W3C PNG Recommendation is: a byte becomes 0 exactly if it is
      itself 0 (None), what stands before it (Sub), what stands above it (Up), their mean rounded down
      (Average), or the nearest of three neighbours (Paeth). */
  lemma FilteredZero(ft: byte, row: Row, prev: Row, x: nat, ch: nat)
    requires |row| == |prev| && x < |row| && ch > 0
    ensures var v, up := row[x] as int, prev[x] as int;
            var left, corner := if x < ch then 0 else row[x - ch] as int, if x < ch then 0 else prev[x - ch] as int;
            Filtered(ft, row, prev, ch)[x] == 0 <==>
              match ft
              case 1 => v == left
              case 2 => v == up
              case 3 => 2 * v <= left + up <= 2 * v + 1
              case 4 => Nearest(v, left, up, corner)
              case _ => v == 0
  {
    var p := Predicted(ft, row, prev, x, ch);
    assert 0 <= p < 256;
    assert Byte(row[x] as int - p) == 0 <==> row[x] as int == p;
    if ft == 4 { NearestIsPaeth(row[x] as int, Left(row, x, ch), prev[x] as int, Left(prev, x, ch)); }
  }

  lemma NearestIsPaeth(v: int, a: int, b: int, c: int)
    ensures Nearest(v, a, b, c) <==> v == Paeth(a, b, c)
  {
  }

  /** The first n bytes restored, left to right. */
  function Restored(ft: byte, data: Row, prev: Row, ch: nat, n: nat): (r: Row)
    requires n <= |data| == |prev| && ch > 0
    ensures |r| == n
  {
    if n == 0 then [] else
      var done := Restored(ft, data, prev, ch, n - 1);
      done + [Byte(data[n - 1] as int + Predicted(ft, done, prev, n - 1, ch))]
  }

  lemma PredictedFromPrefix(ft: byte, row: Row, prev: Row, x: nat, ch: nat)
    requires x < |row| == |prev| && ch > 0
    ensures Predicted(ft, row[..x], prev, x, ch) == Predicted(ft, row, prev, x, ch)
  {
  }

  lemma ByteInverse(v: byte, p: int)
    ensures Byte(Byte(v as int - p) as int + p) == v && Byte(Byte(v as int + p) as int - p) == v
  {
    Wrap(v as int, (v as int - p) / 256, (v as int - p) % 256 + p);
    Wrap(v as int, (v as int + p) / 256, (v as int + p) % 256 - p);
  }

  lemma Wrap(v: int, q: int, u: int)
    requires 0 <= v < 256 && u == v - 256 * q
    ensures u % 256 == v
  {
  }

  /** Restoring undoes filtering. */
  lemma {:induction false} RestoreFiltered(ft: byte, row: Row, prev: Row, ch: nat, n: nat)
    requires n <= |row| == |prev| && ch > 0
    ensures Restored(ft, Filtered(ft, row, prev, ch), prev, ch, n) == row[..n]
  {
    if n > 0 {
      RestoreFiltered(ft, row, prev, ch, n - 1);
      PredictedFromPrefix(ft, row, prev, n - 1, ch);
      ByteInverse(row[n - 1], Predicted(ft, row, prev, n - 1, ch));
      assert row[..n] == row[..n - 1] + [row[n - 1]];
    }
  }

  lemma {:induction false} RestoredPrefix(ft: byte, data: Row, prev: Row, ch: nat, n: nat, x: nat)
    requires x <= n <= |data| == |prev| && ch > 0
    ensures Restored(ft, data, prev, ch, n)[..x] == Restored(ft, data, prev, ch, x)
  {
    if x < n { RestoredPrefix(ft, data, prev, ch, n - 1, x); }
  }

  /** And filtering undoes restoring. */
  lemma FilterRestored(ft: byte, data: Row, prev: Row, ch: nat)
    requires |data| == |prev| && ch > 0
    ensures Filtered(ft, Restored(ft, data, prev, ch, |data|), prev, ch) == data
  {
    var row := Restored(ft, data, prev, ch, |data|);
    forall x | 0 <= x < |data| ensures Filtered(ft, row, prev, ch)[x] == data[x] {
      RestoredPrefix(ft, data, prev, ch, |data|, x);
      RestoredPrefix(ft, data, prev, ch, |data|, x + 1);
      PredictedFromPrefix(ft, row, prev, x, ch);
      assert row[..x + 1][x] == row[x];
      ByteInverse(data[x], Predicted(ft, row, prev, x, ch));
    }
  }

  /** The five loops of read_png over one row. */
  method RestoreRow(ft: byte, line: array<byte>, prev: Row, ch: nat)
    requires line.Length == |prev| && ch > 0
    modifies line
    ensures line[..] == Restored(ft, old(line[..]), prev, ch, line.Length)
  {
    ghost var data := line[..];
    var start := if ft == 1 then ch else if 2 <= ft <= 4 then 0 else line.Length;
    var x := 0;
    while x < line.Length
      invariant 0 <= x <= line.Length
      invariant line[..x] == Restored(ft, data, prev, ch, x) && line[x..] == data[x..]
    {
      assert line[x] == line[x..][0] == data[x];
      if x >= start { Add(ft, line, prev, ch, x); }
      assert line[..x + 1] == line[..x] + [line[x]];
      assert line[x + 1..] == data[x..][1..];
      x := x + 1;
    }
    assert line[..] == line[..line.Length];
  }

  /** One byte of a loop: the prediction is added. */
  method Add(ft: byte, line: array<byte>, prev: Row, ch: nat, x: nat)
    requires x < line.Length == |prev| && ch > 0 && 1 <= ft <= 4
    modifies line
    ensures line[..] == old(line[..])[x := Byte(old(line[x]) as int + Predicted(ft, old(line[..x]), prev, x, ch))]
  {
    var a := if x >= ch then line[x - ch] as int else 0;
    var b := prev[x] as int;
    if ft == 1 {
      line[x] := Byte(line[x] as int + a);
    } else if ft == 2 {
      line[x] := Byte(line[x] as int + b);
    } else if ft == 3 {
      line[x] := Byte(line[x] as int + (a + b) / 2);
    } else {
      var c := if x >= ch then prev[x - ch] as int else 0;
      var pp := a + b - c;
      var pa, pb, pc := Abs(pp - a), Abs(pp - b), Abs(pp - c);
      var pr := if pa <= pb && pa <= pc then a else if pb <= pc then b else c;
      line[x] := Byte(line[x] as int + pr);
    }
  }

  // ------------------------------------------------------------------- images

  function Flat(rows: seq<Row>): Row {
    if rows == [] then [] else rows[0] + Flat(rows[1..])
  }

  lemma {:induction false} FlatAppend(a: seq<Row>, b: seq<Row>)
    ensures Flat(a + b) == Flat(a) + Flat(b)
  {
    if a == [] {
      assert a + b == b;
    } else {
      FlatAppend(a[1..], b);
      assert (a + b)[1..] == a[1..] + b;
    }
  }

  predicate Wide(rows: seq<Row>, stride: nat) { forall y :: 0 <= y < |rows| ==> |rows[y]| == stride }

  /** Rows filtered with the given types, each behind its type byte. */
  function Encoded(rows: seq<Row>, types: seq<byte>, prev: Row, ch: nat): Row
    requires |types| == |rows| && Wide(rows, |prev|) && ch > 0
  {
    if rows == [] then []
    else [types[0]] + Filtered(types[0], rows[0], prev, ch) + Encoded(rows[1..], types[1..], rows[0], ch)
  }

  /** Room for h rows of a type byte and stride bytes. */
  predicate Holds(raw: Row, stride: nat, h: nat)
    decreases h
  {
    h == 0 || (|raw| >= stride + 1 && Holds(raw[stride + 1..], stride, h - 1))
  }

  /** The h rows a filtered stream stands for. */
  function Decoded(raw: Row, prev: Row, h: nat, ch: nat): (r: seq<Row>)
    requires Holds(raw, |prev|, h) && ch > 0
    ensures |r| == h && Wide(r, |prev|)
    decreases h
  {
    if h == 0 then [] else
      var line := Restored(raw[0], raw[1..|prev| + 1], prev, ch, |prev|);
      [line] + Decoded(raw[|prev| + 1..], line, h - 1, ch)
  }

  /** Decoding undoes encoding, whatever filter type each row uses and whatever follows. */
  lemma {:induction false} DecodeEncoded(rows: seq<Row>, types: seq<byte>, prev: Row, ch: nat, more: Row)
    requires |types| == |rows| && Wide(rows, |prev|) && ch > 0
    ensures Holds(Encoded(rows, types, prev, ch) + more, |prev|, |rows|)
    ensures Decoded(Encoded(rows, types, prev, ch) + more, prev, |rows|, ch) == rows
    decreases |rows|
  {
    if rows != [] {
      var ft, row := types[0], rows[0];
      var line, rest := Filtered(ft, row, prev, ch), Encoded(rows[1..], types[1..], row, ch);
      EncodedHead(rows, types, prev, ch, more);
      RestoreFiltered(ft, row, prev, ch, |prev|);
      assert row[..|prev|] == row;
      DecodeEncoded(rows[1..], types[1..], row, ch, more);
      DecodedHead(ft, line, rest + more, prev, |rows|, ch);
    }
  }

  lemma EncodedHead(rows: seq<Row>, types: seq<byte>, prev: Row, ch: nat, more: Row)
    requires |types| == |rows| && rows != [] && Wide(rows, |prev|) && ch > 0
    ensures Encoded(rows, types, prev, ch) + more ==
            [types[0]] + Filtered(types[0], rows[0], prev, ch) + (Encoded(rows[1..], types[1..], rows[0], ch) + more)
  {
  }

  lemma DecodedHead(ft: byte, line: Row, rest: Row, prev: Row, h: nat, ch: nat)
    requires |line| == |prev| && h > 0 && ch > 0 && Holds(rest, |prev|, h - 1)
    ensures Holds([ft] + line + rest, |prev|, h)
    ensures var row := Restored(ft, line, prev, ch, |prev|);
            Decoded([ft] + line + rest, prev, h, ch) == [row] + Decoded(rest, row, h - 1, ch)
  {
    var raw := [ft] + line + rest;
    assert raw[1..|prev| + 1] == line && raw[|prev| + 1..] == rest;
  }

  /** The type bytes of h rows. */
  function Types(raw: Row, stride: nat, h: nat): (r: seq<byte>)
    requires Holds(raw, stride, h)
    ensures |r| == h
    decreases h
  {
    if h == 0 then [] else [raw[0]] + Types(raw[stride + 1..], stride, h - 1)
  }

  /** And encoding what was decoded, with the same types, gives the stream back. */
  lemma {:induction false} EncodeDecoded(raw: Row, prev: Row, h: nat, ch: nat)
    requires Holds(raw, |prev|, h) && ch > 0
    ensures Encoded(Decoded(raw, prev, h, ch), Types(raw, |prev|, h), prev, ch) <= raw
    decreases h
  {
    if h > 0 {
      var data := raw[1..|prev| + 1];
      var line := Restored(raw[0], data, prev, ch, |prev|);
      FilterRestored(raw[0], data, prev, ch);
      EncodeDecoded(raw[|prev| + 1..], line, h - 1, ch);
      var rows := Decoded(raw, prev, h, ch);
      assert rows[1..] == Decoded(raw[|prev| + 1..], line, h - 1, ch);
      assert Types(raw, |prev|, h)[1..] == Types(raw[|prev| + 1..], |prev|, h - 1);
      PrefixBehind(raw, |prev|, Encoded(rows[1..], Types(raw, |prev|, h)[1..], line, ch));
    }
  }

  lemma PrefixBehind(raw: Row, n: nat, rest: Row)
    requires |raw| > n && rest <= raw[n + 1..]
    ensures [raw[0]] + raw[1..n + 1] + rest <= raw
  {
    assert raw == [raw[0]] + raw[1..n + 1] + raw[n + 1..];
  }

  lemma {:induction false} HoldsBytes(raw: Row, stride: nat, h: nat)
    ensures Holds(raw, stride, h) <==> |raw| >= h * (stride + 1)
    decreases h
  {
    if h > 0 {
      assert h * (stride + 1) == (h - 1) * (stride + 1) + stride + 1;
      if |raw| >= stride + 1 { HoldsBytes(raw[stride + 1..], stride, h - 1); }
    }
  }

  /** The row loop of read_png. */
  method Unfilter(raw: Row, stride: nat, h: nat, ch: nat) returns (out: Row)
    requires Holds(raw, stride, h) && ch > 0
    ensures out == Flat(Decoded(raw, seq(stride, _ => 0), h, ch))
  {
    out := [];
    var prev: Row := seq(stride, _ => 0);
    var p := 0;
    ghost var rest := Decoded(raw, prev, h, ch);
    assert raw[0..] == raw;
    for y := 0 to h
      invariant p <= |raw| && |prev| == stride && Holds(raw[p..], stride, h - y)
      invariant rest == Decoded(raw[p..], prev, h - y, ch)
      invariant Flat(Decoded(raw, seq(stride, _ => 0), h, ch)) == out + Flat(rest)
    {
      var line := UnfilterRow(raw, p, prev, ch);
      assert raw[p..][stride + 1..] == raw[p + 1 + stride..];
      rest := rest[1..];
      out := out + line;
      prev := line;
      p := p + 1 + stride;
    }
  }

  /** The row at p. */
  method UnfilterRow(raw: Row, p: nat, prev: Row, ch: nat) returns (row: Row)
    requires p <= |raw| && Holds(raw[p..], |prev|, 1) && ch > 0
    ensures row == Restored(raw[p..][0], raw[p..][1..|prev| + 1], prev, ch, |prev|)
  {
    var line := new byte[|prev|];
    Fill(line, raw[p + 1..p + 1 + |prev|]);
    assert raw[p..][1..|prev| + 1] == raw[p + 1..p + 1 + |prev|];
    RestoreRow(raw[p], line, prev, ch);
    row := line[..];
  }

  method Fill(line: array<byte>, s: Row)
    requires line.Length == |s|
    modifies line
    ensures line[..] == s
  {
    forall x | 0 <= x < line.Length { line[x] := s[x]; }
  }

  // ------------------------------------------------------------------- chunks

  const SIGNATURE: Row := [0x89, 0x50, 0x4E, 0x47, 0x0D, 0x0A, 0x1A, 0x0A]
  const IHDR: Row := [0x49, 0x48, 0x44, 0x52]
  const IDAT: Row := [0x49, 0x44, 0x41, 0x54]
  const IEND: Row := [0x49, 0x45, 0x4E, 0x44]
  const LIMIT := 0x1_0000_0000

  function Number(b: Row): nat
    requires |b| == 4
  {
    ((b[0] as int * 256 + b[1] as int) * 256 + b[2] as int) * 256 + b[3] as int
  }

  function Packed(n: nat): (r: Row)
    requires n < LIMIT
    ensures |r| == 4
  {
    [Byte(n / 0x100_0000), Byte(n / 0x1_0000), Byte(n / 0x100), Byte(n)]
  }

  lemma NumberPacked(n: nat)
    requires n < LIMIT
    ensures Number(Packed(n)) == n
  {
    var a, b, c := n / 0x100_0000, n / 0x1_0000, n / 0x100;
    assert a % 256 == a && b == a * 256 + b % 256 && c == b * 256 + c % 256 && n == c * 256 + n % 256;
  }

  datatype Chunk = Chunk(kind: Row, data: Row)

  /** What the walk has gathered. */
  datatype Header = Header(w: nat, h: nat, colour: byte, idat: Row)

  /** One chunk before the end: a short image header makes the read fail. */
  function Gathered(s: Header, c: Chunk): Option<Header> {
    if c.kind == IHDR then
      if |c.data| < 10 then None else Some(Header(Number(c.data[..4]), Number(c.data[4..8]), c.data[9], s.idat))
    else if c.kind == IDAT then Some(s.(idat := s.idat + c.data))
    else Some(s)
  }

  /** The chunk walk from the bytes left; checksums are skipped, a slice past the end is shorter. */
  function Walked(d: Row, s: Header): Option<Header>
    decreases |d|
  {
    if d == [] then Some(s)
    else if |d| < 4 then None
    else
      var ln := Number(d[..4]);
      var c := Chunk(d[4..Min(8, |d|)], d[Min(8, |d|)..Min(8 + ln, |d|)]);
      if c.kind == IEND then Some(s)
      else match Gathered(s, c)
        case None => None
        case Some(t) => Walked(d[Min(12 + ln, |d|)..], t)
  }

  /** chunk(). */
  function Framed(c: Chunk, crc: Row -> Row): Row
    requires |c.data| < LIMIT
  {
    Packed(|c.data|) + c.kind + c.data + crc(c.kind + c.data)
  }

  function AllFramed(chunks: seq<Chunk>, crc: Row -> Row): Row
    requires Wellformed(chunks, crc)
  {
    if chunks == [] then [] else Framed(chunks[0], crc) + AllFramed(chunks[1..], crc)
  }

  predicate Wellformed(chunks: seq<Chunk>, crc: Row -> Row) {
    forall i :: 0 <= i < |chunks| ==>
      |chunks[i].kind| == 4 && |chunks[i].data| < LIMIT && |crc(chunks[i].kind + chunks[i].data)| == 4
  }

  /** The chunks up to the end chunk, one after the other. */
  function GatheredAll(s: Header, chunks: seq<Chunk>): Option<Header>
    decreases |chunks|
  {
    if chunks == [] || chunks[0].kind == IEND then Some(s)
    else match Gathered(s, chunks[0])
      case None => None
      case Some(t) => GatheredAll(t, chunks[1..])
  }

  /** The walk over framed chunks sees exactly those chunks. */
  lemma {:induction false} WalkFramed(chunks: seq<Chunk>, crc: Row -> Row, s: Header)
    requires Wellformed(chunks, crc)
    ensures Walked(AllFramed(chunks, crc), s) == GatheredAll(s, chunks)
    decreases |chunks|
  {
    if chunks != [] {
      var c, rest := chunks[0], AllFramed(chunks[1..], crc);
      FramedParts(c, crc, rest);
      if c.kind != IEND && Gathered(s, c).Some? {
        WalkFramed(chunks[1..], crc, Gathered(s, c).value);
      }
    }
  }

  lemma FramedParts(c: Chunk, crc: Row -> Row, rest: Row)
    requires |c.kind| == 4 && |c.data| < LIMIT && |crc(c.kind + c.data)| == 4
    ensures var d := Framed(c, crc) + rest; var n := |c.data|;
            && |d| >= 12 + n && Number(d[..4]) == n && d[4..8] == c.kind && d[8..8 + n] == c.data && d[12 + n..] == rest
  {
    NumberPacked(|c.data|);
    var d := Framed(c, crc) + rest;
    assert d[..4] == Packed(|c.data|);
  }

  datatype Picture = Picture(w: nat, h: nat, ch: nat, pixels: Row)

  function Channels(colour: byte): (n: nat)
    ensures n > 0
  {
    if colour == 6 then 4 else 3
  }

  /** The picture of what was gathered. */
  function Unpacked(s: Header, inflate: Row -> Option<Row>): Option<Picture> {
    match inflate(s.idat)
    case None => None
    case Some(raw) => Pictured(s.w, s.h, Channels(s.colour), raw)
  }

  function Pictured(w: nat, h: nat, ch: nat, raw: Row): Option<Picture>
    requires ch > 0
  {
    if Holds(raw, w * ch, h) then Some(Picture(w, h, ch, Flat(Decoded(raw, seq(w * ch, _ => 0), h, ch)))) else None
  }

  /** read_png, given what inflates the data. None where the script raises. */
  function Read(d: Row, inflate: Row -> Option<Row>): Option<Picture> {
    match Walked(if |d| < 8 then [] else d[8..], Header(0, 0, 0, []))
    case None => None
    case Some(s) => Unpacked(s, inflate)
  }

  /** The chunk at the front of d. */
  function FirstChunk(d: Row): Chunk
    requires |d| >= 4
  {
    Chunk(d[4..Min(8, |d|)], d[Min(8, |d|)..Min(8 + Number(d[..4]), |d|)])
  }

  lemma WalkedStep(d: Row, s: Header)
    requires |d| >= 4 && FirstChunk(d).kind != IEND
    ensures Walked(d, s) ==
            match Gathered(s, FirstChunk(d))
            case None => None
            case Some(t) => Walked(d[Min(12 + Number(d[..4]), |d|)..], t)
  {
  }

  /** The loop over the chunks. */
  method WalkChunks(d: Row) returns (r: Option<Header>)
    ensures r == Walked(if |d| < 8 then [] else d[8..], Header(0, 0, 0, []))
  {
    var rest := if |d| < 8 then [] else d[8..];
    var s := Header(0, 0, 0, []);
    ghost var all := Walked(rest, s);
    while rest != []
      invariant all == Walked(rest, s)
      decreases |rest|
    {
      if |rest| < 4 { return None; }
      var c := FirstChunk(rest);
      if c.kind == IEND { return Some(s); }
      WalkedStep(rest, s);
      var t := Gathered(s, c);
      if t.None? { return None; }
      s := t.value;
      rest := rest[Min(12 + Number(rest[..4]), |rest|)..];
    }
    return Some(s);
  }

  /** The loop over chunks and the row loop. */
  method ReadPng(d: Row, inflate: Row -> Option<Row>) returns (r: Option<Picture>)
    ensures r == Read(d, inflate)
  {
    var s := WalkChunks(d);
    if s.None? { return None; }
    var raw := inflate(s.value.idat);
    if raw.None? { return None; }
    var ch := Channels(s.value.colour);
    r := BuildPicture(s.value.w, s.value.h, ch, raw.value);
  }

  /** The picture of the inflated data, if there are enough rows of it. */
  method BuildPicture(w: nat, h: nat, ch: nat, raw: Row) returns (r: Option<Picture>)
    requires ch > 0
    ensures r == Pictured(w, h, ch, raw)
  {
    var stride := w * ch;
    HoldsBytes(raw, stride, h);
    if |raw| < h * (stride + 1) { return None; }
    var out := Unfilter(raw, stride, h, ch);
    return Some(Picture(w, h, ch, out));
  }

  /** What the script compresses: every row behind filter type 0. */
  function Data(rows: seq<Row>): Row {
    if rows == [] then [] else [0] + rows[0] + Data(rows[1..])
  }

  lemma {:induction false} DataIsEncoded(rows: seq<Row>, prev: Row, ch: nat)
    requires Wide(rows, |prev|) && ch > 0
    ensures Data(rows) == Encoded(rows, seq(|rows|, _ => 0), prev, ch)
    decreases |rows|
  {
    if rows != [] {
      DataIsEncoded(rows[1..], rows[0], ch);
      var zeros: seq<byte> := seq(|rows|, _ => 0);
      assert zeros[1..] == seq(|rows| - 1, _ => 0);
      assert Filtered(0, rows[0], prev, ch) == rows[0] by {
        assert forall x :: 0 <= x < |rows[0]| ==> Byte(rows[0][x] as int) == rows[0][x];
      }
    }
  }

  function HeaderData(w: nat, h: nat): Row
    requires w < LIMIT && h < LIMIT
  {
    Packed(w) + Packed(h) + [8, 2, 0, 0, 0]
  }

  /** The file the script writes: three channels, one data chunk. */
  function Written(w: nat, rows: seq<Row>, deflate: Row -> Row, crc: Row -> Row): Row
    requires w < LIMIT && |rows| < LIMIT && Wellformed(WrittenChunks(w, rows, deflate), crc)
  {
    SIGNATURE + AllFramed(WrittenChunks(w, rows, deflate), crc)
  }

  function WrittenChunks(w: nat, rows: seq<Row>, deflate: Row -> Row): seq<Chunk>
    requires w < LIMIT && |rows| < LIMIT
  {
    [Chunk(IHDR, HeaderData(w, |rows|)), Chunk(IDAT, deflate(Data(rows))), Chunk(IEND, [])]
  }

  /** The loop that builds the data. */
  method BuildData(rows: seq<Row>) returns (data: Row)
    ensures data == Data(rows)
  {
    data := [];
    assert rows[0..] == rows;
    for y := 0 to |rows|
      invariant Data(rows) == data + Data(rows[y..])
    {
      assert rows[y..][1..] == rows[y + 1..];
      data := data + [0];
      data := data + rows[y];
    }
  }

  lemma HeaderGathered(w: nat, h: nat, s: Header)
    requires w < LIMIT && h < LIMIT
    ensures Gathered(s, Chunk(IHDR, HeaderData(w, h))) == Some(Header(w, h, 2, s.idat))
  {
    var d := HeaderData(w, h);
    assert d[..4] == Packed(w) && d[4..8] == Packed(h);
    NumberPacked(w);
    NumberPacked(h);
  }

  /** What the script wrote it reads back: same size, three channels, same pixels, given that zlib
      returns what it compressed. */
  lemma ReadWritten(w: nat, rows: seq<Row>, deflate: Row -> Row, inflate: Row -> Option<Row>, crc: Row -> Row)
    requires w < LIMIT && |rows| < LIMIT && Wellformed(WrittenChunks(w, rows, deflate), crc) && Wide(rows, w * 3)
    requires inflate(deflate(Data(rows))) == Some(Data(rows))
    ensures Read(Written(w, rows, deflate, crc), inflate) == Some(Picture(w, |rows|, 3, Flat(rows)))
  {
    WalkWritten(w, rows, deflate, crc);
    ReadRows(Written(w, rows, deflate, crc), w, rows, deflate(Data(rows)), inflate);
  }

  lemma ReadRows(d: Row, w: nat, rows: seq<Row>, z: Row, inflate: Row -> Option<Row>)
    requires |d| >= 8 && Walked(d[8..], Header(0, 0, 0, [])) == Some(Header(w, |rows|, 2, z))
    requires inflate(z) == Some(Data(rows)) && Wide(rows, w * 3)
    ensures Read(d, inflate) == Some(Picture(w, |rows|, 3, Flat(rows)))
  {
    ReadFrom(d, Header(w, |rows|, 2, z), Data(rows), inflate);
    WrittenPictured(w, rows);
  }

  lemma ReadFrom(d: Row, s: Header, raw: Row, inflate: Row -> Option<Row>)
    requires |d| >= 8 && Walked(d[8..], Header(0, 0, 0, [])) == Some(s) && inflate(s.idat) == Some(raw)
    ensures Read(d, inflate) == Pictured(s.w, s.h, Channels(s.colour), raw)
  {
  }

  lemma WrittenPictured(w: nat, rows: seq<Row>)
    requires Wide(rows, w * 3)
    ensures Pictured(w, |rows|, 3, Data(rows)) == Some(Picture(w, |rows|, 3, Flat(rows)))
  {
    DataDecoded(rows, seq(w * 3, _ => 0), 3);
  }

  lemma DataDecoded(rows: seq<Row>, prev: Row, ch: nat)
    requires Wide(rows, |prev|) && ch > 0
    ensures Holds(Data(rows), |prev|, |rows|) && Decoded(Data(rows), prev, |rows|, ch) == rows
  {
    DataIsEncoded(rows, prev, ch);
    DecodeEncoded(rows, seq(|rows|, _ => 0), prev, ch, []);
    assert Data(rows) + [] == Data(rows);
  }

  lemma WalkWritten(w: nat, rows: seq<Row>, deflate: Row -> Row, crc: Row -> Row)
    requires w < LIMIT && |rows| < LIMIT && Wellformed(WrittenChunks(w, rows, deflate), crc)
    ensures var d := Written(w, rows, deflate, crc);
            |d| >= 8 && Walked(d[8..], Header(0, 0, 0, [])) == Some(Header(w, |rows|, 2, deflate(Data(rows))))
  {
    var chunks := WrittenChunks(w, rows, deflate);
    var d := Written(w, rows, deflate, crc);
    assert |SIGNATURE| == 8 && d[8..] == AllFramed(chunks, crc);
    WalkFramed(chunks, crc, Header(0, 0, 0, []));
    GatheredThree(w, rows, deflate, Header(0, 0, 0, []));
    assert [] + deflate(Data(rows)) == deflate(Data(rows));
  }

  lemma GatheredThree(w: nat, rows: seq<Row>, deflate: Row -> Row, s: Header)
    requires w < LIMIT && |rows| < LIMIT
    ensures GatheredAll(s, WrittenChunks(w, rows, deflate)) == Some(Header(w, |rows|, 2, s.idat + deflate(Data(rows))))
  {
    var z := deflate(Data(rows));
    var head, data, end := Chunk(IHDR, HeaderData(w, |rows|)), Chunk(IDAT, z), Chunk(IEND, []);
    HeaderGathered(w, |rows|, s);
    KindsDiffer();
    ThreeChunks(s, head, data, end);
  }

  lemma KindsDiffer()
    ensures IHDR != IEND && IDAT != IEND && IDAT != IHDR
  {
    assert IHDR[1] != IEND[1] && IDAT[1] != IEND[1] && IDAT[1] != IHDR[1];
  }

  lemma ThreeChunks(s: Header, a: Chunk, b: Chunk, end: Chunk)
    requires a.kind != IEND && b.kind == IDAT != IEND && end.kind == IEND && IDAT != IHDR && Gathered(s, a).Some?
    ensures var t := Gathered(s, a).value; GatheredAll(s, [a, b, end]) == Some(t.(idat := t.idat + b.data))
  {
    var t := Gathered(s, a).value;
    assert [a, b, end][1..] == [b, end] && [b, end][1..] == [end];
    assert GatheredAll(s, [a, b, end]) == GatheredAll(t, [b, end]);
    assert GatheredAll(t, [b, end]) == GatheredAll(t.(idat := t.idat + b.data), [end]);
  }

  // ------------------------------------------------------------ files written by others

  /** The data chunks' contents, one after the other. */
  function DataOf(chunks: seq<Chunk>): Row {
    if chunks == [] then [] else (if chunks[0].kind == IDAT then chunks[0].data else []) + DataOf(chunks[1..])
  }

  predicate Inner(chunks: seq<Chunk>) { forall i :: 0 <= i < |chunks| ==> chunks[i].kind != IHDR && chunks[i].kind != IEND }

  lemma {:induction false} InnerGathered(s: Header, chunks: seq<Chunk>, end: seq<Chunk>)
    requires Inner(chunks) && end != [] && end[0].kind == IEND
    ensures GatheredAll(s, chunks + end) == Some(s.(idat := s.idat + DataOf(chunks)))
    decreases |chunks|
  {
    if chunks == [] {
      assert chunks + end == end && s.idat + [] == s.idat;
    } else {
      assert (chunks + end)[0] == chunks[0] && (chunks + end)[1..] == chunks[1..] + end;
      var t := Gathered(s, chunks[0]).value;
      InnerGathered(t, chunks[1..], end);
      KindsDiffer();
      assert chunks[0].kind == IDAT ==> s.idat + chunks[0].data + DataOf(chunks[1..]) == s.idat + (chunks[0].data + DataOf(chunks[1..]));
      assert [] + DataOf(chunks[1..]) == DataOf(chunks[1..]);
    }
  }

  /** The chunks of an image of 8-bit samples, not interlaced: header, anything, end, and whatever follows. */
  predicate Conforming(chunks: seq<Chunk>, w: nat, h: nat, colour: byte) {
    && |chunks| >= 2 && w < LIMIT && h < LIMIT
    && chunks[0] == Chunk(IHDR, Packed(w) + Packed(h) + [8, colour, 0, 0, 0])
    && exists n :: 1 <= n < |chunks| && chunks[n].kind == IEND && Inner(chunks[1..n])
  }

  lemma ConformingGathered(chunks: seq<Chunk>, w: nat, h: nat, colour: byte, n: nat, s: Header)
    requires Conforming(chunks, w, h, colour) && 1 <= n < |chunks| && chunks[n].kind == IEND && Inner(chunks[1..n])
    ensures GatheredAll(s, chunks) == Some(Header(w, h, colour, s.idat + DataOf(chunks[1..n])))
  {
    var d := Packed(w) + Packed(h) + [8, colour, 0, 0, 0];
    assert d[..4] == Packed(w) && d[4..8] == Packed(h) && d[9] == colour;
    NumberPacked(w);
    NumberPacked(h);
    KindsDiffer();
    assert Gathered(s, chunks[0]) == Some(Header(w, h, colour, s.idat));
    assert chunks[1..] == chunks[1..n] + chunks[n..];
    InnerGathered(Header(w, h, colour, s.idat), chunks[1..n], chunks[n..]);
  }

  /** Every such file is read: three samples for colour type 2 and four for type 6, whatever chunks stand
      between, however the data is split among its chunks, and whichever filter each row uses. */
  lemma ReadConforming(chunks: seq<Chunk>, n: nat, w: nat, rows: seq<Row>, types: seq<byte>, colour: byte,
                       inflate: Row -> Option<Row>, crc: Row -> Row)
    requires Wellformed(chunks, crc) && colour in {2, 6} && |types| == |rows|
    requires Conforming(chunks, w, |rows|, colour) && 1 <= n < |chunks| && chunks[n].kind == IEND && Inner(chunks[1..n])
    requires var ch := if colour == 2 then 3 else 4; Wide(rows, w * ch)
    requires var ch := if colour == 2 then 3 else 4;
             inflate(DataOf(chunks[1..n])) == Some(Encoded(rows, types, seq(w * ch, _ => 0), ch))
    ensures var ch := if colour == 2 then 3 else 4;
            Read(SIGNATURE + AllFramed(chunks, crc), inflate) == Some(Picture(w, |rows|, ch, Flat(rows)))
  {
    var ch := if colour == 2 then 3 else 4;
    var d, raw := SIGNATURE + AllFramed(chunks, crc), Encoded(rows, types, seq(w * ch, _ => 0), ch);
    assert |SIGNATURE| == 8 && d[8..] == AllFramed(chunks, crc) && Channels(colour) == ch;
    hide *;
    WalkFramed(chunks, crc, Header(0, 0, 0, []));
    ConformingGathered(chunks, w, |rows|, colour, n, Header(0, 0, 0, []));
    assert [] + DataOf(chunks[1..n]) == DataOf(chunks[1..n]);
    ReadFrom(d, Header(w, |rows|, colour, DataOf(chunks[1..n])), raw, inflate);
    EncodedPictured(w, rows, types, ch);
  }

  lemma EncodedPictured(w: nat, rows: seq<Row>, types: seq<byte>, ch: nat)
    requires ch > 0 && |types| == |rows| && Wide(rows, w * ch)
    ensures Pictured(w, |rows|, ch, Encoded(rows, types, seq(w * ch, _ => 0), ch)) == Some(Picture(w, |rows|, ch, Flat(rows)))
  {
    var raw := Encoded(rows, types, seq(w * ch, _ => 0), ch);
    DecodeEncoded(rows, types, seq(w * ch, _ => 0), ch, []);
    assert raw + [] == raw;
    hide Encoded, Decoded, Wide, Flat, Holds;
  }

  /** A length or size is written most significant byte first, as section 7.1 of the W3C PNG Recommendation asks. */
  lemma BigEndian(n: nat)
    requires n < LIMIT
    ensures var p := Packed(n); n == p[0] as nat * 0x100_0000 + p[1] as nat * 0x1_0000 + p[2] as nat * 0x100 + p[3] as nat
  {
    NumberPacked(n);
  }

  /** What the script's file starts with: the signature, the header chunk's length and name, width and
      height, eight bits of three colour samples, deflate, adaptive filtering, no interlace. */
  lemma WrittenStarts(w: nat, rows: seq<Row>, deflate: Row -> Row, crc: Row -> Row)
    requires w < LIMIT && |rows| < LIMIT && Wellformed(WrittenChunks(w, rows, deflate), crc)
    ensures var d := Written(w, rows, deflate, crc);
            && |d| >= 29 && d[..8] == [137, 80, 78, 71, 13, 10, 26, 10] && d[8..16] == [0, 0, 0, 13, 73, 72, 68, 82]
            && d[16..20] == Packed(w) && d[20..24] == Packed(|rows|) && d[24..29] == [8, 2, 0, 0, 0]
  {
    var chunks := WrittenChunks(w, rows, deflate);
    var head := Framed(chunks[0], crc);
    var rest := AllFramed(chunks[1..], crc);
    assert AllFramed(chunks, crc) == head + rest;
    assert |HeaderData(w, |rows|)| == 13 && Packed(13) == [0, 0, 0, 13];
    assert head == Packed(13) + IHDR + HeaderData(w, |rows|) + crc(IHDR + HeaderData(w, |rows|));
  }
}
