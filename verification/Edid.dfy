/** edid_parse, edid_preferred and edid_best_mode (hardware/edid.c): 128 bytes in, a table of at most
    ten modes out. */
module Edid {
  import opened Numbers
  import opened Wrappers

  const BLOCK := 128
  const TABLE := 10
  const DTD := 18
  const HEADER: seq<byte> := [0x00, 0xff, 0xff, 0xff, 0xff, 0xff, 0xff, 0x00]

  datatype Timing = Timing(
    clock: nat, w: nat, h: nat, hblank: nat, vblank: nat, interlaced: bool, hpos: bool, vpos: bool)

  /** clock counts 10 kHz; refresh is in thousandths of a Hz. */
  datatype Mode = Mode(timing: Timing, refresh: int, preferred: bool, established: bool)

  // ------------------------------------------------------------ descriptors

  /** A cast to a 32-bit int. */
  function Int32(v: int): (r: int)
    ensures -0x8000_0000 <= r < 0x8000_0000
  {
    var m := v % 0x1_0000_0000;
    if m < 0x8000_0000 then m else m - 0x1_0000_0000
  }

  predicate Bit(b: byte, weight: nat)
    requires weight > 0
  {
    b as nat / weight % 2 == 1
  }

  /** The fields of a detailed timing descriptor. */
  function Fields(d: seq<byte>): Timing
    requires |d| == DTD
  {
    Timing(
      d[0] as nat + d[1] as nat * 256,
      d[2] as nat + d[4] as nat / 16 * 256,
      d[5] as nat + d[7] as nat / 16 * 256,
      d[3] as nat + d[4] as nat % 16 * 256,
      d[6] as nat + d[7] as nat % 16 * 256,
      Bit(d[17], 128), Bit(d[17], 2), Bit(d[17], 4))
  }

  /** A descriptor of a mode that can be shown; the others describe the monitor or nothing. */
  predicate Usable(d: seq<byte>)
    requires |d| == DTD
  {
    Fields(d).clock > 0 && Fields(d).w > 0 && Fields(d).h > 0
  }

  /** Half the lines per field when interlaced; no refresh rate for a frame of no lines. */
  function Refresh(t: Timing): int {
    var across := t.w + t.hblank;
    var down := if t.interlaced then (t.h + t.vblank) / 2 else t.h + t.vblank;
    if across > 0 && down > 0 then Int32(t.clock * 10 * 1000000 / (across * down)) else 0
  }

  /** The layout of section 3.10.2 of the VESA E-EDID standard. The remaining bytes and bits are the
      sync offsets, image size, borders and the other flags. */
  predicate Encodes(d: seq<byte>, t: Timing)
    requires |d| == DTD
  {
    && d[0] as nat == t.clock % 256 && d[1] as nat == t.clock / 256
    && d[2] as nat == t.w % 256 && d[3] as nat == t.hblank % 256
    && d[4] as nat == t.w / 256 * 16 + t.hblank / 256
    && d[5] as nat == t.h % 256 && d[6] as nat == t.vblank % 256
    && d[7] as nat == t.h / 256 * 16 + t.vblank / 256
    && Bit(d[17], 128) == t.interlaced && Bit(d[17], 2) == t.hpos && Bit(d[17], 4) == t.vpos
  }

  predicate Encodable(t: Timing) {
    t.clock < 65536 && t.w < 4096 && t.h < 4096 && t.hblank < 4096 && t.vblank < 4096
  }

  /** The flag byte: bits 7, 2 and 1 are the timing's, the others are kept. */
  function Flags(other: byte, interlaced: bool, hpos: bool, vpos: bool): (f: byte)
    ensures Bit(f, 128) == interlaced && Bit(f, 2) == hpos && Bit(f, 4) == vpos
    ensures f as nat % 2 == other as nat % 2 && f as nat / 8 % 16 == other as nat / 8 % 16
  {
    var low, mid := other as nat % 2, other as nat / 8 % 16;
    FlagBits(low, if hpos then 1 else 0, if vpos then 1 else 0, mid, if interlaced then 1 else 0);
    (low + (if hpos then 2 else 0) + (if vpos then 4 else 0) + mid * 8 + (if interlaced then 128 else 0)) as byte
  }

  lemma FlagBits(low: nat, h: nat, v: nat, mid: nat, i: nat)
    requires low < 2 && h < 2 && v < 2 && mid < 16 && i < 2
    ensures var f := low + h * 2 + v * 4 + mid * 8 + i * 128;
            f < 256 && f % 2 == low && f / 2 % 2 == h && f / 4 % 2 == v && f / 8 % 16 == mid && f / 128 % 2 == i
  {
    var f := low + h * 2 + v * 4 + mid * 8 + i * 128;
    assert f / 2 == h + v * 2 + mid * 4 + i * 64;
    assert f / 4 == v + mid * 2 + i * 32;
    assert f / 8 == mid + i * 16;
    assert f / 128 == i;
  }

  lemma HighBits(v: nat)
    ensures v < 65536 ==> v / 256 < 256
    ensures v < 4096 ==> v / 256 < 16
  {
  }

  /** An encoder: other is any descriptor whose bytes fill what the timing does not. */
  function Encode(t: Timing, other: seq<byte>): (d: seq<byte>)
    requires Encodable(t) && |other| == DTD
    ensures |d| == DTD && Encodes(d, t)
  {
    HighBits(t.clock);
    HighBits(t.w);
    HighBits(t.h);
    HighBits(t.hblank);
    HighBits(t.vblank);
    [(t.clock % 256) as byte, (t.clock / 256) as byte, (t.w % 256) as byte, (t.hblank % 256) as byte,
     (t.w / 256 * 16 + t.hblank / 256) as byte, (t.h % 256) as byte, (t.vblank % 256) as byte,
     (t.h / 256 * 16 + t.vblank / 256) as byte]
    + other[8..17]
    + [Flags(other[17], t.interlaced, t.hpos, t.vpos)]
  }

  /** Whatever encodes a timing parses back to it. */
  lemma FieldsEncoded(d: seq<byte>, t: Timing)
    requires |d| == DTD && Encodable(t) && Encodes(d, t)
    ensures Fields(d) == t
  {
    Nibbles(t.w, t.hblank);
    Nibbles(t.h, t.vblank);
  }

  /** Two 12-bit numbers in three bytes. */
  lemma Nibbles(a: nat, b: nat)
    requires a < 4096 && b < 4096
    ensures var high := a / 256 * 16 + b / 256; high / 16 == a / 256 && high % 16 == b / 256
  {
  }

  /** Parsing is one to one: the fields determine the encoded bytes. */
  lemma EncodesFields(d: seq<byte>)
    requires |d| == DTD
    ensures Encodable(Fields(d)) && Encodes(d, Fields(d))
  {
  }

  // ------------------------------------------------------------------- table

  function Legacy(w: nat, h: nat, hz: nat): Mode {
    Mode(Timing(0, w, h, 0, 0, false, false, false), hz * 1000, false, true)
  }

  function If(b: bool, m: Mode): (r: seq<Mode>)
    ensures |r| <= 1
  {
    if b then [m] else []
  }

  predicate NonePreferred(modes: seq<Mode>) { forall k :: 0 <= k < |modes| ==> !modes[k].preferred }

  /** The established timings of byte 35 and of byte 36 that the parser knows. */
  function Older(b: byte): (r: seq<Mode>)
    ensures |r| <= 3
  {
    If(Bit(b, 128), Legacy(720, 400, 70)) + If(Bit(b, 32), Legacy(640, 480, 60)) + If(Bit(b, 1), Legacy(800, 600, 60))
  }

  function Newer(b: byte): (r: seq<Mode>)
    ensures |r| <= 3
  {
    If(Bit(b, 8), Legacy(1024, 768, 60)) + If(Bit(b, 64), Legacy(800, 600, 75)) + If(Bit(b, 1), Legacy(1280, 1024, 75))
  }

  function Established(d: seq<byte>): (r: seq<Mode>)
    requires |d| >= BLOCK
    ensures |r| <= 6
  {
    Older(d[35]) + Newer(d[36])
  }

  /** The established timings of section 3.8 of the E-EDID standard that are known, each listed exactly
      if its bit is set, and nothing else. */
  lemma EstablishedExactly(d: seq<byte>, m: Mode)
    requires |d| >= BLOCK
    ensures m in Established(d) <==>
      || (m == Legacy(720, 400, 70) && d[35] as nat / 128 % 2 == 1)
      || (m == Legacy(640, 480, 60) && d[35] as nat / 32 % 2 == 1)
      || (m == Legacy(800, 600, 60) && d[35] as nat % 2 == 1)
      || (m == Legacy(800, 600, 75) && d[36] as nat / 64 % 2 == 1)
      || (m == Legacy(1024, 768, 60) && d[36] as nat / 8 % 2 == 1)
      || (m == Legacy(1280, 1024, 75) && d[36] as nat % 2 == 1)
  {
    OlderExactly(d[35], m);
    NewerExactly(d[36], m);
    hide Older, Newer, Legacy;
  }

  lemma OlderExactly(b: byte, m: Mode)
    ensures m in Older(b) <==>
      || (m == Legacy(720, 400, 70) && b as nat / 128 % 2 == 1)
      || (m == Legacy(640, 480, 60) && b as nat / 32 % 2 == 1)
      || (m == Legacy(800, 600, 60) && b as nat % 2 == 1)
  {
    hide Legacy;
  }

  lemma NewerExactly(b: byte, m: Mode)
    ensures m in Newer(b) <==>
      || (m == Legacy(800, 600, 75) && b as nat / 64 % 2 == 1)
      || (m == Legacy(1024, 768, 60) && b as nat / 8 % 2 == 1)
      || (m == Legacy(1280, 1024, 75) && b as nat % 2 == 1)
  {
    hide Legacy;
  }

  lemma EstablishedUnpreferred(d: seq<byte>)
    requires |d| >= BLOCK
    ensures NonePreferred(Established(d))
  {
    ThreeUnpreferred(If(Bit(d[35], 128), Legacy(720, 400, 70)), If(Bit(d[35], 32), Legacy(640, 480, 60)),
                     If(Bit(d[35], 1), Legacy(800, 600, 60)));
    ThreeUnpreferred(If(Bit(d[36], 8), Legacy(1024, 768, 60)), If(Bit(d[36], 64), Legacy(800, 600, 75)),
                     If(Bit(d[36], 1), Legacy(1280, 1024, 75)));
    NonePreferredAppend(Older(d[35]), Newer(d[36]));
  }

  lemma ThreeUnpreferred(a: seq<Mode>, b: seq<Mode>, c: seq<Mode>)
    requires NonePreferred(a) && NonePreferred(b) && NonePreferred(c)
    ensures NonePreferred(a + b + c)
  {
    NonePreferredAppend(a, b);
    NonePreferredAppend(a + b, c);
  }

  lemma NonePreferredAppend(a: seq<Mode>, b: seq<Mode>)
    requires NonePreferred(a) && NonePreferred(b)
    ensures NonePreferred(a + b)
  {
  }

  lemma PreferredMore(modes: seq<Mode>, m: Mode)
    ensures NonePreferred(modes + [m]) <==> NonePreferred(modes) && !m.preferred
  {
    assert (modes + [m])[|modes|] == m && forall k :: 0 <= k < |modes| ==> (modes + [m])[k] == modes[k];
  }

  function Descriptor(d: seq<byte>, i: nat): (r: seq<byte>)
    requires |d| >= BLOCK && i < 4
    ensures |r| == DTD
  {
    d[54 + i * DTD..54 + i * DTD + DTD]
  }

  predicate UsableAt(d: seq<byte>, i: int) { |d| >= BLOCK && 0 <= i < 4 && Usable(Descriptor(d, i)) }

  /** The modes of the first n descriptors; the first of them is preferred. */
  function Detailed(d: seq<byte>, n: nat): (r: seq<Mode>)
    requires |d| >= BLOCK && n <= 4
    ensures |r| <= n
  {
    if n == 0 then [] else
      var before := Detailed(d, n - 1);
      if !UsableAt(d, n - 1) then before else
        var t := Fields(Descriptor(d, n - 1));
        before + [Mode(t, Refresh(t), before == [], false)]
  }

  /** Every established bit and every usable descriptor, in order. */
  function Modes(d: seq<byte>): (r: seq<Mode>)
    requires |d| >= BLOCK
    ensures |r| <= TABLE
  {
    Established(d) + Detailed(d, 4)
  }

  function Count(d: seq<byte>, n: nat): nat
    requires n <= 4
  {
    if n == 0 then 0 else Count(d, n - 1) + if UsableAt(d, n - 1) then 1 else 0
  }

  lemma {:induction false} DetailedCount(d: seq<byte>, n: nat)
    requires |d| >= BLOCK && n <= 4
    ensures |Detailed(d, n)| == Count(d, n)
    ensures forall i :: 0 <= i < |Detailed(d, n)| ==> (Detailed(d, n)[i].preferred <==> i == 0)
  {
    if n > 0 { DetailedCount(d, n - 1); }
  }

  /** The preferred mode is unique: it is the first usable descriptor's, behind the established ones,
      and there is one exactly if some descriptor is usable. */
  lemma PreferredIsFirstDetailed(d: seq<byte>, i: nat)
    requires |d| >= BLOCK && i < |Modes(d)|
    ensures Modes(d)[i].preferred <==> i == |Established(d)|
    ensures |Modes(d)| > |Established(d)| <==> exists k :: UsableAt(d, k)
  {
    DetailedCount(d, 4);
    EstablishedUnpreferred(d);
    if exists k :: UsableAt(d, k) {
      var k :| UsableAt(d, k);
      CountPositive(d, 4, k);
    } else {
      CountZero(d, 4);
    }
  }

  lemma {:induction false} CountPositive(d: seq<byte>, n: nat, k: nat)
    requires n <= 4 && k < n && UsableAt(d, k)
    ensures Count(d, n) > 0
  {
    if k < n - 1 { CountPositive(d, n - 1, k); }
  }

  lemma {:induction false} CountZero(d: seq<byte>, n: nat)
    requires n <= 4 && !exists k :: UsableAt(d, k)
    ensures Count(d, n) == 0
  {
    if n > 0 { CountZero(d, n - 1); }
  }

  lemma {:induction false} FirstDetailed(d: seq<byte>, n: nat, k: nat)
    requires |d| >= BLOCK && k < n <= 4 && UsableAt(d, k) && forall j :: 0 <= j < k ==> !UsableAt(d, j)
    ensures Detailed(d, n) != [] && Detailed(d, n)[0].timing == Fields(Descriptor(d, k))
  {
    if k < n - 1 {
      FirstDetailed(d, n - 1, k);
    } else {
      NoneBefore(d, k);
    }
  }

  lemma {:induction false} NoneBefore(d: seq<byte>, n: nat)
    requires |d| >= BLOCK && n < 4 && forall j :: 0 <= j < n ==> !UsableAt(d, j)
    ensures Detailed(d, n) == []
  {
    if n > 0 { NoneBefore(d, n - 1); }
  }

  /** One descriptor more. */
  lemma DetailedStep(d: seq<byte>, i: nat)
    requires |d| >= BLOCK && i < 4
    ensures var all, t := Established(d) + Detailed(d, i), Fields(Descriptor(d, i));
            && |all| < TABLE && (NonePreferred(all) <==> Detailed(d, i) == [])
            && Established(d) + Detailed(d, i + 1) ==
               (if Usable(Descriptor(d, i)) then all + [Mode(t, Refresh(t), NonePreferred(all), false)] else all)
            && (Detailed(d, i + 1) == [] <==> Detailed(d, i) == [] && !Usable(Descriptor(d, i)))
  {
    DetailedCount(d, i);
    EstablishedUnpreferred(d);
    var e, all := Established(d), Established(d) + Detailed(d, i);
    if Detailed(d, i) == [] {
      assert all == e;
    } else {
      assert all[|e|].preferred;
    }
  }

  // ---------------------------------------------------------------- checksum

  function Sum(d: seq<byte>): nat {
    if d == [] then 0 else Sum(d[..|d| - 1]) + d[|d| - 1] as nat
  }

  /** edid_parse accepts the block. */
  predicate Accepted(d: seq<byte>) {
    && |d| >= BLOCK && d[..8] == HEADER && Sum(d[..BLOCK]) % 256 == 0 && Modes(d) != []
  }

  lemma {:induction false} SumUpdate(d: seq<byte>, i: nat, v: byte)
    requires i < |d|
    ensures Sum(d[i := v]) == Sum(d) - d[i] as nat + v as nat
  {
    var e := d[i := v];
    if i == |d| - 1 {
      assert e[..|d| - 1] == d[..|d| - 1];
    } else {
      SumUpdate(d[..|d| - 1], i, v);
      assert e[..|d| - 1] == d[..|d| - 1][i := v];
    }
  }

  /** Any change of one byte of an accepted block is rejected. */
  lemma OneByteRejected(d: seq<byte>, i: nat, v: byte)
    requires Accepted(d) && i < BLOCK && v != d[i]
    ensures !Accepted(d[i := v])
  {
    assert d[i := v][..BLOCK] == d[..BLOCK][i := v];
    SumUpdate(d[..BLOCK], i, v);
    OtherRemainder(Sum(d[..BLOCK]), d[i] as int, v as int);
  }

  lemma OtherRemainder(sum: int, a: int, b: int)
    requires 0 <= a < 256 && 0 <= b < 256 && a != b && sum % 256 == 0
    ensures (sum - a + b) % 256 != 0
  {
  }

  // --------------------------------------------------------------- best mode

  predicate FitsIn(m: Mode, maxW: nat, maxH: nat) {
    (maxW == 0 || m.timing.w <= maxW) && (maxH == 0 || m.timing.h <= maxH)
  }

  function Score(m: Mode): int { m.timing.w * m.timing.h * 1000 + m.refresh }

  // ----------------------------------------------------------------- in place

  class Info {
    const modes: array<Mode>
    var nmodes: nat
    var preferred: int
    var valid: bool

    ghost predicate Valid()
      reads this, modes
    {
      modes.Length == TABLE && nmodes <= TABLE
    }

    constructor ()
      ensures Valid() && nmodes == 0 && preferred == -1 && !valid && fresh(modes)
    {
      modes := new Mode[TABLE](_ => Legacy(0, 0, 0));
      nmodes, preferred, valid := 0, -1, false;
    }

    /** add_established: room is asked for, and the caller shows that there is some. */
    method AddEstablished(w: nat, h: nat, hz: nat, bit: bool)
      requires Valid()
      modifies modes, this`nmodes
      ensures Valid()
      ensures old(nmodes) < TABLE ==> modes[..nmodes] == old(modes[..nmodes]) + If(bit, Legacy(w, h, hz))
    {
      if !bit || nmodes >= modes.Length { return; }
      Append(Legacy(w, h, hz));
    }

    method Append(m: Mode)
      requires Valid() && nmodes < TABLE
      modifies modes, this`nmodes
      ensures Valid() && nmodes == old(nmodes) + 1 && modes[..nmodes] == old(modes[..nmodes]) + [m]
    {
      modes[nmodes] := m;
      nmodes := nmodes + 1;
    }

    method AnyPreferred() returns (any: bool)
      requires Valid()
      ensures any <==> !NonePreferred(modes[..nmodes])
    {
      any := false;
      for k := 0 to nmodes
        invariant any <==> !NonePreferred(modes[..k])
      {
        assert modes[..k + 1] == modes[..k] + [modes[k]];
        PreferredMore(modes[..k], modes[k]);
        if modes[k].preferred { any := true; }
      }
    }

    /** parse_descriptor, as far as modes are concerned. */
    method ParseDescriptor(d: seq<byte>)
      requires Valid() && |d| == DTD
      modifies modes, this`nmodes, this`preferred
      ensures Valid()
      ensures !Usable(d) ==> nmodes == old(nmodes) && preferred == old(preferred) && modes[..nmodes] == old(modes[..nmodes])
      ensures
        Usable(d) && old(nmodes) < TABLE ==>
          var first := NonePreferred(old(modes[..nmodes]));
          && modes[..nmodes] == old(modes[..nmodes]) + [Mode(Fields(d), Refresh(Fields(d)), first, false)]
          && preferred == if first then old(nmodes) else old(preferred)
    {
      var t := Fields(d);
      if t.clock == 0 || nmodes >= modes.Length || t.w == 0 || t.h == 0 { return; }
      var any := AnyPreferred();
      Append(Mode(t, Refresh(t), !any, false));
      if !any { preferred := nmodes - 1; }
    }

    /** The six calls for the established timings. */
    method ParseEstablished(d: seq<byte>)
      requires Valid() && nmodes == 0 && |d| >= BLOCK
      modifies modes, this`nmodes
      ensures Valid() && modes[..nmodes] == Established(d)
    {
      AddOlder(d[35]);
      AddNewer(d[36]);
    }

    method AddOlder(b: byte)
      requires Valid() && nmodes == 0
      modifies modes, this`nmodes
      ensures Valid() && modes[..nmodes] == Older(b)
    {
      AddEstablished(720, 400, 70, Bit(b, 128));
      AddEstablished(640, 480, 60, Bit(b, 32));
      AddEstablished(800, 600, 60, Bit(b, 1));
    }

    method AddNewer(b: byte)
      requires Valid() && nmodes <= 3
      modifies modes, this`nmodes
      ensures Valid() && modes[..nmodes] == old(modes[..nmodes]) + Newer(b)
    {
      ghost var before := modes[..nmodes];
      AddEstablished(1024, 768, 60, Bit(b, 8));
      AddEstablished(800, 600, 75, Bit(b, 64));
      AddEstablished(1280, 1024, 75, Bit(b, 1));
      assert before + Newer(b) == before + If(Bit(b, 8), Legacy(1024, 768, 60))
        + If(Bit(b, 64), Legacy(800, 600, 75)) + If(Bit(b, 1), Legacy(1280, 1024, 75));
    }

    /** The loop over the four descriptors. */
    method ParseDetailed(d: seq<byte>)
      requires Valid() && |d| >= BLOCK && preferred == -1 && modes[..nmodes] == Established(d)
      modifies modes, this`nmodes, this`preferred
      ensures Valid() && modes[..nmodes] == Modes(d)
      ensures preferred == if |Modes(d)| > |Established(d)| then |Established(d)| else -1
    {
      for i := 0 to 4
        invariant Valid() && modes[..nmodes] == Established(d) + Detailed(d, i)
        invariant preferred == if Detailed(d, i) == [] then -1 else |Established(d)|
      {
        DetailedStep(d, i);
        ParseDescriptor(Descriptor(d, i));
      }
    }

    /** edid_parse: nothing is ever dropped from the table. */
    method Parse(d: seq<byte>)
      requires Valid()
      modifies this, modes
      ensures Valid() && valid == Accepted(d)
      ensures |d| >= BLOCK && d[..8] == HEADER ==> modes[..nmodes] == Modes(d)
      ensures valid ==> preferred == if |Modes(d)| > |Established(d)| then |Established(d)| else -1
    {
      nmodes, preferred, valid := 0, -1, false;
      if |d| < BLOCK || d[..8] != HEADER { return; }
      var sum := 0;
      for i := 0 to BLOCK
        invariant sum == Sum(d[..BLOCK][..i])
      {
        assert d[..BLOCK][..i + 1][..i] == d[..BLOCK][..i];
        sum := sum + d[i] as nat;
      }
      assert d[..BLOCK][..BLOCK] == d[..BLOCK];
      ParseEstablished(d);
      ParseDetailed(d);
      valid := sum % 256 == 0 && nmodes > 0;
    }

    /** edid_preferred exists and fits. */
    ghost predicate PreferredFits(maxW: nat, maxH: nat)
      requires Valid()
      reads this, modes
    {
      0 <= preferred < nmodes && FitsIn(modes[preferred], maxW, maxH)
    }

    /** edid_best_mode: the preferred mode if it fits; else the first fitting mode of the greatest
        score, none exactly when no fitting mode has a score of at least 0. */
    method BestMode(maxW: nat, maxH: nat) returns (best: Option<nat>)
      requires Valid()
      ensures best.Some? ==> best.value < nmodes && FitsIn(modes[best.value], maxW, maxH)
      ensures PreferredFits(maxW, maxH) ==> best == Some(preferred)
      ensures
        !PreferredFits(maxW, maxH) ==>
          && (best.None? <==> forall i :: 0 <= i < nmodes && FitsIn(modes[i], maxW, maxH) ==> Score(modes[i]) < 0)
          && (best.Some? ==> forall i :: 0 <= i < nmodes && FitsIn(modes[i], maxW, maxH) ==>
                Score(modes[i]) <= Score(modes[best.value]) && (i < best.value ==> Score(modes[i]) < Score(modes[best.value])))
    {
      if 0 <= preferred < nmodes && FitsIn(modes[preferred], maxW, maxH) { return Some(preferred); }
      best := None;
      var bestScore := -1;
      for i := 0 to nmodes
        invariant best.None? ==> bestScore == -1
        invariant best.Some? ==> best.value < i && FitsIn(modes[best.value], maxW, maxH)
        invariant best.Some? ==> 0 <= bestScore == Score(modes[best.value])
        invariant forall k :: 0 <= k < i && FitsIn(modes[k], maxW, maxH) ==>
          Score(modes[k]) <= bestScore && (best.Some? && k < best.value ==> Score(modes[k]) < bestScore)
      {
        if maxW != 0 && modes[i].timing.w > maxW { continue; }
        if maxH != 0 && modes[i].timing.h > maxH { continue; }
        var score := Score(modes[i]);
        if score > bestScore { bestScore, best := score, Some(i); }
      }
    }
  }

  /** A mode with more pixels scores higher unless the other's refresh rate leads by a thousandth of a
      hertz and more for each pixel of difference; of two sizes with equally many pixels the faster one. */
  lemma ScoreOrders(a: Mode, b: Mode)
    ensures var more := b.timing.w * b.timing.h - a.timing.w * a.timing.h;
            Score(a) < Score(b) <==> a.refresh - b.refresh < 1000 * more
  {
  }

  /** A timing whose pixel clock is the refresh rate times the pixels of a field, blanking included, is
      read with that rate; in general the rate is rounded down to a thousandth of a hertz. */
  lemma RefreshIsRate(t: Timing, rate: nat)
    requires t.w + t.hblank > 0 && (if t.interlaced then (t.h + t.vblank) / 2 else t.h + t.vblank) > 0
    requires rate < 0x8000_0000
    ensures var pixels := (t.w + t.hblank) * (if t.interlaced then (t.h + t.vblank) / 2 else t.h + t.vblank);
            rate * pixels <= t.clock * 10_000 * 1000 < (rate + 1) * pixels ==> Refresh(t) == rate
  {
    var across, down := t.w + t.hblank, if t.interlaced then (t.h + t.vblank) / 2 else t.h + t.vblank;
    Positive(across, down);
    if rate * (across * down) <= t.clock * 10_000 * 1000 < (rate + 1) * (across * down) {
      Floored(t.clock * 10_000 * 1000, across * down, rate);
    }
  }

  lemma Positive(a: nat, b: nat)
    requires a > 0 && b > 0
    ensures a * b > 0
  {
  }

  lemma Floored(v: nat, d: nat, q: nat)
    requires d > 0 && q * d <= v < (q + 1) * d
    ensures v / d == q
  {
    Between(v / d, q, v, d) by { DivBounds(v, d); }
  }

  lemma DivBounds(v: nat, d: nat)
    requires d > 0
    ensures v / d * d <= v < v / d * d + d
  {
  }

  /** Only one multiple of d is that near below v. */
  lemma Between(r: nat, q: nat, v: nat, d: nat)
    requires r * d <= v < r * d + d && q * d <= v < (q + 1) * d
    ensures r == q
  {
    Ordered(q, q, d);
    if r > q { Ordered(q + 1, r, d); }
    if r < q { Ordered(r, r, d); Ordered(r + 1, q, d); }
  }

  lemma Ordered(a: nat, b: nat, m: nat)
    requires a <= b
    ensures a * m <= b * m && (a + 1) * m == a * m + m
  {
    Product(b - a, m);
    assert (b - a) * m == b * m - a * m;
  }

  /** A score is below zero only for a frame so small that the refresh rate leaves the 32-bit range:
      from 306 pixels per frame on, blanking included, it is not. */
  lemma ScoreNonNegative(t: Timing)
    requires Encodable(t)
    requires (t.w + t.hblank) * (if t.interlaced then (t.h + t.vblank) / 2 else t.h + t.vblank) >= 306
    ensures Refresh(t) >= 0 && Score(Mode(t, Refresh(t), false, false)) >= 0
  {
    var frame := (t.w + t.hblank) * (if t.interlaced then (t.h + t.vblank) / 2 else t.h + t.vblank);
    var v := t.clock * 10 * 1000000;
    Quotient(v, frame);
    Product(t.w, t.h);
  }

  lemma Quotient(v: nat, frame: nat)
    requires v <= 655_350_000_000 && frame >= 306
    ensures 0 <= v / frame < 0x8000_0000
  {
    var q := v / frame;
    assert q * frame <= v;
    Product(q, frame - 306);
    assert q * (frame - 306) == q * frame - q * 306;
  }

  lemma Product(a: nat, b: nat)
    ensures a * b >= 0
  {
  }
}
