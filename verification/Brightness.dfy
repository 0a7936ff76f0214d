/** Percentages and raw values of a backlight (hardware/backlight.c), in exact arithmetic. */
module Brightness {
  import opened Numbers
  import opened Wrappers

  /** C division: towards zero. */
  function Quotient(a: int, b: int): int
    requires b > 0
  {
    if a >= 0 then a / b else -(-a / b)
  }

  /** bl_percent_of a device that has a range. */
  function Percent(max: int, raw: int): (p: int)
    requires max > 0
    ensures 0 <= p <= 100
  {
    Clamp(Quotient(raw * 100 + max / 2, max), 0, 100)
  }

  /** bl_raw_for: rounded to the nearest raw value, and never off for a percentage above 0 when there
      are at least 8 steps. */
  function RawFor(max: int, pct: int): int
    requires max > 0
  {
    var p := Clamp(pct, 0, 100);
    var raw := (p * max + 50) / 100;
    if p > 0 && raw == 0 && max >= 8 then 1 else raw
  }

  // ------------------------------------------------------------- arithmetic

  lemma Times(a: int, b: int)
    requires a >= 0 && b >= 0
    ensures a * b >= 0
  {
  }

  /** What rounding to a raw value leaves: 100 raw = p max + e with e in -49..50. */
  lemma RawError(max: int, p: int)
    requires max > 0 && 0 <= p <= 100
    ensures var raw := (p * max + 50) / 100; raw >= 0 && -50 < raw * 100 - p * max <= 50
  {
    Times(p, max);
  }

  lemma DivShift(p: int, max: int, e: int)
    requires max > 0 && 0 <= e < max
    ensures (p * max + e) / max == p
  {
    var q := (p * max + e) / max;
    assert q * max <= p * max + e < q * max + max;
    if q > p { TimesMonotone(p + 1, q, max); }
    if q < p { TimesMonotone(q + 1, p, max); }
  }

  lemma TimesMonotone(a: int, b: int, m: int)
    requires a <= b && m >= 0
    ensures a * m <= b * m && (a + 1) * m == a * m + m && (a - 1) * m == a * m - m
  {
    Times(b - a, m);
    assert (b - a) * m == b * m - a * m;
  }

  lemma RoundTrip(max: int, p: int)
    requires max >= 100 && 0 <= p <= 100
    ensures Percent(max, RawFor(max, p)) == p
  {
    RawError(max, p);
    Times(p, max);
    if p > 0 { Times(p - 1, max); assert (p - 1) * max == p * max - max; }
    var raw := RawFor(max, p);
    var e := raw * 100 - p * max + max / 2;
    if max == 100 {
      assert raw == p;
    }
    DivShift(p, max, e);
    assert raw * 100 + max / 2 == p * max + e;
  }

  /** Raw values never fall as the percentage rises. */
  lemma RawMonotone(max: int, p: int, q: int)
    requires max > 0 && p <= q
    ensures RawFor(max, p) <= RawFor(max, q)
  {
    var a, b := Clamp(p, 0, 100), Clamp(q, 0, 100);
    Times(b - a, max);
    assert (b - a) * max == b * max - a * max;
  }

  lemma RawEnds(max: int)
    requires max > 0
    ensures RawFor(max, 0) == 0 && RawFor(max, 100) == max
  {
  }

  /** The percentage of a raw value is 100 raw / max rounded to the nearest, up on a tie, for every raw
      value of the range; outside it is 0 or 100. */
  lemma PercentNearest(max: int, raw: int)
    requires max > 0
    ensures var p := Percent(max, raw);
            if raw <= 0 then p == 0 else if raw >= max then p == 100
            else p * max - max / 2 <= 100 * raw < p * max + max - max / 2
  {
    var v := raw * 100 + max / 2;
    hide Percent;
    if raw <= 0 {
      PercentOff(max, raw);
    } else {
      PercentOn(max, raw, v / max);
      Nearest(max, raw, v / max) by { DivBounds(v, max); }
    }
  }

  lemma PercentOff(max: int, raw: int)
    requires max > 0 && raw <= 0
    ensures Percent(max, raw) == 0
  {
    var v := raw * 100 + max / 2;
    if v < 0 { DivBounds(-v, max); } else { DivBounds(v, max); }
    NoMultiple(max, v / max);
  }

  lemma NoMultiple(max: int, q: int)
    requires max > 0
    ensures q >= 1 ==> q * max >= max
  {
    if q >= 1 { TimesMonotone(1, q, max); }
  }

  lemma PercentOn(max: int, raw: int, q: int)
    requires max > 0 && raw > 0 && q == (raw * 100 + max / 2) / max
    ensures Percent(max, raw) == if q > 100 then 100 else if q < 0 then 0 else q
  {
  }

  lemma DivBounds(v: int, d: int)
    requires v >= 0 && d > 0
    ensures 0 <= v / d && v / d * d <= v < v / d * d + d
  {
  }

  lemma Nearest(max: int, raw: int, q: int)
    requires max > 0 && raw > 0 && q >= 0 && q * max <= raw * 100 + max / 2 < q * max + max
    ensures if raw >= max then q >= 100 else q <= 100 && q * max - max / 2 <= 100 * raw < q * max + max - max / 2
  {
    if q > 100 { TimesMonotone(101, q, max); }
    if q < 100 { TimesMonotone(q + 1, 100, max); TimesMonotone(q, q, max); }
  }

  /** The raw value of a percentage is pct max / 100 rounded to the nearest, up on a tie, or 1 where that
      would switch a panel of 8 steps or more off. */
  lemma RawNearest(max: int, pct: int)
    requires max > 0
    ensures var raw := RawFor(max, pct);
            if pct <= 0 then raw == 0 else if pct >= 100 then raw == max
            else if max >= 8 && pct * max < 50 then raw == 1 else -50 < raw * 100 - pct * max <= 50
  {
    RawEnds(max);
    if 0 < pct < 100 { RawError(max, pct); }
  }

  predicate RoundTrips(max: int)
    requires max > 0
  {
    forall p :: 0 <= p <= 100 ==> Percent(max, RawFor(max, p)) == p
  }

  lemma {:induction false} StepsApart(max: int, p: nat)
    requires max > 0 && RoundTrips(max) && p <= 100
    ensures RawFor(max, p) >= p
  {
    if p == 0 {
      RawEnds(max);
    } else {
      StepsApart(max, p - 1);
      RawMonotone(max, p - 1, p);
      assert Percent(max, RawFor(max, p)) != Percent(max, RawFor(max, p - 1));
    }
  }

  /** Every percentage is read back as set exactly when the device has at least 100 steps. */
  lemma RoundTripsIff(max: int)
    requires max > 0
    ensures RoundTrips(max) <==> max >= 100
  {
    if RoundTrips(max) {
      StepsApart(max, 100);
      RawEnds(max);
    }
    if max >= 100 {
      forall p | 0 <= p <= 100 ensures Percent(max, RawFor(max, p)) == p { RoundTrip(max, p); }
    }
  }

  /** No percentage above 0 switches the panel off exactly when there are at least 8 steps. */
  lemma NeverOffIff(max: int)
    requires max > 0
    ensures (forall p :: 0 < p <= 100 ==> RawFor(max, p) > 0) <==> max >= 8
  {
    if max >= 8 {
      forall p | 0 < p <= 100 ensures RawFor(max, p) > 0 { RawError(max, p); }
    } else {
      assert RawFor(max, 1) == 0;
    }
  }

  /** The raw value a verified step up of 10 per cent asks for. */
  function StepUp(max: int, raw: int): int
    requires max > 0
  {
    RawFor(max, Clamp(Percent(max, raw) + 10, 0, 100))
  }

  lemma StepUpRaises(max: int, raw: int)
    requires max >= 6 && 0 <= raw < max
    ensures StepUp(max, raw) > raw
  {
    var a := raw * 100 + max / 2;
    var q := a / max;
    assert q * max <= a < q * max + max;
    var p := Percent(max, raw);
    if q + 10 < 100 {
      assert p == q;
      assert (q + 10) * max == q * max + 10 * max;
      RawError(max, q + 10);
    } else {
      assert p + 10 >= 100;
      RawEnds(max);
    }
  }

  lemma StepUpFive(raw: int)
    requires 0 <= raw < 5
    ensures StepUp(5, raw) == raw + 1
  {
    assert Percent(5, raw) == raw * 20;
  }

  /** A step up from below full always raises the raw value exactly when there are at least 5 steps. */
  lemma StepUpRaisesIff(max: int)
    requires max > 0
    ensures (forall raw :: 0 <= raw < max ==> StepUp(max, raw) > raw) <==> max >= 5
  {
    if max >= 6 {
      forall raw | 0 <= raw < max ensures StepUp(max, raw) > raw { StepUpRaises(max, raw); }
    } else if max == 5 {
      forall raw | 0 <= raw < max ensures StepUp(max, raw) > raw {
        StepUpFive(raw);
      }
    } else {
      assert StepUp(max, 0) == 0;
    }
  }

  function Steps(max: int, raw: int, n: nat): int
    requires max > 0
  {
    if n == 0 then raw else StepUp(max, Steps(max, raw, n - 1))
  }

  function Reached(p: int, n: nat): int { Clamp(p + 10 * n, 0, 100) }

  lemma {:induction false} StepsReach(max: int, p: int, n: nat)
    requires max >= 100 && 0 <= p <= 100
    ensures Steps(max, RawFor(max, p), n) == RawFor(max, Reached(p, n))
  {
    if n > 0 {
      StepsReach(max, p, n - 1);
      RoundTrip(max, Reached(p, n - 1));
      assert Reached(p, n) == Clamp(Reached(p, n - 1) + 10, 0, 100);
    }
  }

  /** n steps up from p per cent show min(100, p + 10 n) per cent, for every p and n, exactly when the
      device has at least 100 steps. */
  lemma StepsReachIff(max: int)
    requires max > 0
    ensures
      (forall p: int, n: nat :: 0 <= p <= 100 ==> Percent(max, Steps(max, RawFor(max, p), n)) == Reached(p, n))
      <==> max >= 100
  {
    if max >= 100 {
      forall p: int, n: nat | 0 <= p <= 100
        ensures Percent(max, Steps(max, RawFor(max, p), n)) == Reached(p, n)
      {
        StepsReach(max, p, n);
        RoundTrip(max, Reached(p, n));
      }
    } else {
      RoundTripsIff(max);
      var p :| 0 <= p <= 100 && Percent(max, RawFor(max, p)) != p;
      assert Percent(max, Steps(max, RawFor(max, p), 0)) != Reached(p, 0);
    }
  }

  // ------------------------------------------------------------------ device

  datatype Result = Done | Unsupported | WriteFailed | VerifyFailed | NotTested | NoDevice

  /** What the system does with one write: the open, the write, the value read back (-1 if that fails)
      and the panel's actual brightness. */
  datatype Io = Io(denied: bool, openable: bool, written: bool, back: int, actual: int)

  class Device {
    const max: int
    const suspect: bool
    var cur: int
    var actual: int
    var writable: bool

    constructor (range: int, known: bool, value: int)
      ensures max == range && suspect == !known && cur == value && actual == value && writable
    {
      max, suspect, cur, actual, writable := range, !known, value, value, true;
    }

    /** bl_percent_of, -1 without a range. */
    function PercentOf(raw: int): int { if max <= 0 then -1 else Percent(max, raw) }

    /** write_and_verify: done exactly when the value read back is the one asked for. */
    method WriteAndVerify(raw: int, io: Io) returns (r: Result, applied: Option<int>)
      modifies this`cur, this`actual, this`writable
      ensures r == Done <==> io.openable && io.written && io.back == raw && raw >= 0
      ensures r == Unsupported <==> !io.openable && io.denied
      ensures cur == if io.openable && io.written then io.back else old(cur)
      ensures actual == if io.openable && io.written && io.actual >= 0 then io.actual else old(actual)
      ensures writable == (old(writable) && io.openable)
      ensures applied == if io.openable && io.written then Some(if io.back >= 0 then PercentOf(io.back) else -1) else None
    {
      if !io.openable {
        writable := false;
        return if io.denied then Unsupported else WriteFailed, None;
      }
      if !io.written { return WriteFailed, None; }
      cur := io.back;
      if io.actual >= 0 { actual := io.actual; }
      applied := Some(if io.back >= 0 then PercentOf(io.back) else -1);
      if io.back < 0 || io.back != raw { return VerifyFailed, applied; }
      return Done, applied;
    }

    /** set_percent_impl on the chosen device; a suspect device, a test tree and a device without a
        range are never written. */
    method SetPercent(pct: int, fixture: bool, io: Io) returns (r: Result, applied: Option<int>)
      modifies this`cur, this`actual, this`writable
      ensures suspect || fixture || max <= 0 ==>
                cur == old(cur) && actual == old(actual) && writable == old(writable) && r != Done
      ensures suspect ==> r == Unsupported && applied == Some(PercentOf(cur))
      ensures !suspect && fixture ==> r == NotTested && applied == Some(PercentOf(cur))
      ensures !suspect && !fixture && max <= 0 ==> r == Unsupported && applied == Some(-1)
      ensures !suspect && !fixture && max > 0 ==> (r == Done <==> io.openable && io.written && io.back == RawFor(max, pct))
      ensures r == Done ==> cur == RawFor(max, pct) && applied == Some(Percent(max, cur))
    {
      if suspect { return Unsupported, Some(PercentOf(cur)); }
      if fixture { return NotTested, Some(PercentOf(cur)); }
      if max <= 0 { return Unsupported, Some(-1); }
      RawError(max, Clamp(pct, 0, 100));
      r, applied := WriteAndVerify(RawFor(max, pct), io);
    }

    /** bl_step. */
    method Step(delta: int, fixture: bool, io: Io) returns (r: Result, applied: Option<int>)
      modifies this`cur, this`actual, this`writable
      ensures old(cur) < 0 || max <= 0 ==> r == NoDevice && cur == old(cur)
      ensures old(cur) >= 0 && max > 0 && !suspect && !fixture ==>
                (r == Done <==> io.openable && io.written && io.back == RawFor(max, Clamp(Percent(max, old(cur)) + delta, 0, 100)))
      ensures r == Done ==> old(cur) >= 0 && max > 0 && cur == RawFor(max, Clamp(Percent(max, old(cur)) + delta, 0, 100))
      ensures r == Done && delta == 10 ==> cur == StepUp(max, old(cur)) && applied == Some(Percent(max, cur))
    {
      if cur < 0 || max <= 0 { return NoDevice, Some(-1); }
      r, applied := SetPercent(Clamp(Percent(max, cur) + delta, 0, 100), fixture, io);
    }

    /** A run of steps up, all verified, from a verified setting. */
    method StepsUp(p: int, ios: seq<Io>) returns (all: bool)
      requires max >= 100 && 0 <= p <= 100 && cur == RawFor(max, p)
      modifies this`cur, this`actual, this`writable
      ensures all ==> cur == RawFor(max, Reached(p, |ios|)) && Percent(max, cur) == Reached(p, |ios|)
    {
      all := true;
      assert Steps(max, cur, 0) == cur;
      for i := 0 to |ios|
        invariant all ==> cur == Steps(max, RawFor(max, p), i)
      {
        var r, applied := Step(10, false, ios[i]);
        if r != Done { all := false; }
      }
      StepsReach(max, p, |ios|);
      RoundTrip(max, Reached(p, |ios|));
    }
  }
}
