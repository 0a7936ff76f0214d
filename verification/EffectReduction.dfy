/** The responsiveness guard hw_mode_step (hardware/hwprobe.c): sustained slow frames lower
    the effects mode, one step at a time. */
module EffectReduction {
  import opened Numbers

  const MODE_STREAK := 30
  const MODE_LAST := 2

  /** One frame: the next mode, the next streak, and whether this frame reduced the mode. */
  function Stepped(mode: nat, streak: nat, slow: bool, pinned: bool): (nat, nat, bool) {
    var s := if slow then (if streak < 4 * MODE_STREAK then streak + 1 else streak)
             else if streak > 0 then streak - 1 else streak;
    if !pinned && s >= MODE_STREAK && mode < MODE_LAST then (mode + 1, 0, true) else (mode, s, false)
  }

  /** The state the caller owns. */
  class Governor {
    var mode: nat
    var streak: nat

    constructor (mode: nat)
      ensures this.mode == mode && streak == 0
    {
      this.mode := mode;
      streak := 0;
    }

    method Frame(slow: bool, pinned: bool) returns (reduced: bool)
      modifies this
      ensures (mode, streak, reduced) == Stepped(old(mode), old(streak), slow, pinned)
    {
      reduced := false;
      if slow {
        if streak < MODE_STREAK * 4 { streak := streak + 1; }
      } else if streak > 0 {
        streak := streak - 1;
      }
      if !pinned && streak >= MODE_STREAK && mode < MODE_LAST {
        mode := mode + 1;
        streak := 0;
        reduced := true;
      }
    }
  }

  // ------------------------------------------------------------ whole runs

  /** The guard after a run of frames; `since` is the index just after the last reduction. */
  datatype Run = Run(mode: nat, streak: nat, steps: nat, since: nat)

  function After(mode0: nat, frames: seq<bool>, pinned: bool): (r: Run)
    ensures r.since <= |frames|
  {
    if frames == [] then Run(mode0, 0, 0, 0)
    else
      var r := After(mode0, frames[..|frames| - 1], pinned);
      var (mode, streak, reduced) := Stepped(r.mode, r.streak, frames[|frames| - 1], pinned);
      if reduced then Run(mode, streak, r.steps + 1, |frames|) else Run(mode, streak, r.steps, r.since)
  }

  /** Slow frames minus fast frames. */
  function Score(frames: seq<bool>): int {
    if frames == [] then 0
    else Score(frames[..|frames| - 1]) + (if frames[|frames| - 1] then 1 else -1)
  }

  function Slow(frames: seq<bool>): nat {
    if frames == [] then 0
    else Slow(frames[..|frames| - 1]) + (if frames[|frames| - 1] then 1 else 0)
  }

  /** m is the greatest score of any suffix, the empty one included. */
  ghost predicate IsBestSuffix(frames: seq<bool>, m: int) {
    && (exists k :: 0 <= k <= |frames| && Score(frames[k..]) == m)
    && (forall k :: 0 <= k <= |frames| ==> Score(frames[k..]) <= m)
  }

  lemma ScoreAppend(frames: seq<bool>, b: bool, k: nat)
    requires k <= |frames|
    ensures Score((frames + [b])[k..]) == Score(frames[k..]) + (if b then 1 else -1)
  {
    var f := (frames + [b])[k..];
    assert f[..|f| - 1] == frames[k..];
  }

  /** The clipped running sum computes the best suffix. */
  lemma BestSuffixStep(frames: seq<bool>, m: int, b: bool)
    requires IsBestSuffix(frames, m)
    ensures IsBestSuffix(frames + [b], if b then m + 1 else Max(m - 1, 0))
  {
    var f := frames + [b];
    var m' := if b then m + 1 else Max(m - 1, 0);
    assert f[|f|..] == [] && frames[|frames|..] == [];
    assert Score(frames[|frames|..]) <= m;
    forall k | 0 <= k <= |f| ensures Score(f[k..]) <= m' {
      if k <= |frames| { ScoreAppend(frames, b, k); }
    }
    var k :| 0 <= k <= |frames| && Score(frames[k..]) == m;
    ScoreAppend(frames, b, k);
    if b || m >= 1 {
      assert Score(f[k..]) == m';
    } else {
      assert Score(f[|f|..]) == m';
    }
  }

  /** The same for the part of the frames from an index on. */
  lemma BestSuffixKept(frames: seq<bool>, since: nat, m: int, b: bool)
    requires since <= |frames| && IsBestSuffix(frames[since..], m)
    ensures IsBestSuffix((frames + [b])[since..], if b then m + 1 else Max(m - 1, 0))
  {
    BestSuffixStep(frames[since..], m, b);
    assert (frames + [b])[since..] == frames[since..] + [b];
  }

  lemma BestOfNothing(frames: seq<bool>)
    requires frames == []
    ensures IsBestSuffix(frames, 0)
  {
    assert frames[0..] == [] && Score(frames[0..]) == 0;
  }

  lemma BestIsUnique(frames: seq<bool>, m: int, m': int)
    requires IsBestSuffix(frames, m) && IsBestSuffix(frames, m')
    ensures m == m'
  {
    var k :| 0 <= k <= |frames| && Score(frames[k..]) == m;
    var k' :| 0 <= k' <= |frames| && Score(frames[k'..]) == m';
  }

  lemma AfterAppend(mode0: nat, frames: seq<bool>, b: bool)
    ensures var q, r := After(mode0, frames, false), After(mode0, frames + [b], false);
            var (mode, streak, reduced) := Stepped(q.mode, q.streak, b, false);
            r == if reduced then Run(mode, streak, q.steps + 1, |frames| + 1) else Run(mode, streak, q.steps, q.since)
  {
    assert (frames + [b])[..|frames|] == frames;
  }

  /** While unpinned and above PERFORMANCE, the streak is the best suffix of the frames since
      the last reduction and has not reached the threshold. */
  lemma {:induction false} StreakIsBestSuffix(mode0: nat, frames: seq<bool>)
    ensures var r := After(mode0, frames, false);
            r.mode < MODE_LAST ==> r.streak < MODE_STREAK && IsBestSuffix(frames[r.since..], r.streak)
  {
    if frames == [] {
      BestOfNothing(frames[0..]);
    } else {
      var init, b := frames[..|frames| - 1], frames[|frames| - 1];
      assert frames == init + [b];
      StreakIsBestSuffix(mode0, init);
      AfterAppend(mode0, init, b);
      var q := After(mode0, init, false);
      if q.mode < MODE_LAST { BestSuffixKept(init, q.since, q.streak, b); }
      BestOfNothing(frames[|frames|..]);
    }
  }

  /** The next frame reduces the mode exactly when it brings the best suffix of the frames
      since the last reduction to the threshold; no earlier frame of that stretch did. */
  lemma ReducesAtThreshold(mode0: nat, frames: seq<bool>, b: bool)
    requires After(mode0, frames, false).mode < MODE_LAST
    ensures var r := After(mode0, frames, false);
            var all := frames + [b];
            && (After(mode0, all, false).steps == r.steps + 1 <==> IsBestSuffix(all[r.since..], MODE_STREAK))
            && (After(mode0, all, false).steps == r.steps <==>
                  exists m :: m < MODE_STREAK && IsBestSuffix(all[r.since..], m))
  {
    var r := After(mode0, frames, false);
    var stretch := (frames + [b])[r.since..];
    StreakIsBestSuffix(mode0, frames);
    AfterAppend(mode0, frames, b);
    BestSuffixKept(frames, r.since, r.streak, b);
    var m := if b then r.streak + 1 else Max(r.streak - 1, 0);
    forall n | IsBestSuffix(stretch, n) ensures n == m { BestIsUnique(stretch, n, m); }
  }

  lemma {:induction false} SlowSplit(frames: seq<bool>, k: nat)
    requires k <= |frames|
    ensures Slow(frames) == Slow(frames[..k]) + Slow(frames[k..])
  {
    if k == |frames| {
      assert frames[..k] == frames;
    } else {
      var n := |frames| - 1;
      SlowSplit(frames[..n], k);
      assert frames[..n][..k] == frames[..k];
      assert frames[..n][k..] == frames[k..][..n - k];
    }
  }

  lemma ScoreBelowSlow(frames: seq<bool>)
    ensures Score(frames) <= Slow(frames)
  {
  }

  /** Each reduction costs at least MODE_STREAK slow frames of its own; the mode only moves
      down the ladder, so from mode0 at most MODE_LAST - mode0 reductions happen. */
  lemma {:induction false} ReductionsAreRare(mode0: nat, frames: seq<bool>)
    requires mode0 <= MODE_LAST
    ensures var r := After(mode0, frames, false);
            && Slow(frames[..r.since]) >= MODE_STREAK * r.steps
            && Slow(frames) >= MODE_STREAK * r.steps
            && r.mode == mode0 + r.steps <= MODE_LAST
  {
    if frames != [] {
      var n := |frames| - 1;
      var init := frames[..n];
      ReductionsAreRare(mode0, init);
      var q, r := After(mode0, init, false), After(mode0, frames, false);
      assert frames[..q.since] == init[..q.since];
      if r.since != q.since || r.steps != q.steps {
        ReducesAtThreshold(mode0, init, frames[n]);
        assert init + [frames[n]] == frames;
        var stretch := frames[q.since..];
        var k :| 0 <= k <= |stretch| && Score(stretch[k..]) == MODE_STREAK;
        ScoreBelowSlow(stretch[k..]);
        SlowSplit(stretch, k);
        SlowSplit(frames, q.since);
        assert frames[..|frames|] == frames;
      } else {
        SlowSplit(frames, r.since);
      }
    }
  }

  /** The mode never moves back, and a pinned mode never moves at all. */
  lemma {:induction false} ModeIsMonotone(mode0: nat, frames: seq<bool>, more: seq<bool>, pinned: bool)
    ensures After(mode0, frames, pinned).mode <= After(mode0, frames + more, pinned).mode
    ensures pinned ==> After(mode0, frames + more, pinned).mode == mode0
    decreases |frames| + |more|
  {
    if more == [] {
      assert frames + more == frames;
      if frames != [] {
        var init := frames[..|frames| - 1];
        ModeIsMonotone(mode0, init, [], pinned);
        assert init + [] == init;
      }
    } else {
      var n := |more| - 1;
      ModeIsMonotone(mode0, frames, more[..n], pinned);
      assert (frames + more)[..|frames + more| - 1] == frames + more[..n];
    }
  }
}
