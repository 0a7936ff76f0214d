/** missing_ordered_stages (scripts/qemu-boot-test.py): greedy matching of boot stages in a log. */
module StageMatch {

  predicate OccursAt(text: string, stage: string, i: int) {
    0 <= i && i + |stage| <= |text| && text[i..i + |stage|] == stage
  }

  /** str.find from an offset: the first occurrence, -1 if there is none. */
  function Find(text: string, stage: string, offset: nat): (i: int)
    ensures i == -1 || (offset <= i && OccursAt(text, stage, i))
    ensures i == -1 ==> forall j :: offset <= j ==> !OccursAt(text, stage, j)
    ensures i != -1 ==> forall j :: offset <= j < i ==> !OccursAt(text, stage, j)
    decreases |text| - offset
  {
    if offset + |stage| > |text| then -1
    else if text[offset..offset + |stage|] == stage then offset
    else Find(text, stage, offset + 1)
  }

  /** The stages the greedy scan from an offset does not find. */
  function Missing(text: string, stages: seq<string>, offset: nat): seq<string>
    decreases |stages|
  {
    if stages == [] then [] else
      var found := Find(text, stages[0], offset);
      if found < 0 then [stages[0]] + Missing(text, stages[1..], offset)
      else Missing(text, stages[1..], found + |stages[0]|)
  }

  method MissingOrderedStages(text: string, stages: seq<string>) returns (missing: seq<string>)
    ensures missing == Missing(text, stages, 0)
    ensures missing == [] <==> exists at :: Placed(text, stages, at, 0)
  {
    missing := [];
    var offset: nat := 0;
    assert stages[0..] == stages;
    for k := 0 to |stages|
      invariant Missing(text, stages, 0) == missing + Missing(text, stages[k..], offset)
    {
      assert stages[k..][1..] == stages[k + 1..];
      var stage := stages[k];
      var found := Find(text, stage, offset);
      if found < 0 {
        missing := missing + [stage];
      } else {
        offset := found + |stage|;
      }
    }
    assert missing + [] == missing;
    CompleteMatch(text, stages);
  }

  /** The stages occur at these positions, in order, from an offset on and without overlap. */
  predicate Placed(text: string, stages: seq<string>, at: seq<nat>, offset: nat) {
    && |at| == |stages|
    && (forall k :: 0 <= k < |at| ==> OccursAt(text, stages[k], at[k]))
    && (|at| > 0 ==> offset <= at[0])
    && (forall k :: 0 < k < |at| ==> at[k - 1] + |stages[k - 1]| <= at[k])
  }

  /** Whatever placement exists, the greedy scan finds everything. */
  lemma {:induction false} GreedyFinds(text: string, stages: seq<string>, at: seq<nat>, offset: nat)
    requires Placed(text, stages, at, offset)
    ensures Missing(text, stages, offset) == []
    decreases |stages|
  {
    if stages != [] {
      var found := Find(text, stages[0], offset);
      assert OccursAt(text, stages[0], at[0]);
      assert found != -1 && found <= at[0];
      forall k | 0 <= k < |at[1..]| ensures OccursAt(text, stages[1..][k], at[1..][k]) {
        assert OccursAt(text, stages[k + 1], at[k + 1]);
      }
      GreedyFinds(text, stages[1..], at[1..], found + |stages[0]|);
    }
  }

  /** If the scan finds everything, its own positions are a placement. */
  lemma {:induction false} GreedyPlaces(text: string, stages: seq<string>, offset: nat) returns (at: seq<nat>)
    requires Missing(text, stages, offset) == []
    ensures Placed(text, stages, at, offset)
    decreases |stages|
  {
    if stages == [] {
      at := [];
    } else {
      var found := Find(text, stages[0], offset);
      var rest := GreedyPlaces(text, stages[1..], found + |stages[0]|);
      at := [found] + rest;
      forall k | 0 <= k < |at| ensures OccursAt(text, stages[k], at[k]) {
        if k > 0 { assert OccursAt(text, stages[1..][k - 1], rest[k - 1]); }
      }
      forall k | 0 < k < |at| ensures at[k - 1] + |stages[k - 1]| <= at[k] {
        if k > 1 { assert rest[k - 2] + |stages[1..][k - 2]| <= rest[k - 1]; }
      }
    }
  }

  /** Greedy matching is complete: nothing is missing exactly when the stages occur in order at
      positions that do not overlap. */
  lemma CompleteMatch(text: string, stages: seq<string>)
    ensures Missing(text, stages, 0) == [] <==> exists at :: Placed(text, stages, at, 0)
  {
    if Missing(text, stages, 0) == [] {
      var at := GreedyPlaces(text, stages, 0);
    }
    if at :| Placed(text, stages, at, 0) {
      GreedyFinds(text, stages, at, 0);
    }
  }

  /** A longer log never makes a satisfied list unsatisfied. */
  lemma ExtensionKeeps(text: string, more: string, stages: seq<string>)
    requires Missing(text, stages, 0) == []
    ensures Missing(text + more, stages, 0) == []
  {
    var at := GreedyPlaces(text, stages, 0);
    forall k | 0 <= k < |at| ensures OccursAt(text + more, stages[k], at[k]) {
      assert OccursAt(text, stages[k], at[k]);
      assert (text + more)[at[k]..at[k] + |stages[k]|] == text[at[k]..at[k] + |stages[k]|];
    }
    GreedyFinds(text + more, stages, at, 0);
  }

  // --------------------------------------------------- what a longer log can hide

  /** Which stages the scan from an offset finds. */
  function Flags(text: string, stages: seq<string>, offset: nat): (r: seq<bool>)
    ensures |r| == |stages|
    decreases |stages|
  {
    if stages == [] then [] else
      var found := Find(text, stages[0], offset);
      [found >= 0] + Flags(text, stages[1..], if found < 0 then offset else found + |stages[0]|)
  }

  /** No stage that was found is missing from the longer log. */
  predicate Kept(was: seq<bool>, now: seq<bool>)
    requires |was| == |now|
  {
    forall k :: 0 <= k < |was| && was[k] ==> now[k]
  }

  /** No stage with a text was found after one that is missing. */
  predicate Safe(flags: seq<bool>, stages: seq<string>)
    requires |flags| == |stages|
  {
    forall i, k :: 0 <= i < k < |flags| && !flags[i] && flags[k] ==> stages[k] == ""
  }

  /** Where the first occurrence was, it stays. */
  lemma FindExtended(text: string, more: string, stage: string, offset: nat)
    ensures Find(text, stage, offset) >= 0 ==> Find(text + more, stage, offset) == Find(text, stage, offset)
  {
    var f := Find(text, stage, offset);
    if f >= 0 {
      forall j | 0 <= j && j + |stage| <= |text| ensures OccursAt(text + more, stage, j) <==> OccursAt(text, stage, j) {
        assert (text + more)[j..j + |stage|] == text[j..j + |stage|];
      }
      assert OccursAt(text + more, stage, f);
    }
  }

  lemma {:induction false} EmptyFound(text: string, stages: seq<string>, offset: nat, k: nat)
    requires offset <= |text| && k < |stages| && stages[k] == ""
    ensures Flags(text, stages, offset)[k]
    decreases |stages|
  {
    var found := Find(text, stages[0], offset);
    if k == 0 {
      assert OccursAt(text, "", offset);
    } else {
      EmptyFound(text, stages[1..], if found < 0 then offset else found + |stages[0]|, k - 1);
    }
  }

  /** Safe logs keep what was found. */
  lemma {:induction false} SafeKeeps(text: string, more: string, stages: seq<string>, offset: nat)
    requires offset <= |text| && Safe(Flags(text, stages, offset), stages)
    ensures Kept(Flags(text, stages, offset), Flags(text + more, stages, offset))
    decreases |stages|
  {
    if stages != [] {
      var was, now := Flags(text, stages, offset), Flags(text + more, stages, offset);
      var found := Find(text, stages[0], offset);
      if found >= 0 {
        FindExtended(text, more, stages[0], offset);
        SafeTail(was, stages);
        SafeKeeps(text, more, stages[1..], found + |stages[0]|);
      } else {
        forall k | 0 <= k < |was| && was[k] ensures now[k] {
          assert !was[0] && 0 < k && stages[k] == "";
          EmptyFound(text + more, stages, offset, k);
        }
      }
    }
  }

  lemma SafeTail(flags: seq<bool>, stages: seq<string>)
    requires |flags| == |stages| && flags != [] && Safe(flags, stages)
    ensures Safe(flags[1..], stages[1..])
  {
  }

  lemma OccursShorter(text: string, n: nat, stage: string, f: int)
    requires n <= |text| && OccursAt(text, stage, f)
    ensures f + |stage| <= n ==> OccursAt(text[..n], stage, f)
  {
    if f + |stage| <= n { assert text[..n][f..f + |stage|] == text[f..f + |stage|]; }
  }

  /** The shortest part of a missing stage that completes an occurrence ends the longer log with it. */
  lemma Completion(text: string, stage: string, offset: nat, n: nat) returns (more: string)
    requires offset <= |text| && Find(text, stage, offset) < 0 && n <= |stage|
    requires Find(text + stage[..n], stage, offset) >= 0
    ensures Find(text + more, stage, offset) >= 0 && Find(text + more, stage, offset) + |stage| == |text + more|
    decreases n
  {
    more := stage[..n];
    assert text + stage[..0] == text;
    if n > 0 {
      var shorter := text + stage[..n - 1];
      if Find(shorter, stage, offset) >= 0 {
        more := Completion(text, stage, offset, n - 1);
      } else {
        assert (text + more)[..|shorter|] == shorter;
        OccursShorter(text + more, |shorter|, stage, Find(text + more, stage, offset));
      }
    }
  }

  /** From the end of a text nothing but empty stages is found. */
  lemma {:induction false} NothingAtEnd(text: string, stages: seq<string>, k: nat)
    requires k < |stages| && stages[k] != ""
    ensures !Flags(text, stages, |text|)[k]
    decreases |stages|
  {
    if k > 0 {
      var found := Find(text, stages[0], |text|);
      assert found >= 0 ==> found + |stages[0]| == |text|;
      NothingAtEnd(text, stages[1..], k - 1);
    }
  }

  /** If a stage was found after a missing one, some longer log loses a stage, and one text is missing
      more often than before. */
  lemma {:induction false} UnsafeLoses(text: string, stages: seq<string>, offset: nat) returns (more: string, u: string)
    requires offset <= |text| && !Safe(Flags(text, stages, offset), stages)
    ensures !Kept(Flags(text, stages, offset), Flags(text + more, stages, offset))
    ensures Times(Missing(text + more, stages, offset), u) > Times(Missing(text, stages, offset), u)
    decreases |stages|
  {
    hide *;
    SomeStage(Flags(text, stages, offset), stages);
    if Find(text, stages[0], offset) >= 0 {
      var next := UnsafeNext(text, stages, offset);
      more, u := UnsafeLoses(text, stages[1..], next);
      LostNext(text, more, stages, offset, next, u);
    } else {
      more, u := FirstLost(text, stages, offset);
    }
  }

  lemma SomeStage(flags: seq<bool>, stages: seq<string>)
    requires |flags| == |stages| && !Safe(flags, stages)
    ensures stages != []
  {
  }

  /** The first stage was found: the rest is unsafe from there. */
  lemma UnsafeNext(text: string, stages: seq<string>, offset: nat) returns (next: nat)
    requires stages != [] && Find(text, stages[0], offset) >= 0 && !Safe(Flags(text, stages, offset), stages)
    ensures next == Find(text, stages[0], offset) + |stages[0]| <= |text| && !Safe(Flags(text, stages[1..], next), stages[1..])
  {
    next := Find(text, stages[0], offset) + |stages[0]|;
    assert Flags(text, stages, offset)[0];
    FoundFirst(text, stages, offset);
    hide Flags, Find;
    UnsafeTail(Flags(text, stages, offset), stages);
  }

  lemma LostNext(text: string, more: string, stages: seq<string>, offset: nat, next: nat, u: string)
    requires stages != [] && Find(text, stages[0], offset) >= 0 && next == Find(text, stages[0], offset) + |stages[0]|
    requires !Kept(Flags(text, stages[1..], next), Flags(text + more, stages[1..], next))
    requires Times(Missing(text + more, stages[1..], next), u) > Times(Missing(text, stages[1..], next), u)
    ensures !Kept(Flags(text, stages, offset), Flags(text + more, stages, offset))
    ensures Times(Missing(text + more, stages, offset), u) > Times(Missing(text, stages, offset), u)
  {
    hide *;
    FindExtended(text, more, stages[0], offset);
    FoundFirst(text, stages, offset);
    FoundFirst(text + more, stages, offset);
    LostLater(Flags(text, stages, offset), Flags(text + more, stages, offset));
  }

  lemma FoundFirst(text: string, stages: seq<string>, offset: nat)
    requires stages != [] && Find(text, stages[0], offset) >= 0
    ensures var next := Find(text, stages[0], offset) + |stages[0]|;
            && Missing(text, stages, offset) == Missing(text, stages[1..], next)
            && Flags(text, stages, offset)[1..] == Flags(text, stages[1..], next) && |Flags(text, stages, offset)| == |stages|
  {
  }

  lemma UnsafeTail(flags: seq<bool>, stages: seq<string>)
    requires |flags| == |stages| && flags != [] && flags[0] && !Safe(flags, stages)
    ensures !Safe(flags[1..], stages[1..])
  {
    var i, k :| 0 <= i < k < |flags| && !flags[i] && flags[k] && stages[k] != "";
    assert !flags[1..][i - 1] && flags[1..][k - 1] && stages[1..][k - 1] != "";
  }

  lemma LostLater(was: seq<bool>, now: seq<bool>)
    requires |was| == |now| > 0 && !Kept(was[1..], now[1..])
    ensures !Kept(was, now)
  {
    var j :| 0 <= j < |was[1..]| && was[1..][j] && !now[1..][j];
    assert was[j + 1] && !now[j + 1];
  }

  /** The first stage is missing and a later one was found: the log that ends with the first stage. */
  lemma FirstLost(text: string, stages: seq<string>, offset: nat) returns (more: string, u: string)
    requires offset <= |text| && stages != [] && Find(text, stages[0], offset) < 0
    requires !Safe(Flags(text, stages, offset), stages)
    ensures !Kept(Flags(text, stages, offset), Flags(text + more, stages, offset))
    ensures Times(Missing(text + more, stages, offset), u) > Times(Missing(text, stages, offset), u)
  {
    var was, stage := Flags(text, stages, offset), stages[0];
    var i, k :| 0 <= i < k < |was| && !was[i] && was[k] && stages[k] != "";
    assert (text + stage)[|text|..|text| + |stage|] == stage;
    assert OccursAt(text + stage, stage, |text|) && stage[..|stage|] == stage;
    more := Completion(text, stage, offset, |stage|);
    u := stages[k];
    FoundOccurs(text, stages, offset, k);
    var now := Flags(text + more, stages, offset);
    forall j | 0 < j < |stages| && stages[j] == u ensures !now[j] { NothingAtEnd(text + more, stages[1..], j - 1); }
    MissingTimes(text, stages, offset, u);
    MissingTimes(text + more, stages, offset, u);
    LessOften(stages, now, was, u, k);
  }

  /** What was found occurs in the part that was searched. */
  lemma {:induction false} FoundOccurs(text: string, stages: seq<string>, offset: nat, k: nat)
    requires k < |stages| && Flags(text, stages, offset)[k]
    ensures exists j :: offset <= j && OccursAt(text, stages[k], j)
    decreases |stages|
  {
    var found := Find(text, stages[0], offset);
    if k == 0 {
      assert OccursAt(text, stages[0], found);
    } else {
      FoundOccurs(text, stages[1..], if found < 0 then offset else found + |stages[0]|, k - 1);
    }
  }

  /** How often a text is in a list. */
  function Times(list: seq<string>, u: string): nat {
    if list == [] then 0 else (if list[0] == u then 1 else 0) + Times(list[1..], u)
  }

  /** How often a stage with this text was not found. */
  function Unfound(stages: seq<string>, flags: seq<bool>, u: string): nat
    requires |flags| == |stages|
  {
    if stages == [] then 0
    else (if !flags[0] && stages[0] == u then 1 else 0) + Unfound(stages[1..], flags[1..], u)
  }

  lemma {:induction false} MissingTimes(text: string, stages: seq<string>, offset: nat, u: string)
    ensures Times(Missing(text, stages, offset), u) == Unfound(stages, Flags(text, stages, offset), u)
    decreases |stages|
  {
    if stages != [] {
      var found := Find(text, stages[0], offset);
      var next := if found < 0 then offset else found + |stages[0]|;
      MissingTimes(text, stages[1..], next, u);
      assert Flags(text, stages, offset)[1..] == Flags(text, stages[1..], next);
      if found < 0 { assert Missing(text, stages, offset)[1..] == Missing(text, stages[1..], offset); }
    }
  }

  /** Whatever keeps every stage of this text that was found does not miss it more often. */
  lemma {:induction false} NotMoreOften(stages: seq<string>, was: seq<bool>, now: seq<bool>, u: string)
    requires |stages| == |was| == |now| && forall j :: 0 <= j < |was| && stages[j] == u && was[j] ==> now[j]
    ensures Unfound(stages, now, u) <= Unfound(stages, was, u)
  {
    if stages != [] { NotMoreOften(stages[1..], was[1..], now[1..], u); }
  }

  lemma {:induction false} LessOften(stages: seq<string>, was: seq<bool>, now: seq<bool>, u: string, k: nat)
    requires |stages| == |was| == |now| && forall j :: 0 <= j < |was| && stages[j] == u && was[j] ==> now[j]
    requires k < |stages| && stages[k] == u && !was[k] && now[k]
    ensures Unfound(stages, now, u) < Unfound(stages, was, u)
  {
    if k > 0 {
      LessOften(stages[1..], was[1..], now[1..], u, k - 1);
    } else {
      NotMoreOften(stages[1..], was[1..], now[1..], u);
    }
  }

  /** No text is reported missing more often than before. */
  ghost predicate NoneLost(was: seq<string>, now: seq<string>) { forall u :: Times(now, u) <= Times(was, u) }

  /** Every longer log keeps every stage that was found, and so reports no stage missing more often,
      exactly if no stage with a text was found after a missing one. */
  lemma ExtensionKeepsExactly(text: string, stages: seq<string>)
    ensures (forall more :: Kept(Flags(text, stages, 0), Flags(text + more, stages, 0))) <==> Safe(Flags(text, stages, 0), stages)
    ensures (forall more :: NoneLost(Missing(text, stages, 0), Missing(text + more, stages, 0))) <==> Safe(Flags(text, stages, 0), stages)
  {
    if Safe(Flags(text, stages, 0), stages) {
      forall more
        ensures Kept(Flags(text, stages, 0), Flags(text + more, stages, 0))
        ensures NoneLost(Missing(text, stages, 0), Missing(text + more, stages, 0))
      {
        SafeKeeps(text, more, stages, 0);
        forall u ensures Times(Missing(text + more, stages, 0), u) <= Times(Missing(text, stages, 0), u) {
          MissingTimes(text, stages, 0, u);
          MissingTimes(text + more, stages, 0, u);
          NotMoreOften(stages, Flags(text, stages, 0), Flags(text + more, stages, 0), u);
        }
      }
    } else {
      var more, u := UnsafeLoses(text, stages, 0);
      assert !NoneLost(Missing(text, stages, 0), Missing(text + more, stages, 0));
    }
  }

  /** But an unsatisfied list can lose stages: a first stage that turns up last hides the others. */
  lemma ExtensionCanHide(a: char, b: char, c: char)
    requires a != b && a != c && b != c
    ensures var stages := [[a], [b], [c]];
            Missing([b, c], stages, 0) == [[a]] && Missing([b, c] + [a], stages, 0) == [[b], [c]]
  {
    var stages := [[a], [b], [c]];
    var t, u := [b, c], [b, c] + [a];
    assert stages[1..] == [[b], [c]] && stages[1..][1..] == [[c]];
    FindChar(t, a, 0, -1);
    FindChar(t, b, 0, 0);
    FindChar(t, c, 1, 1);
    FindChar(u, a, 0, 2);
    FindChar(u, b, 3, -1);
    FindChar(u, c, 3, -1);
    assert Missing(t, [[c]], 1) == [];
    assert Missing(t, [[b], [c]], 0) == [];
    assert Missing(u, [[c]], 3) == [[c]];
    assert Missing(u, [[b], [c]], 3) == [[b], [c]];
  }

  lemma OccursChar(text: string, x: char, j: int)
    ensures OccursAt(text, [x], j) <==> 0 <= j < |text| && text[j] == x
  {
    if 0 <= j < |text| { assert text[j..j + 1] == [text[j]]; }
  }

  lemma FindChar(text: string, x: char, offset: nat, i: int)
    requires i == -1 || (offset <= i < |text| && text[i] == x)
    requires forall j :: offset <= j < (if i == -1 then |text| else i) ==> text[j] != x
    ensures Find(text, [x], offset) == i
  {
    var f := Find(text, [x], offset);
    forall j ensures OccursAt(text, [x], j) <==> 0 <= j < |text| && text[j] == x { OccursChar(text, x, j); }
  }
}
