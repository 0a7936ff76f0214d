/** requires_ok, pick_named and the component loop of drv_plan_resolve (hardware/driver.c):
    which release of a component is the newest one this machine can use. */
module DriverChoice {
  import opened Wrappers
  import opened Versions

  /** What a requirement term names; anything else cannot be checked. */
  datatype Subject = Kernel | Mesa | Ucode | Unobservable

  /** The operator as written; what the code does not recognise never holds. */
  datatype Relation = AtLeast | Above | AtMost | Below | Same | Differs | Unrecognised

  datatype Need = Need(subject: Subject, relation: Relation, want: string)

  datatype Status = Stable | Testing | Broken | InKernel

  datatype Release = Release(
    name: string, version: string, status: Status, targets: seq<string>, needs: seq<Need>)

  /** ids are the target expressions this machine answers to; "" is an unknown version. */
  datatype Machine = Machine(kernel: string, mesa: string, ids: set<string>)

  /** Why a release appears in the report of what was passed over. */
  datatype Ground = WasBroken | MarkedTesting | Unmet

  datatype Remark = Remark(index: nat, ground: Ground)

  // -------------------------------------------------------------- requirements

  function Have(s: Subject, m: Machine): string {
    match s
    case Kernel => m.kernel
    case Mesa => m.mesa
    case _ => ""
  }

  predicate Related(r: Relation, c: int) {
    match r
    case AtLeast => c >= 0
    case Above => c > 0
    case AtMost => c <= 0
    case Below => c < 0
    case Same => c == 0
    case Differs => c != 0
    case Unrecognised => false
  }

  /** The machine cannot say which version it has: not evidence against the release. */
  predicate Unconfirmed(n: Need, m: Machine) { n.subject != Unobservable && Have(n.subject, m) == "" }

  predicate Holds(n: Need, m: Machine) {
    && n.subject != Unobservable
    && (Have(n.subject, m) == "" || Related(n.relation, Cmp(Have(n.subject, m), n.want)))
  }

  predicate Satisfied(needs: seq<Need>, m: Machine) {
    forall i :: 0 <= i < |needs| ==> Holds(needs[i], m)
  }

  lemma MoreNeeds(needs: seq<Need>, m: Machine, i: nat)
    requires i < |needs| && Satisfied(needs[..i], m)
    ensures Satisfied(needs[..i + 1], m) <==> Holds(needs[i], m)
    ensures LastUnconfirmed(needs[..i + 1], m) == if Unconfirmed(needs[i], m) then Some(needs[i]) else LastUnconfirmed(needs[..i], m)
    ensures Satisfied(needs, m) ==> Holds(needs[i], m)
  {
    assert needs[..i + 1][..i] == needs[..i];
    hide Holds, Unconfirmed;
  }

  /** requires_ok: every term holds. The note kept is the last one that could not be confirmed. */
  method RequiresOk(needs: seq<Need>, m: Machine) returns (ok: bool, note: Option<Need>)
    ensures ok == Satisfied(needs, m)
    ensures ok ==> note == LastUnconfirmed(needs, m)
  {
    note := None;
    for i := 0 to |needs|
      invariant Satisfied(needs[..i], m)
      invariant note == LastUnconfirmed(needs[..i], m)
    {
      var n := needs[i];
      MoreNeeds(needs, m, i);
      hide Satisfied, LastUnconfirmed;
      if n.subject == Unobservable { return false, note; }
      var have := Have(n.subject, m);
      if have == "" {
        note := Some(n);
      } else {
        var c := VersionCmp(have, n.want);
        if !Related(n.relation, c) { return false, note; }
      }
    }
    assert needs[..|needs|] == needs;
    return true, note;
  }

  // ------------------------------------------------- what the operators mean

  /** The relation between component values that an operator stands for. */
  ghost predicate Meets(have: seq<nat>, r: Relation, want: seq<nat>) {
    match r
    case AtLeast => have == want || Earlier(want, have)
    case Above => Earlier(want, have)
    case AtMost => have == want || Earlier(have, want)
    case Below => Earlier(have, want)
    case Same => have == want
    case Differs => have != want
    case Unrecognised => false
  }

  /** The term asks for a dotted version of something whose dotted version is known. */
  predicate Known(n: Need, m: Machine, have: seq<string>, want: seq<string>) {
    && Components(have) && Components(want) && n.want == Dotted(want)
    && ((n.subject == Kernel && m.kernel == Dotted(have)) || (n.subject == Mesa && m.mesa == Dotted(have)))
  }

  /** The machine's version and the one asked for are so related. */
  ghost predicate Fulfilled(n: Need, have: seq<string>, want: seq<string>) {
    Components(have) && Components(want) && Meets(Values(have), n.relation, Values(want))
  }

  lemma OperatorMeans(n: Need, m: Machine, have: seq<string>, want: seq<string>)
    requires Known(n, m, have, want)
    ensures Holds(n, m) <==> Fulfilled(n, have, want)
  {
    DottedOrder(have, want);
    DottedHead(have);
    LexMeans(Values(have), Values(want));
  }

  /** For every list of such terms, what requires_ok decides is that each relation holds between the
      machine's version and the one asked for. */
  lemma RequiresMeans(needs: seq<Need>, m: Machine, haves: seq<seq<string>>, wants: seq<seq<string>>)
    requires |needs| == |haves| == |wants| && forall i :: 0 <= i < |needs| ==> Known(needs[i], m, haves[i], wants[i])
    ensures Satisfied(needs, m) <==> forall i :: 0 <= i < |needs| ==> Fulfilled(needs[i], haves[i], wants[i])
  {
    forall i | 0 <= i < |needs| ensures Holds(needs[i], m) <==> Fulfilled(needs[i], haves[i], wants[i]) {
      OperatorMeans(needs[i], m, haves[i], wants[i]);
    }
  }

  /** The operators come in complementary pairs for every known version of any form, and one that is not
      recognised never holds; an unknown version meets everything, and what cannot be observed nothing. */
  lemma OperatorsPair(subject: Subject, want: string, m: Machine)
    ensures var holds := (r: Relation) => Holds(Need(subject, r, want), m);
            if subject == Unobservable then forall r :: !holds(r)
            else if Have(subject, m) == "" then forall r :: holds(r)
            else
              && (holds(AtLeast) <==> !holds(Below)) && (holds(AtMost) <==> !holds(Above)) && (holds(Same) <==> !holds(Differs))
              && (holds(Same) <==> holds(AtLeast) && holds(AtMost)) && !holds(Unrecognised)
  {
  }

  /** An upgrade never breaks a lower bound, nor a downgrade an upper one. */
  lemma LaterMeets(n: Need, m: Machine, m': Machine, have: seq<string>, have': seq<string>, want: seq<string>)
    requires Known(n, m, have, want) && Known(n, m', have', want) && Holds(n, m)
    requires match n.relation
             case AtLeast | Above => Earlier(Values(have), Values(have'))
             case AtMost | Below => Earlier(Values(have'), Values(have))
             case _ => false
    ensures Holds(n, m')
  {
    var v, v', w := Values(have), Values(have'), Values(want);
    OperatorMeans(n, m, have, want);
    OperatorMeans(n, m', have', want);
    LexMeans(v, v');
    LexMeans(v', v);
    LexMeans(v, w);
    LexMeans(w, v);
    LexMeans(v', w);
    LexMeans(w, v');
    hide Lex, Earlier;
    if n.relation == AtLeast || n.relation == Above { LexTransitive(w, v, v'); } else { LexTransitive(v', v, w); }
  }

  function LastUnconfirmed(needs: seq<Need>, m: Machine): Option<Need> {
    if needs == [] then None
    else if Unconfirmed(needs[|needs| - 1], m) then Some(needs[|needs| - 1])
    else LastUnconfirmed(needs[..|needs| - 1], m)
  }

  /** Every term of the requirement could be checked. */
  predicate Confirmed(needs: seq<Need>, m: Machine) {
    forall i :: 0 <= i < |needs| ==> !Unconfirmed(needs[i], m)
  }

  /** There is a note exactly when some term could not be confirmed, and it names such a term. */
  lemma {:induction false} NoteIsUnconfirmed(needs: seq<Need>, m: Machine)
    ensures var r := LastUnconfirmed(needs, m);
            (r.None? <==> Confirmed(needs, m)) && (r.Some? ==> r.value in needs && Unconfirmed(r.value, m))
  {
    if needs != [] {
      var before := needs[..|needs| - 1];
      NoteIsUnconfirmed(before, m);
      assert forall i :: 0 <= i < |before| ==> before[i] == needs[i];
    }
  }

  // ------------------------------------------------------------------ choice

  /** package_applies. */
  predicate Applies(p: Release, m: Machine) {
    exists i :: 0 <= i < |p.targets| && p.targets[i] in m.ids
  }

  predicate Concerns(p: Release, m: Machine, name: string) { p.name == name && Applies(p, m) }

  /** The releases that may be chosen. A testing release is among them. */
  predicate Eligible(p: Release, m: Machine, name: string) {
    Concerns(p, m, name) && p.status != Broken && Satisfied(p.needs, m)
  }

  /** Entry i takes over from the best one so far. */
  predicate Leads(cat: seq<Release>, m: Machine, name: string, before: Option<nat>, i: nat)
    requires i < |cat| && (before.Some? ==> before.value < i)
  {
    Eligible(cat[i], m, name) && (before.None? || Cmp(cat[i].version, cat[before.value].version) > 0)
  }

  /** The running best over the first n catalog entries. */
  function Best(cat: seq<Release>, m: Machine, name: string, n: nat): (r: Option<nat>)
    requires n <= |cat|
    ensures r.Some? ==> r.value < n
  {
    if n == 0 then None else
      var before := Best(cat, m, name, n - 1);
      if Leads(cat, m, name, before, n - 1) then Some(n - 1) else before
  }

  /** There is a choice exactly when some release is eligible, and then it is eligible. */
  lemma {:induction false} ChoiceExists(cat: seq<Release>, m: Machine, name: string, n: nat)
    requires n <= |cat|
    ensures var r := Best(cat, m, name, n);
            && (r.None? <==> forall i :: 0 <= i < n ==> !Eligible(cat[i], m, name))
            && (r.Some? ==> Eligible(cat[r.value], m, name))
  {
    if n > 0 { ChoiceExists(cat, m, name, n - 1); }
  }

  /** The pick keeps to the requirements: what is chosen has every relation it asks for, and a release for
      the machine is passed over as unsuitable exactly if it is broken or lacks one. */
  lemma PickMeets(cat: seq<Release>, m: Machine, name: string, i: nat, haves: seq<seq<string>>, wants: seq<seq<string>>)
    requires i < |cat| && |cat[i].needs| == |haves| == |wants|
    requires forall k :: 0 <= k < |haves| ==> Known(cat[i].needs[k], m, haves[k], wants[k])
    ensures
      var meets := forall k :: 0 <= k < |haves| ==> Fulfilled(cat[i].needs[k], haves[k], wants[k]);
      && (Eligible(cat[i], m, name) <==> Concerns(cat[i], m, name) && cat[i].status != Broken && meets)
      && (Best(cat, m, name, |cat|) == Some(i) ==> meets)
  {
    RequiresMeans(cat[i].needs, m, haves, wants);
    ChoiceExists(cat, m, name, |cat|);
    hide Fulfilled, Known, Satisfied, Concerns;
  }

  /** Which remark each entry earns in the report. */
  predicate Earns(cat: seq<Release>, m: Machine, name: string, i: int, g: Ground) {
    && 0 <= i < |cat| && Concerns(cat[i], m, name)
    && match g
       case WasBroken => cat[i].status == Broken
       case MarkedTesting => cat[i].status == Testing
       case Unmet => cat[i].status != Broken && !Satisfied(cat[i].needs, m)
  }

  ghost predicate Reported(cat: seq<Release>, m: Machine, name: string, n: nat, rejected: seq<Remark>)
    requires n <= |cat|
  {
    forall i: nat, g: Ground :: Remark(i, g) in rejected <==> i < n && Earns(cat, m, name, i, g)
  }

  /** The loop's target scan. */
  method PackageApplies(p: Release, m: Machine) returns (r: bool)
    ensures r == Applies(p, m)
  {
    for i := 0 to |p.targets|
      invariant forall k :: 0 <= k < i ==> p.targets[k] !in m.ids
    {
      if p.targets[i] in m.ids { return true; }
    }
    return false;
  }

  /** pick_named: the chosen entry, what was passed over and the caveat kept beside the choice. */
  method PickNamed(cat: seq<Release>, m: Machine, name: string)
    returns (best: Option<nat>, rejected: seq<Remark>, caveat: Option<Need>)
    ensures best == Best(cat, m, name, |cat|)
    ensures Reported(cat, m, name, |cat|, rejected)
    ensures caveat == Caveat(cat, m, name, |cat|)
  {
    best, rejected, caveat := None, [], None;
    for i := 0 to |cat|
      invariant best == Best(cat, m, name, i)
      invariant Reported(cat, m, name, i, rejected)
      invariant caveat == Caveat(cat, m, name, i)
    {
      var p := cat[i];
      if p.name != name { continue; }
      var applies := PackageApplies(p, m);
      if !applies { continue; }
      if p.status == Broken {
        rejected := rejected + [Remark(i, WasBroken)];
        continue;
      }
      if p.status == Testing {
        rejected := rejected + [Remark(i, MarkedTesting)];
      }
      var ok, note := RequiresOk(p.needs, m);
      if !ok {
        rejected := rejected + [Remark(i, Unmet)];
        continue;
      }
      var c := 1;
      if best.Some? { c := VersionCmp(p.version, cat[best.value].version); }
      if best.None? || c > 0 {
        best := Some(i);
        if note.Some? { caveat := note; }
      }
    }
  }

  /** The caveat kept: the note of the last entry that became best and had one. */
  function Caveat(cat: seq<Release>, m: Machine, name: string, n: nat): Option<Need>
    requires n <= |cat|
  {
    if n == 0 then None else
      var note := LastUnconfirmed(cat[n - 1].needs, m);
      if Best(cat, m, name, n) == Some(n - 1) && note.Some? then note else Caveat(cat, m, name, n - 1)
  }

  /** Entry i became the best one when the loop reached it. */
  predicate Led(cat: seq<Release>, m: Machine, name: string, i: int) {
    0 <= i < |cat| && Best(cat, m, name, i + 1) == Some(i)
  }

  /** The caveat speaks of the chosen release exactly when that release has something unconfirmed
      or no entry that led before it had; otherwise it is left over from a superseded one. */
  lemma {:induction false} CaveatIsOfTheChoice(cat: seq<Release>, m: Machine, name: string, n: nat, b: nat)
    requires n <= |cat| && Best(cat, m, name, n) == Some(b)
    ensures Caveat(cat, m, name, n) == Caveat(cat, m, name, b + 1) && Led(cat, m, name, b)
    ensures
      !Confirmed(cat[b].needs, m) ==>
        var c := Caveat(cat, m, name, n);
        c.Some? && c == LastUnconfirmed(cat[b].needs, m) && c.value in cat[b].needs && Unconfirmed(c.value, m)
    ensures
      Confirmed(cat[b].needs, m) ==>
        (Caveat(cat, m, name, n).None? <==>
         forall i :: 0 <= i < b && Led(cat, m, name, i) ==> Confirmed(cat[i].needs, m))
  {
    if n - 1 != b {
      CaveatIsOfTheChoice(cat, m, name, n - 1, b);
    } else {
      CaveatSilent(cat, m, name, b);
      NoteIsUnconfirmed(cat[b].needs, m);
      hide LastUnconfirmed, Confirmed, Unconfirmed, Led;
    }
  }

  lemma TwoAfterOne()
    ensures Cmp("2", "1") > 0
  {
    DottedOrder(["2"], ["1"]);
    assert Decimal("2") == 2 && Decimal("1") == 1;
  }

  /** Such a caveat: the first release, with a term nobody can check, is superseded by a newer one
      without requirements, and the caveat shown beside that one is the term of the first. */
  lemma CaveatOfAnother(m: Machine, name: string, id: string, need: Need)
    requires id in m.ids && Unconfirmed(need, m)
    ensures var cat := [Release(name, "1", Stable, [id], [need]), Release(name, "2", Stable, [id], [])];
            Best(cat, m, name, 2) == Some(1) && Caveat(cat, m, name, 2) == Some(need)
  {
    var cat := [Release(name, "1", Stable, [id], [need]), Release(name, "2", Stable, [id], [])];
    assert cat[0].targets[0] in m.ids && cat[1].targets[0] in m.ids;
    TwoAfterOne();
    BestStep(cat, m, name, 1);
    BestStep(cat, m, name, 2);
  }

  lemma {:induction false} CaveatSilent(cat: seq<Release>, m: Machine, name: string, n: nat)
    requires n <= |cat|
    ensures Caveat(cat, m, name, n).None? <==>
            forall i :: 0 <= i < n && Led(cat, m, name, i) ==> Confirmed(cat[i].needs, m)
  {
    if n > 0 {
      CaveatSilent(cat, m, name, n - 1);
      assert Led(cat, m, name, n - 1) <==> Best(cat, m, name, n) == Some(n - 1);
      NoteIsUnconfirmed(cat[n - 1].needs, m);
      hide LastUnconfirmed, Confirmed, Unconfirmed, Led, Best;
    }
  }

  /** Every release that concerns the machine and is not eligible has its reason in the report, and
      the chosen one is reported as "not selected" exactly when it is a testing release. */
  lemma PassedOverIsExplained(cat: seq<Release>, m: Machine, name: string, rejected: seq<Remark>, i: nat)
    requires i < |cat| && Concerns(cat[i], m, name) && Reported(cat, m, name, |cat|, rejected)
    ensures !Eligible(cat[i], m, name) <==> Remark(i, WasBroken) in rejected || Remark(i, Unmet) in rejected
    ensures Best(cat, m, name, |cat|) == Some(i) ==>
              (Remark(i, MarkedTesting) in rejected <==> cat[i].status == Testing)
  {
    assert Earns(cat, m, name, i, WasBroken) <==> Remark(i, WasBroken) in rejected;
    assert Earns(cat, m, name, i, Unmet) <==> Remark(i, Unmet) in rejected;
    assert Earns(cat, m, name, i, MarkedTesting) <==> Remark(i, MarkedTesting) in rejected;
  }

  // --------------------------------------------------- newest for every catalog

  /** Entry b is the earliest of the greatest eligible versions among the first n. */
  predicate Newest(cat: seq<Release>, m: Machine, name: string, n: nat, b: nat)
    requires b < |cat| && n <= |cat|
  {
    forall j :: 0 <= j < n && Eligible(cat[j], m, name) ==>
      Cmp(cat[j].version, cat[b].version) <= 0 && (j < b ==> Cmp(cat[j].version, cat[b].version) < 0)
  }

  /** The choice is the earliest entry of the greatest eligible version, if any is eligible. */
  predicate PicksNewest(cat: seq<Release>, m: Machine, name: string) {
    var r := Best(cat, m, name, |cat|);
    r.Some? ==> Newest(cat, m, name, |cat|, r.value)
  }

  /** Whatever is no later than b comes before everything after b. */
  ghost predicate Consistent(S: iset<string>) {
    forall x, b, c :: x in S && b in S && c in S && Cmp(x, b) <= 0 && Cmp(b, c) < 0 ==> Cmp(x, c) < 0
  }

  predicate CatalogOver(cat: seq<Release>, S: iset<string>) {
    |cat| <= 64 && forall i :: 0 <= i < |cat| ==> cat[i].version in S
  }

  lemma Overtaken(S: iset<string>, x: string, b: string, c: string)
    requires Consistent(S) && x in S && b in S && c in S && Cmp(x, b) <= 0 && Cmp(c, b) > 0
    ensures Cmp(x, c) < 0
  {
    CmpAntisymmetric(c, b);
  }

  lemma CmpSelf(v: string)
    ensures Cmp(v, v) == 0
  {
    CmpAntisymmetric(v, v);
  }

  predicate NewestSoFar(cat: seq<Release>, m: Machine, name: string, n: nat, r: Option<nat>)
    requires n <= |cat| && (r.Some? ==> r.value < n)
  {
    match r
    case None => forall j :: 0 <= j < n ==> !Eligible(cat[j], m, name)
    case Some(b) => Newest(cat, m, name, n, b)
  }

  lemma NewLeader(cat: seq<Release>, m: Machine, name: string, S: iset<string>, n: nat, before: Option<nat>)
    requires n < |cat| && Consistent(S) && (forall i :: 0 <= i < |cat| ==> cat[i].version in S)
    requires before.Some? ==> before.value < n
    requires NewestSoFar(cat, m, name, n, before) && Leads(cat, m, name, before, n)
    ensures NewestSoFar(cat, m, name, n + 1, Some(n))
  {
    CmpSelf(cat[n].version);
    if before.Some? {
      forall j | 0 <= j < n && Eligible(cat[j], m, name) ensures Cmp(cat[j].version, cat[n].version) < 0 {
        Overtaken(S, cat[j].version, cat[before.value].version, cat[n].version);
      }
    }
  }

  lemma SameLeader(cat: seq<Release>, m: Machine, name: string, n: nat, before: Option<nat>)
    requires n < |cat| && (before.Some? ==> before.value < n)
    requires NewestSoFar(cat, m, name, n, before) && !Leads(cat, m, name, before, n)
    ensures NewestSoFar(cat, m, name, n + 1, before)
  {
  }

  lemma BestStep(cat: seq<Release>, m: Machine, name: string, n: nat)
    requires 0 < n <= |cat|
    ensures var before := Best(cat, m, name, n - 1);
            && (before.Some? ==> before.value < n - 1)
            && Best(cat, m, name, n) == if Leads(cat, m, name, before, n - 1) then Some(n - 1) else before
  {
    hide Leads;
  }

  lemma NoneYet(cat: seq<Release>, m: Machine, name: string)
    ensures Best(cat, m, name, 0) == None && NewestSoFar(cat, m, name, 0, None)
  {
  }

  lemma {:induction false} BestIsNewest(cat: seq<Release>, m: Machine, name: string, S: iset<string>, n: nat)
    requires n <= |cat| && Consistent(S) && forall i :: 0 <= i < |cat| ==> cat[i].version in S
    ensures NewestSoFar(cat, m, name, n, Best(cat, m, name, n))
  {
    hide *;
    if n == 0 {
      NoneYet(cat, m, name);
    } else {
      var before := Best(cat, m, name, n - 1);
      BestStep(cat, m, name, n);
      BestIsNewest(cat, m, name, S, n - 1);
      if Leads(cat, m, name, before, n - 1) {
        NewLeader(cat, m, name, S, n - 1, before);
      } else {
        SameLeader(cat, m, name, n - 1, before);
      }
    }
  }

  function Plain(name: string, version: string, id: string): Release {
    Release(name, version, Stable, [id], [])
  }

  /** Three entries in which the loop ends on the last one. */
  lemma LastOfThree(m: Machine, name: string, id: string, x: string, b: string, c: string)
    requires id in m.ids && Cmp(x, b) <= 0 && Cmp(b, c) < 0
    ensures var cat := [Plain(name, b, id), Plain(name, x, id), Plain(name, c, id)];
            Best(cat, m, name, 3) == Some(2) && (PicksNewest(cat, m, name) ==> Cmp(x, c) < 0)
  {
    var cat := [Plain(name, b, id), Plain(name, x, id), Plain(name, c, id)];
    CmpAntisymmetric(b, c);
    forall i | 0 <= i < 3 ensures Eligible(cat[i], m, name) {
      assert cat[i].targets[0] in m.ids;
    }
    assert Best(cat, m, name, 0) == None;
    assert Best(cat, m, name, 1) == Some(0);
    assert Best(cat, m, name, 2) == Some(0);
  }

  /** The choice is the newest release for every catalog over a set of versions exactly when the
      comparison is consistent on that set. */
  lemma NewestForEveryCatalog(S: iset<string>, m: Machine, name: string, id: string)
    requires id in m.ids
    ensures (forall cat :: CatalogOver(cat, S) ==> PicksNewest(cat, m, name)) <==> Consistent(S)
  {
    if Consistent(S) {
      forall cat | CatalogOver(cat, S) ensures PicksNewest(cat, m, name) {
        BestIsNewest(cat, m, name, S, |cat|);
      }
    } else {
      var cat := InconsistentCatalog(S, m, name, id);
      assert CatalogOver(cat, S);
    }
  }

  lemma InconsistentCatalog(S: iset<string>, m: Machine, name: string, id: string) returns (cat: seq<Release>)
    requires id in m.ids && !Consistent(S)
    ensures CatalogOver(cat, S) && !PicksNewest(cat, m, name)
  {
    var x, b, c :| x in S && b in S && c in S && Cmp(x, b) <= 0 && Cmp(b, c) < 0 && !(Cmp(x, c) < 0);
    cat := [Plain(name, b, id), Plain(name, x, id), Plain(name, c, id)];
    LastOfThree(m, name, id, x, b, c);
  }

  ghost predicate DottedVersion(v: string) { exists parts :: Components(parts) && v == Dotted(parts) }

  /** The documented catalogs, plain dotted versions, are consistent. */
  lemma DottedConsistent(S: iset<string>)
    requires forall v :: v in S ==> DottedVersion(v)
    ensures Consistent(S)
  {
    forall x, b, c | x in S && b in S && c in S && Cmp(x, b) <= 0 && Cmp(b, c) < 0 ensures Cmp(x, c) < 0 {
      var p :| Components(p) && x == Dotted(p);
      var q :| Components(q) && b == Dotted(q);
      var r :| Components(r) && c == Dotted(r);
      DottedOrder(p, q);
      DottedOrder(q, r);
      DottedOrder(p, r);
      LexTransitive(Values(p), Values(q), Values(r));
    }
  }

  /** For plain dotted catalogs the choice is the earliest entry of the greatest usable version. */
  lemma DottedPick(cat: seq<Release>, m: Machine, name: string)
    requires forall i :: 0 <= i < |cat| ==> DottedVersion(cat[i].version)
    ensures PicksNewest(cat, m, name)
  {
    var S := iset v | DottedVersion(v);
    DottedConsistent(S);
    BestIsNewest(cat, m, name, S, |cat|);
  }

  /** With suffixes it is not: for every number, a release that compares greater is passed over. */
  lemma SuffixedPick(number: string, m: Machine, name: string, id: string)
    requires Component(number) && id in m.ids
    ensures var cat := [Plain(name, number, id), Plain(name, number + "-rc1", id), Plain(name, number + "-maclite", id)];
            Best(cat, m, name, 3) == Some(2) && Cmp(cat[1].version, cat[2].version) > 0
  {
    SuffixCycle(number);
    LastOfThree(m, name, id, number + "-rc1", number, number + "-maclite");
    CmpAntisymmetric(number + "-maclite", number + "-rc1");
  }

  // ------------------------------------------------------------------- plan

  const PLAN_MAX := 32

  datatype Decision = Decision(component: string, chosen: Option<nat>)

  /** Some release of the component is for this machine. */
  predicate Wanted(cat: seq<Release>, m: Machine, n: nat, name: string)
    requires n <= |cat|
  {
    exists i :: 0 <= i < n && Concerns(cat[i], m, name)
  }

  predicate Listed(plan: seq<Decision>, name: string) {
    exists k :: 0 <= k < |plan| && plan[k].component == name
  }

  predicate Named(cat: seq<Release>, n: nat, name: string)
    requires n <= |cat|
  {
    exists i :: 0 <= i < n && cat[i].name == name
  }

  predicate OncePerComponent(plan: seq<Decision>) {
    forall i, j :: 0 <= i < j < |plan| ==> plan[i].component != plan[j].component
  }

  predicate Resolved(cat: seq<Release>, m: Machine, plan: seq<Decision>) {
    forall k :: 0 <= k < |plan| ==>
      && plan[k].chosen == Best(cat, m, plan[k].component, |cat|)
      && Wanted(cat, m, |cat|, plan[k].component)
  }

  /** Whether any release of the component applies, used when none could be chosen. */
  method AppliesAny(cat: seq<Release>, m: Machine, name: string) returns (r: bool)
    ensures r == Wanted(cat, m, |cat|, name)
  {
    r := false;
    for k := 0 to |cat|
      invariant r == Wanted(cat, m, k, name)
    {
      if cat[k].name == name {
        var applies := PackageApplies(cat[k], m);
        if applies { r := true; }
      }
    }
  }

  method Already(seen: seq<string>, name: string) returns (r: bool)
    ensures r <==> name in seen
  {
    r := false;
    for k := 0 to |seen|
      invariant r <==> name in seen[..k]
    {
      if seen[k] == name { r := true; }
    }
  }

  /** The component loop of drv_plan_resolve: every component with a release for this machine gets
      exactly one decision, which is its pick, unless the plan is full. */
  method PlanResolve(cat: seq<Release>, m: Machine) returns (plan: seq<Decision>)
    requires |cat| <= 64
    ensures |plan| <= PLAN_MAX && OncePerComponent(plan) && Resolved(cat, m, plan)
    ensures |plan| < PLAN_MAX ==> forall name :: Listed(plan, name) <==> Wanted(cat, m, |cat|, name)
  {
    plan := [];
    var seen: seq<string> := [];
    var i := 0;
    while i < |cat| && |plan| < PLAN_MAX
      invariant 0 <= i <= |cat| && |plan| <= PLAN_MAX && |seen| <= i
      invariant forall name :: name in seen <==> Named(cat, i, name)
      invariant OncePerComponent(plan) && Resolved(cat, m, plan)
      invariant forall name :: Listed(plan, name) <==> Named(cat, i, name) && Wanted(cat, m, |cat|, name)
    {
      var name := cat[i].name;
      var already := Already(seen, name);
      i := i + 1;
      if already { continue; }
      seen := seen + [name];
      var chosen, rejected, caveat := PickNamed(cat, m, name);
      if chosen.None? {
        var any := AppliesAny(cat, m, name);
        if !any { continue; }
      }
      ChoiceExists(cat, m, name, |cat|);
      assert chosen.Some? ==> Concerns(cat[chosen.value], m, name);
      ghost var before := plan;
      plan := plan + [Decision(name, chosen)];
      Appended(before, Decision(name, chosen));
    }
  }

  lemma Appended(plan: seq<Decision>, d: Decision)
    ensures forall name :: Listed(plan + [d], name) <==> Listed(plan, name) || name == d.component
    ensures OncePerComponent(plan) && !Listed(plan, d.component) ==> OncePerComponent(plan + [d])
  {
    forall name ensures Listed(plan + [d], name) <==> Listed(plan, name) || name == d.component {
      var all := plan + [d];
      assert all[|plan|] == d;
      assert forall k :: 0 <= k < |plan| ==> all[k] == plan[k];
    }
  }
}
