/** What fusion planning takes and leaves, by the tensors of the calls. */
module FusionExact {
  import opened Ast
  import opened Text
  import opened Reordering
  import opened Signatures
  import opened Fusion

  // The conditions here are on the loads and stores of the calls alone.  A planned group holds calls of one
  // signature that share no stored tensor and have nothing in between that the later one depends on
  // (PlanIsSound), no call that could join is left out (PlanIsComplete), and the validator accepts exactly
  // such groups (ValidIff).  Calls have one signature exactly when their tensors can be renamed
  // (SameSignatureIff).

  // ---------------------------------------------------------------------------------------------
  // Dependencies, by tensors

  /** One of the two stores a tensor that the other loads or stores. */
  ghost predicate Clash(a: Stmt, b: Stmt) { exists t :: ClashOn(a, b, t) }

  predicate ClashOn(a: Stmt, b: Stmt, t: Name) {
    || (t in StmtStores(a) && (t in StmtLoads(b) || t in StmtStores(b)))
    || (t in StmtLoads(a) && t in StmtStores(b))
  }

  /** A call strictly between i and j stores what j loads or stores, or loads what j stores. */
  ghost predicate Blocked(calls: seq<Call>, i: nat, j: nat) { exists m :: BlockedBy(calls, i, j, m) }

  ghost predicate BlockedBy(calls: seq<Call>, i: nat, j: nat, m: int) {
    0 <= i < m < j < |calls| && Clash(calls[m].root, calls[j].root)
  }

  lemma ConflictIff(a: Stmt, b: Stmt)
    ensures Conflict(AnalyzeCall(a), AnalyzeCall(b)) <==> Clash(a, b)
  {
    var l, r := AnalyzeCall(a), AnalyzeCall(b);
    if t :| ClashOn(a, b, t) {
      assert t in l.stores * r.loads || t in l.stores * r.stores || t in r.stores * l.loads;
    }
    if t :| t in l.stores * r.loads { assert ClashOn(a, b, t); }
    if t :| t in r.stores * l.loads { assert ClashOn(a, b, t); }
    if t :| t in l.stores * r.stores { assert ClashOn(a, b, t); }
  }

  lemma MeetIff(a: Stmt, b: Stmt)
    ensures var m, c := AnalyzeCall(a), AnalyzeCall(b);
      m.stores * (c.loads + c.stores) != {} || m.loads * c.stores != {} <==> Clash(a, b)
  {
    var m, c := AnalyzeCall(a), AnalyzeCall(b);
    if t :| ClashOn(a, b, t) { assert t in m.stores * (c.loads + c.stores) || t in m.loads * c.stores; }
    if t :| t in m.stores * (c.loads + c.stores) { assert ClashOn(a, b, t); }
    if t :| t in m.loads * c.stores { assert ClashOn(a, b, t); }
  }

  function Lower(i: nat, j: nat): nat { if i > j then j else i }
  function Higher(i: nat, j: nat): nat { if i > j then i else j }

  lemma InterveningIff(calls: seq<Call>, i: nat, j: nat)
    requires i < |calls| && j < |calls|
    ensures Intervening(AnalyzeCalls(calls), i, j) <==> Blocked(calls, Lower(i, j), Higher(i, j))
  {
    var an, lo, hi := AnalyzeCalls(calls), Lower(i, j), Higher(i, j);
    forall m | lo < m < hi
      ensures an[m].stores * (an[hi].loads + an[hi].stores) != {} || an[m].loads * an[hi].stores != {} <==>
        BlockedBy(calls, lo, hi, m)
    {
      MeetIff(calls[m].root, calls[hi].root);
    }
    if m :| BlockedBy(calls, lo, hi, m) {
      assert lo < m < hi && (an[m].stores * (an[hi].loads + an[hi].stores) != {} || an[m].loads * an[hi].stores != {});
    }
  }

  /** Nothing stands against calls i and j in one group. */
  ghost predicate Free(calls: seq<Call>, i: nat, j: nat) {
    i < |calls| && j < |calls| && !Clash(calls[i].root, calls[j].root) && !Blocked(calls, Lower(i, j), Higher(i, j))
  }

  lemma PairOkIff(calls: seq<Call>, i: nat, j: nat)
    ensures PairOk(AnalyzeCalls(calls), i, j) <==> Free(calls, i, j)
  {
    if i < |calls| && j < |calls| {
      ConflictIff(calls[i].root, calls[j].root);
      InterveningIff(calls, i, j);
    }
  }

  predicate Alike(calls: seq<Call>, i: nat, j: nat) {
    i < |calls| && j < |calls| && Signature(calls[i].root) == Signature(calls[j].root)
  }

  // ---------------------------------------------------------------------------------------------
  // Nothing is left out

  lemma {:induction false} GrowComplete(an: seq<CallPattern>, covered: set<nat>, run: seq<nat>, start: nat, j: nat)
    requires ValidRun(an, run) && Below(run, start, covered) && start <= j < |an| && j !in covered
    requires j !in Grow(an, covered, run, start) && SameSignature(an, j, run[0])
    ensures var r := Grow(an, covered, run, start); exists a :: 0 <= a < |r| && r[a] < j && !PairOk(an, r[a], j)
    decreases |an| - start
  {
    var r := Grow(an, covered, run, start);
    if start in covered || !Joins(an, run, start) {
      if start == j {
        var a :| 0 <= a < |run| && !PairOk(an, run[a], j);
        assert r[a] == run[a];
      } else {
        GrowComplete(an, covered, run, start + 1, j);
      }
    } else {
      JoinedRunIsValid(an, covered, run, start);
      var longer := run + [start];
      assert longer[|run|] == start;
      assert longer <= r && start in r;
      GrowComplete(an, covered, longer, start + 1, j);
    }
  }

  /** The run of call i: its group, if it begins one, or the call alone. */
  ghost predicate RunOf(groups: seq<FusionGroup>, i: nat, run: seq<nat>) {
    || (run == [i] && forall g :: g in groups ==> !Begins(g, i))
    || exists g :: g in groups && Begins(g, i) && run == g.callIndices
  }

  predicate Begins(g: FusionGroup, i: nat) { g.callIndices != [] && g.callIndices[0] == i }

  /** The call is in no group that begins before call i. */
  ghost predicate FreeBefore(groups: seq<FusionGroup>, i: nat, c: nat) {
    forall g :: g in groups && g.callIndices != [] && g.callIndices[0] < i ==> c !in g.callIndices
  }

  lemma {:induction false} PlanBegins(an: seq<CallPattern>, i: nat, covered: set<nat>)
    requires SlotsDetermined(an)
    ensures forall g :: g in Plan(an, i, covered) ==> g.callIndices != [] && g.callIndices[0] >= i
    decreases |an| - i
  {
    if i < |an| {
      PlanBegins(an, i + 1, covered);
      if i !in covered {
        var run := Grow(an, covered, [i], i + 1);
        if |run| >= 2 { PlanBegins(an, i + 1, covered + Members(MakeGroup(an, run))); }
      }
    }
  }

  /** What keeps call j out of a run. */
  predicate KeptOut(an: seq<CallPattern>, run: seq<nat>, i: nat, j: nat) {
    SameSignature(an, j, i) ==> exists a :: 0 <= a < |run| && run[a] < j && !PairOk(an, run[a], j)
  }

  /** The calls i and j come up for grouping, and j is not in the run of i. */
  ghost predicate Missed(groups: seq<FusionGroup>, i: nat, j: nat, run: seq<nat>) {
    FreeBefore(groups, i, i) && FreeBefore(groups, i, j) && RunOf(groups, i, run) && j !in run
  }

  lemma MissedInRest(g: FusionGroup, rest: seq<FusionGroup>, i: nat, j: nat, run: seq<nat>)
    requires Missed([g] + rest, i, j, run) && g.callIndices != [] && g.callIndices[0] < i
    ensures Missed(rest, i, j, run) && i !in Members(g) && j !in Members(g)
  {
    assert g in [g] + rest && forall h :: h in rest ==> h in [g] + rest;
    assert forall h :: h in [g] + rest ==> h == g || h in rest;
  }

  /** The first run is that of the first call. */
  lemma FirstRun(g: FusionGroup, rest: seq<FusionGroup>, i: nat, run: seq<nat>)
    requires RunOf([g] + rest, i, run) && Begins(g, i) && forall h :: h in rest ==> !Begins(h, i)
    ensures run == g.callIndices
  {
    assert g in [g] + rest && forall h :: h in [g] + rest ==> h == g || h in rest;
  }

  lemma {:induction false} PlanComplete(an: seq<CallPattern>, start: nat, covered: set<nat>, i: nat, j: nat,
      run: seq<nat>)
    requires SlotsDetermined(an) && start <= i < j < |an| && i !in covered && j !in covered
    requires Missed(Plan(an, start, covered), i, j, run)
    ensures KeptOut(an, run, i, j)
    decreases |an| - start
  {
    if start == i {
      OwnRun(an, covered, i, j, run);
      OwnRunComplete(an, covered, i, j, run);
    } else {
      var covered' := CoveredNext(an, start, covered);
      LaterRuns(an, start, covered, i, j, run);
      PlanComplete(an, start + 1, covered', i, j, run);
    }
  }

  /** The calls covered once the call at `start` is dealt with. */
  function CoveredNext(an: seq<CallPattern>, start: nat, covered: set<nat>): set<nat>
    requires start < |an| && SlotsDetermined(an)
  {
    if start in covered then covered
    else
      var own := Grow(an, covered, [start], start + 1);
      if |own| >= 2 then covered + Members(MakeGroup(an, own)) else covered
  }

  lemma LaterRuns(an: seq<CallPattern>, start: nat, covered: set<nat>, i: nat, j: nat, run: seq<nat>)
    requires SlotsDetermined(an) && start < i < j < |an| && i !in covered && j !in covered
    requires Missed(Plan(an, start, covered), i, j, run)
    ensures var covered' := CoveredNext(an, start, covered);
      Missed(Plan(an, start + 1, covered'), i, j, run) && i !in covered' && j !in covered'
  {
    if start !in covered {
      var own := Grow(an, covered, [start], start + 1);
      if |own| >= 2 {
        var g, rest := MakeGroup(an, own), Plan(an, start + 1, CoveredNext(an, start, covered));
        assert Plan(an, start, covered) == [g] + rest;
        MissedInRest(g, rest, i, j, run);
      }
    }
  }

  lemma OwnRun(an: seq<CallPattern>, covered: set<nat>, i: nat, j: nat, run: seq<nat>)
    requires SlotsDetermined(an) && i < j < |an| && i !in covered
    requires Missed(Plan(an, i, covered), i, j, run)
    ensures var own := Grow(an, covered, [i], i + 1); run == if |own| >= 2 then own else [i]
  {
    var own, covered' := Grow(an, covered, [i], i + 1), CoveredNext(an, i, covered);
    var rest := Plan(an, i + 1, covered');
    PlanBegins(an, i + 1, covered');
    if |own| >= 2 {
      assert Plan(an, i, covered) == [MakeGroup(an, own)] + rest;
      FirstRun(MakeGroup(an, own), rest, i, run);
    }
  }

  lemma OwnRunComplete(an: seq<CallPattern>, covered: set<nat>, i: nat, j: nat, run: seq<nat>)
    requires i < j < |an| && i !in covered && j !in covered && j !in run
    requires var own := Grow(an, covered, [i], i + 1); run == if |own| >= 2 then own else [i]
    ensures KeptOut(an, run, i, j)
  {
    var own := Grow(an, covered, [i], i + 1);
    assert |own| < 2 ==> own == [i];
    if SameSignature(an, j, i) { GrowComplete(an, covered, [i], i + 1, j); }
  }

  /** The plan of a program. */
  function PlanOf(calls: seq<Call>): seq<FusionGroup>
    requires SlotsDetermined(AnalyzeCalls(calls))
  {
    Plan(AnalyzeCalls(calls), 0, {})
  }

  /** No call that could join is left out: for a call i in no group that begins earlier, and a later call j
      that is not in its run and in no such group, the signatures differ, or some member of the run below j
      and call j share a tensor that one of them stores, or a call between the two depends on j or j on it. */
  lemma PlanIsComplete(calls: seq<Call>, i: nat, j: nat, run: seq<nat>)
    requires SlotsDetermined(AnalyzeCalls(calls)) && i < j < |calls|
    requires FreeBefore(PlanOf(calls), i, i) && FreeBefore(PlanOf(calls), i, j)
    requires RunOf(PlanOf(calls), i, run) && j !in run
    ensures
      || Signature(calls[i].root) != Signature(calls[j].root)
      || exists a ::
        0 <= a < |run| && run[a] < j && (Clash(calls[run[a]].root, calls[j].root) || Blocked(calls, run[a], j))
  {
    var an := AnalyzeCalls(calls);
    PlanComplete(an, 0, {}, i, j, run);
    if Signature(calls[i].root) == Signature(calls[j].root) {
      assert SameSignature(an, j, i);
      var a :| 0 <= a < |run| && run[a] < j && !PairOk(an, run[a], j);
      PairOkIff(calls, run[a], j);
    }
  }

  /** What is grouped may be: in every planned group the calls are in order, of one signature, and free of each
      other, and no call is in two groups. */
  lemma PlanIsSound(calls: seq<Call>)
    requires SlotsDetermined(AnalyzeCalls(calls))
    ensures forall g :: g in PlanOf(calls) ==>
      && |g.callIndices| >= 2
      && (forall a, b :: 0 <= a < b < |g.callIndices| ==>
           g.callIndices[a] < g.callIndices[b] && Alike(calls, g.callIndices[a], g.callIndices[b]) &&
           Free(calls, g.callIndices[a], g.callIndices[b]))
    ensures forall a, b, k :: 0 <= a < b < |PlanOf(calls)| && k in PlanOf(calls)[a].callIndices ==>
      k !in PlanOf(calls)[b].callIndices
  {
    var an := AnalyzeCalls(calls);
    PlanIsPlanned(an, 0, {});
    forall g, a, b | g in PlanOf(calls) && 0 <= a < b < |g.callIndices|
      ensures g.callIndices[a] < g.callIndices[b] && Alike(calls, g.callIndices[a], g.callIndices[b]) &&
        Free(calls, g.callIndices[a], g.callIndices[b])
    {
      assert PlannedGroup(an, g) && PairOk(an, g.callIndices[a], g.callIndices[b]);
      assert SameSignature(an, g.callIndices[a], g.callIndices[0]) &&
        SameSignature(an, g.callIndices[b], g.callIndices[0]);
      PairOkIff(calls, g.callIndices[a], g.callIndices[b]);
    }
    forall a, b, k | 0 <= a < b < |PlanOf(calls)| && k in PlanOf(calls)[a].callIndices
      ensures k !in PlanOf(calls)[b].callIndices
    {
      assert k in Members(PlanOf(calls)[a]) && Members(PlanOf(calls)[a]) !! Members(PlanOf(calls)[b]);
    }
  }

  /** The tensors a call loads, in the order of its load slots. */
  function SlotNames(calls: seq<Call>, k: nat): seq<Name> {
    if k < |calls| then SlotsAfter(calls[k].root, Slots([], [])).rd else []
  }

  /** A slot of a planned group has one name for all exactly when all members load the same tensor there. */
  lemma SharedSlotIff(calls: seq<Call>, g: FusionGroup, slot: nat)
    requires SlotsDetermined(AnalyzeCalls(calls)) && g in PlanOf(calls)
    ensures g.callIndices != [] && forall a :: 0 <= a < |g.callIndices| ==> g.callIndices[a] < |calls|
    ensures var first := SlotNames(calls, g.callIndices[0]);
      slot in g.exact <==> slot < |first| && forall a :: 0 <= a < |g.callIndices| ==>
        slot < |SlotNames(calls, g.callIndices[a])| && SlotNames(calls, g.callIndices[a])[slot] == first[slot]
  {
    var an, run := AnalyzeCalls(calls), g.callIndices;
    PlanIsPlanned(an, 0, {});
    assert PlannedGroup(an, g) && g == MakeGroup(an, run) && InRange(an, run);
    assert forall a :: 0 <= a < |run| ==> an[run[a]].loadSlots == SlotNames(calls, run[a]);
    var base := an[run[0]];
    assert slot in g.exact <==> slot in ExactSlots(an, run);
    assert forall a :: 0 <= a < |run| && slot < |base.loadSlots| ==>
      (HasName(an[run[a]], slot, base.loadSlots[slot]) <==>
       slot < |SlotNames(calls, run[a])| && SlotNames(calls, run[a])[slot] == base.loadSlots[slot]);
  }

  // ---------------------------------------------------------------------------------------------
  // The validator

  /** A group as it should be. */
  ghost predicate Proper(calls: seq<Call>, g: FusionGroup) {
    |g.callIndices| >= 2 && OneSignature(calls, g) && AllFree(calls, g.callIndices) && NamesShared(calls, g)
  }

  predicate OneSignature(calls: seq<Call>, g: FusionGroup) {
    forall a :: 0 <= a < |g.callIndices| ==>
      g.callIndices[a] < |calls| && Signature(calls[g.callIndices[a]].root) == g.signature
  }

  ghost predicate AllFree(calls: seq<Call>, run: seq<nat>) {
    forall a, b :: 0 <= a < b < |run| ==> Free(calls, run[a], run[b])
  }

  predicate NamesShared(calls: seq<Call>, g: FusionGroup) {
    forall slot, a :: slot in g.exact && 0 <= a < |g.callIndices| ==>
      slot < |SlotNames(calls, g.callIndices[a])| && SlotNames(calls, g.callIndices[a])[slot] == g.exact[slot]
  }

  lemma OneSignatureIff(calls: seq<Call>, g: FusionGroup)
    requires |g.callIndices| >= 2
    ensures var an, run := AnalyzeCalls(calls), g.callIndices;
      OneSignature(calls, g) <==>
        InRange(an, run) && an[run[0]].signature == g.signature && forall b :: 1 <= b < |run| ==>
          SameSignature(an, run[b], run[0])
  {
    var an, run := AnalyzeCalls(calls), g.callIndices;
    assert forall a :: 0 <= a < |run| && run[a] < |calls| ==> an[run[a]].signature == Signature(calls[run[a]].root);
    if InRange(an, run) && an[run[0]].signature == g.signature && forall b :: 1 <= b < |run| ==>
      SameSignature(an, run[b], run[0]) {
      forall a | 0 <= a < |run| ensures Signature(calls[run[a]].root) == g.signature {
        if a > 0 { assert SameSignature(an, run[a], run[0]); }
      }
    }
  }

  lemma AllFreeIff(calls: seq<Call>, run: seq<nat>)
    ensures PairsOk(AnalyzeCalls(calls), run) <==> AllFree(calls, run)
  {
    forall a, b | 0 <= a < b < |run|
      ensures PairOk(AnalyzeCalls(calls), run[a], run[b]) <==> Free(calls, run[a], run[b])
    {
      PairOkIff(calls, run[a], run[b]);
    }
  }

  lemma NamesSharedIff(calls: seq<Call>, g: FusionGroup)
    requires InRange(AnalyzeCalls(calls), g.callIndices)
    ensures ExactOk(AnalyzeCalls(calls), g) <==> NamesShared(calls, g)
  {
    var an, run := AnalyzeCalls(calls), g.callIndices;
    assert forall a :: 0 <= a < |run| ==> an[run[a]].loadSlots == SlotNames(calls, run[a]);
    forall slot, a | slot in g.exact && 0 <= a < |run|
      ensures HasName(an[run[a]], slot, g.exact[slot]) <==>
        slot < |SlotNames(calls, run[a])| && SlotNames(calls, run[a])[slot] == g.exact[slot] {}
  }

  lemma GroupOkIff(calls: seq<Call>, g: FusionGroup)
    ensures GroupOk(AnalyzeCalls(calls), g) <==> Proper(calls, g)
  {
    AllFreeIff(calls, g.callIndices);
    if |g.callIndices| >= 2 {
      OneSignatureIff(calls, g);
      if InRange(AnalyzeCalls(calls), g.callIndices) { NamesSharedIff(calls, g); }
    }
  }

  /** The validator reports nothing exactly when all groups are proper and no call is in two of them. */
  method Validate(calls: seq<Call>, groups: seq<FusionGroup>) returns (errors: seq<GroupError>)
    ensures errors == [] <==>
      && (forall g :: g in groups ==> Proper(calls, g))
      && forall a, b, k :: 0 <= a < b < |groups| && k in groups[a].callIndices ==> k !in groups[b].callIndices
  {
    errors := ValidateFusionGroups(AnalyzeCalls(calls), groups);
    forall g | g in groups ensures GroupOk(AnalyzeCalls(calls), g) <==> Proper(calls, g) { GroupOkIff(calls, g); }
    SeparateIff(groups);
  }

  lemma SeparateIff(groups: seq<FusionGroup>)
    ensures Separate(groups) <==>
      forall a, b, k :: 0 <= a < b < |groups| && k in groups[a].callIndices ==> k !in groups[b].callIndices
  {
    if Separate(groups) {
      forall a, b, k | 0 <= a < b < |groups| && k in groups[a].callIndices ensures k !in groups[b].callIndices {
        assert k in Members(groups[a]) && Members(groups[a]) !! Members(groups[b]);
      }
    }
  }
}
