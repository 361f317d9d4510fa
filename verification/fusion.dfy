/** Fusion grouping: calls with equal signatures are planned into groups, each group is hoisted to
    its first member and printed as one node with comma-joined names. */
module Fusion {
  import opened Ast
  import opened Text
  import opened Machines
  import opened Reordering
  import opened Signatures

  datatype CallPattern = CallPattern(
    signature: string,
    loadSlots: seq<Name>,
    storeSlots: seq<Name>,
    loads: set<Name>,
    stores: set<Name>)

  datatype FusionGroup = FusionGroup(
    callIndices: seq<nat>,
    signature: string,
    exact: map<nat, Name>,
    varying: map<nat, seq<Name>>,
    written: map<nat, seq<Name>>)
  {
    function LoadName(slot: nat): Name {
      if slot in exact then exact[slot] else if slot in varying then JoinNames(varying[slot]) else ""
    }

    function StoreName(slot: nat): Name {
      if slot in written then JoinNames(written[slot]) else ""
    }
  }

  function Members(g: FusionGroup): set<nat> {
    set k | k in g.callIndices
  }

  function AnalyzeCall(root: Stmt): CallPattern {
    var slots := SlotsAfter(root, Slots([], []));
    CallPattern(Signature(root), slots.rd, slots.wr, StmtLoads(root), StmtStores(root))
  }

  function AnalyzeCalls(calls: seq<Call>): (an: seq<CallPattern>)
    ensures |an| == |calls|
  {
    seq(|calls|, i requires 0 <= i < |calls| => AnalyzeCall(calls[i].root))
  }

  predicate Conflict(l: CallPattern, r: CallPattern) {
    l.stores * r.loads != {} || r.stores * l.loads != {} || l.stores * r.stores != {}
  }

  /** `_has_intervening_dependency_on_candidate`. */
  predicate Intervening(an: seq<CallPattern>, left: nat, right: nat)
    requires left < |an| && right < |an|
  {
    var lo, hi := if left > right then right else left, if left > right then left else right;
    exists mid :: lo < mid < hi &&
      (an[mid].stores * (an[hi].loads + an[hi].stores) != {} || an[mid].loads * an[hi].stores != {})
  }

  /** Calls i and j may share a group as far as their own accesses and what lies between them go. */
  predicate PairOk(an: seq<CallPattern>, i: nat, j: nat) {
    i < |an| && j < |an| && !Conflict(an[i], an[j]) && !Intervening(an, i, j)
  }

  predicate SameSignature(an: seq<CallPattern>, i: nat, j: nat) {
    i < |an| && j < |an| && an[i].signature == an[j].signature
  }

  predicate PairsOk(an: seq<CallPattern>, run: seq<nat>) {
    forall a, b :: 0 <= a < b < |run| ==> PairOk(an, run[a], run[b])
  }

  predicate InRange(an: seq<CallPattern>, run: seq<nat>) {
    forall a :: 0 <= a < |run| ==> run[a] < |an|
  }

  /** Patterns with one signature have the same slots; true of every analysed program. */
  predicate SlotsDetermined(an: seq<CallPattern>) {
    forall i, j :: 0 <= i < |an| && 0 <= j < |an| && an[i].signature == an[j].signature ==>
      |an[i].loadSlots| == |an[j].loadSlots| && |an[i].storeSlots| == |an[j].storeSlots|
  }

  // ---------------------------------------------------------------------------------------------
  // The greedy plan

  /** Whether the planner adds call j to a run. */
  predicate Joins(an: seq<CallPattern>, run: seq<nat>, j: nat) {
    run != [] && SameSignature(an, j, run[0]) && forall a :: 0 <= a < |run| ==> PairOk(an, run[a], j)
  }

  /** A run the planner may build: increasing, one signature, no pair in conflict, and nothing
      between two members that the later one depends on. */
  predicate ValidRun(an: seq<CallPattern>, run: seq<nat>) {
    && run != []
    && Increasing(run)
    && InRange(an, run)
    && (forall a :: 0 <= a < |run| ==> SameSignature(an, run[a], run[0]))
    && PairsOk(an, run)
  }

  /** All members are below j and not in a group yet. */
  predicate Below(run: seq<nat>, j: nat, covered: set<nat>) {
    forall a :: 0 <= a < |run| ==> run[a] < j && run[a] !in covered
  }

  lemma JoinedRunIsValid(an: seq<CallPattern>, covered: set<nat>, run: seq<nat>, j: nat)
    requires ValidRun(an, run) && Below(run, j, covered) && Joins(an, run, j) && j !in covered
    ensures ValidRun(an, run + [j]) && Below(run + [j], j + 1, covered)
  {
    var longer := run + [j];
    assert forall a :: 0 <= a < |run| ==> longer[a] == run[a];
    assert longer[|run|] == j;
  }

  function Grow(an: seq<CallPattern>, covered: set<nat>, run: seq<nat>, j: nat): (r: seq<nat>)
    requires ValidRun(an, run) && Below(run, j, covered)
    ensures ValidRun(an, r) && run <= r && forall a :: 0 <= a < |r| ==> r[a] !in covered
    decreases |an| - j
  {
    if j >= |an| then run
    else if j in covered || !Joins(an, run, j) then Grow(an, covered, run, j + 1)
    else
      JoinedRunIsValid(an, covered, run, j);
      Grow(an, covered, run + [j], j + 1)
  }

  /** `range(n)` as a set. */
  function Upto(n: nat): (r: set<nat>)
    ensures forall k :: k in r <==> 0 <= k < n
  {
    if n == 0 then {} else Upto(n - 1) + {n - 1}
  }

  predicate HasName(p: CallPattern, slot: nat, name: Name) {
    slot < |p.loadSlots| && p.loadSlots[slot] == name
  }

  /** The load slots all members share by name. */
  function ExactSlots(an: seq<CallPattern>, run: seq<nat>): set<nat>
    requires ValidRun(an, run)
  {
    var base := an[run[0]];
    set slot | slot in Upto(|base.loadSlots|) && forall a :: 0 <= a < |run| ==>
      HasName(an[run[a]], slot, base.loadSlots[slot])
  }

  /** The names of one load slot over a run, and of one store slot. */
  function LoadNamesAt(an: seq<CallPattern>, run: seq<nat>, slot: nat): seq<Name>
    requires InRange(an, run) && forall a :: 0 <= a < |run| ==> slot < |an[run[a]].loadSlots|
  {
    seq(|run|, a requires 0 <= a < |run| => an[run[a]].loadSlots[slot])
  }

  function StoreNamesAt(an: seq<CallPattern>, run: seq<nat>, slot: nat): seq<Name>
    requires InRange(an, run) && forall a :: 0 <= a < |run| ==> slot < |an[run[a]].storeSlots|
  {
    seq(|run|, a requires 0 <= a < |run| => an[run[a]].storeSlots[slot])
  }

  predicate AlikeSlots(an: seq<CallPattern>, run: seq<nat>)
    requires run != [] && InRange(an, run)
  {
    forall a :: 0 <= a < |run| ==>
      |an[run[a]].loadSlots| == |an[run[0]].loadSlots| && |an[run[a]].storeSlots| == |an[run[0]].storeSlots|
  }

  lemma RunsAreAlike(an: seq<CallPattern>, run: seq<nat>)
    requires ValidRun(an, run) && SlotsDetermined(an)
    ensures AlikeSlots(an, run)
  {
    assert forall a :: 0 <= a < |run| ==> SameSignature(an, run[a], run[0]);
  }

  function VaryingNames(an: seq<CallPattern>, run: seq<nat>, same: set<nat>): map<nat, seq<Name>>
    requires run != [] && InRange(an, run) && AlikeSlots(an, run)
  {
    map slot | slot in Upto(|an[run[0]].loadSlots|) && slot !in same :: LoadNamesAt(an, run, slot)
  }

  function WrittenNames(an: seq<CallPattern>, run: seq<nat>): map<nat, seq<Name>>
    requires run != [] && InRange(an, run) && AlikeSlots(an, run)
  {
    map slot | slot in Upto(|an[run[0]].storeSlots|) :: StoreNamesAt(an, run, slot)
  }

  function MakeGroup(an: seq<CallPattern>, run: seq<nat>): FusionGroup
    requires ValidRun(an, run) && SlotsDetermined(an)
  {
    var base := an[run[0]];
    var same := ExactSlots(an, run);
    RunsAreAlike(an, run);
    FusionGroup(run, base.signature, map slot | slot in same :: base.loadSlots[slot], VaryingNames(an, run, same),
      WrittenNames(an, run))
  }

  function Plan(an: seq<CallPattern>, i: nat, covered: set<nat>): seq<FusionGroup>
    requires SlotsDetermined(an)
    decreases |an| - i
  {
    if i >= |an| then []
    else if i in covered then Plan(an, i + 1, covered)
    else
      var run := Grow(an, covered, [i], i + 1);
      if |run| >= 2 then [MakeGroup(an, run)] + Plan(an, i + 1, covered + Members(MakeGroup(an, run)))
      else Plan(an, i + 1, covered)
  }

  lemma JoinedExactSlots(an: seq<CallPattern>, run: seq<nat>, j: nat)
    requires ValidRun(an, run) && ValidRun(an, run + [j]) && j < |an|
    ensures ExactSlots(an, run + [j]) ==
      set slot | slot in ExactSlots(an, run) && HasName(an[j], slot, an[run[0]].loadSlots[slot])
  {
    var longer := run + [j];
    assert forall a :: 0 <= a < |run| ==> longer[a] == run[a];
    assert longer[|run|] == j;
  }

  /** The three tests call j must pass to join a run. */
  method CanJoin(an: seq<CallPattern>, run: seq<nat>, j: nat) returns (ok: bool)
    requires run != [] && InRange(an, run) && j < |an|
    ensures ok == Joins(an, run, j)
  {
    var base, cur := an[run[0]], an[j];
    if cur.signature != base.signature { return false; }
    if exists a :: 0 <= a < |run| && Conflict(an[run[a]], cur) { return false; }
    if exists a :: 0 <= a < |run| && Intervening(an, run[a], j) { return false; }
    return true;
  }

  /** The inner loop of the planner: the run that starts at call i, and its shared load slots. */
  method GrowRun(an: seq<CallPattern>, covered: set<nat>, i: nat) returns (run: seq<nat>, exactSlots: set<nat>)
    requires i < |an| && i !in covered
    ensures run == Grow(an, covered, [i], i + 1)
    ensures exactSlots == ExactSlots(an, run)
  {
    var base := an[i];
    run := [i];
    exactSlots := Upto(|base.loadSlots|);
    var j := i + 1;
    while j < |an|
      invariant i < j <= |an|
      invariant ValidRun(an, run) && run[0] == i && Below(run, j, covered)
      invariant Grow(an, covered, run, j) == Grow(an, covered, [i], i + 1)
      invariant exactSlots == ExactSlots(an, run)
    {
      if j in covered { j := j + 1; continue; }
      var ok := CanJoin(an, run, j);
      if !ok { j := j + 1; continue; }
      JoinedRunIsValid(an, covered, run, j);
      JoinedExactSlots(an, run, j);
      exactSlots := set slot | slot in exactSlots && HasName(an[j], slot, base.loadSlots[slot]);
      run := run + [j];
      j := j + 1;
    }
  }

  method BuildGroup(an: seq<CallPattern>, run: seq<nat>, exactSlots: set<nat>) returns (group: FusionGroup)
    requires SlotsDetermined(an) && ValidRun(an, run) && exactSlots == ExactSlots(an, run)
    ensures group == MakeGroup(an, run)
  {
    var base := an[run[0]];
    RunsAreAlike(an, run);
    var exact := map slot | slot in exactSlots :: base.loadSlots[slot];
    return FusionGroup(run, base.signature, exact, VaryingNames(an, run, exactSlots), WrittenNames(an, run));
  }

  /** What one call adds to the plan. */
  lemma PlanStep(an: seq<CallPattern>, groups: seq<FusionGroup>, i: nat, covered: set<nat>)
    requires SlotsDetermined(an) && i < |an| && i !in covered
    ensures var run := Grow(an, covered, [i], i + 1);
      groups + Plan(an, i, covered) ==
        if |run| >= 2 then (groups + [MakeGroup(an, run)]) + Plan(an, i + 1, covered + Members(MakeGroup(an, run)))
        else groups + Plan(an, i + 1, covered)
  {
  }

  /** `plan_fusion_groups`. */
  method PlanFusionGroups(an: seq<CallPattern>) returns (groups: seq<FusionGroup>)
    requires SlotsDetermined(an)
    ensures groups == Plan(an, 0, {})
  {
    groups := [];
    if |an| < 2 {
      assert |an| == 1 ==> Grow(an, {}, [0], 1) == [0];
      return;
    }
    var covered: set<nat> := {};
    var i := 0;
    while i < |an|
      invariant i <= |an|
      invariant groups + Plan(an, i, covered) == Plan(an, 0, {})
    {
      if i in covered {
        i := i + 1;
        continue;
      }
      var run, exactSlots := GrowRun(an, covered, i);
      PlanStep(an, groups, i, covered);
      if |run| >= 2 {
        var group := BuildGroup(an, run, exactSlots);
        groups := groups + [group];
        covered := covered + Members(group);
      }
      i := i + 1;
    }
  }

  /** What every plan satisfies: each group is built from a valid run of at least two calls that no
      other group uses. */
  ghost predicate Planned(an: seq<CallPattern>, groups: seq<FusionGroup>)
    requires SlotsDetermined(an)
  {
    && (forall g :: g in groups ==> PlannedGroup(an, g))
    && Separate(groups)
  }

  ghost predicate PlannedGroup(an: seq<CallPattern>, g: FusionGroup)
    requires SlotsDetermined(an)
  {
    |g.callIndices| >= 2 && ValidRun(an, g.callIndices) && g == MakeGroup(an, g.callIndices)
  }

  predicate Separate(groups: seq<FusionGroup>) {
    forall a, b :: 0 <= a < b < |groups| ==> Members(groups[a]) !! Members(groups[b])
  }

  lemma {:induction false} PlanIsPlanned(an: seq<CallPattern>, i: nat, covered: set<nat>)
    requires SlotsDetermined(an)
    ensures Planned(an, Plan(an, i, covered))
    ensures forall g :: g in Plan(an, i, covered) ==> Members(g) !! covered
    decreases |an| - i
  {
    if i < |an| {
      if i in covered {
        PlanIsPlanned(an, i + 1, covered);
      } else {
        var run := Grow(an, covered, [i], i + 1);
        if |run| >= 2 {
          var g := MakeGroup(an, run);
          var rest := Plan(an, i + 1, covered + Members(g));
          PlanIsPlanned(an, i + 1, covered + Members(g));
          assert Plan(an, i, covered) == [g] + rest;
          assert forall a :: 0 <= a < |rest| ==> Members(rest[a]) !! covered + Members(g);
        } else {
          PlanIsPlanned(an, i + 1, covered);
        }
      }
    }
  }

  // ---------------------------------------------------------------------------------------------
  // Validation

  datatype GroupError =
    | TooFewCalls | OutOfRange | Overlaps | WrongSignature | DifferentSkeletons | CallsConflict | Intervenes
    | ExactMismatch

  /** What the validator checks of one group, apart from overlaps with earlier groups. */
  predicate GroupOk(an: seq<CallPattern>, g: FusionGroup) {
    var run := g.callIndices;
    && |run| >= 2
    && InRange(an, run)
    && an[run[0]].signature == g.signature
    && (forall b :: 1 <= b < |run| ==> SameSignature(an, run[b], run[0]))
    && PairsOk(an, run)
    && ExactOk(an, g)
  }

  predicate ExactOk(an: seq<CallPattern>, g: FusionGroup)
    requires InRange(an, g.callIndices)
  {
    forall slot, a :: slot in g.exact && 0 <= a < |g.callIndices| ==> HasName(an[g.callIndices[a]], slot, g.exact[slot])
  }

  predicate GroupsOk(an: seq<CallPattern>, groups: seq<FusionGroup>) {
    && (forall g :: g in groups ==> GroupOk(an, g))
    && Separate(groups)
  }

  /** The pairwise part of the validator. */
  method CheckPairs(an: seq<CallPattern>, run: seq<nat>) returns (errors: seq<GroupError>)
    requires InRange(an, run)
    ensures errors == [] <==> PairsOk(an, run)
  {
    errors := [];
    for pos := 0 to |run|
      invariant errors == [] <==> forall a, b :: 0 <= a < pos && a < b < |run| ==> PairOk(an, run[a], run[b])
    {
      ghost var before := errors;
      for q := pos + 1 to |run|
        invariant errors == before
        invariant forall b :: pos < b < q ==> PairOk(an, run[pos], run[b])
      {
        assert PairOk(an, run[pos], run[q]) <==>
          !Conflict(an[run[pos]], an[run[q]]) && !Intervening(an, run[pos], run[q]);
        if Conflict(an[run[pos]], an[run[q]]) {
          errors := errors + [CallsConflict];
          break;
        }
        if Intervening(an, run[pos], run[q]) {
          errors := errors + [Intervenes];
          break;
        }
      }
    }
  }

  /** The comparison of every member with the first one. */
  method CheckAgainstFirst(an: seq<CallPattern>, run: seq<nat>) returns (errors: seq<GroupError>)
    requires |run| >= 1 && InRange(an, run)
    ensures errors == [] <==>
      forall b :: 1 <= b < |run| ==> SameSignature(an, run[b], run[0]) && PairOk(an, run[0], run[b])
  {
    var base := an[run[0]];
    for b := 1 to |run|
      invariant forall c :: 1 <= c < b ==> SameSignature(an, run[c], run[0]) && PairOk(an, run[0], run[c])
    {
      var cur := an[run[b]];
      if cur.signature != base.signature {
        assert !SameSignature(an, run[b], run[0]);
        return [DifferentSkeletons];
      }
      if Conflict(base, cur) {
        assert !PairOk(an, run[0], run[b]);
        return [CallsConflict];
      }
      if Intervening(an, run[0], run[b]) {
        assert !PairOk(an, run[0], run[b]);
        return [Intervenes];
      }
    }
    return [];
  }

  method CheckExact(an: seq<CallPattern>, g: FusionGroup) returns (errors: seq<GroupError>)
    requires InRange(an, g.callIndices)
    ensures errors == [] <==> ExactOk(an, g)
  {
    errors := [];
    var left := g.exact.Keys;
    while left != {}
      invariant left <= g.exact.Keys
      invariant errors == [] <==> forall slot, a :: slot in g.exact.Keys - left && 0 <= a < |g.callIndices| ==>
        HasName(an[g.callIndices[a]], slot, g.exact[slot])
      decreases |left|
    {
      var slot :| slot in left;
      ghost var before := errors;
      for a := 0 to |g.callIndices|
        invariant errors == before
        invariant forall c :: 0 <= c < a ==> HasName(an[g.callIndices[c]], slot, g.exact[slot])
      {
        var cur := an[g.callIndices[a]];
        if slot >= |cur.loadSlots| || cur.loadSlots[slot] != g.exact[slot] {
          assert !HasName(an[g.callIndices[a]], slot, g.exact[slot]);
          errors := errors + [ExactMismatch];
          break;
        }
      }
      left := left - {slot};
    }
  }

  /** One round of the validator: the group's errors, and the calls covered after it. */
  method CheckGroup(an: seq<CallPattern>, g: FusionGroup, covered: set<nat>)
      returns (errors: seq<GroupError>, covered': set<nat>)
    ensures errors == [] <==> GroupOk(an, g) && covered !! Members(g)
    ensures errors == [] ==> covered' == covered + Members(g)
  {
    var indices := g.callIndices;
    if |indices| < 2 { return [TooFewCalls], covered; }
    if exists a :: 0 <= a < |indices| && indices[a] >= |an| { return [OutOfRange], covered; }
    errors := if covered * Members(g) != {} then [Overlaps] else [];
    covered' := covered + Members(g);
    if an[indices[0]].signature != g.signature { errors := errors + [WrongSignature]; }
    var first := CheckAgainstFirst(an, indices);
    var pairs := CheckPairs(an, indices);
    var exact := CheckExact(an, g);
    assert forall k :: k in covered && k in Members(g) ==> k in covered * Members(g);
    assert errors + first + pairs + exact == [] <==> errors == [] && first == [] && pairs == [] && exact == [];
    assert PairsOk(an, indices) ==> forall b :: 1 <= b < |indices| ==> PairOk(an, indices[0], indices[b]);
    errors := errors + first + pairs + exact;
  }

  /** `validate_fusion_groups`: it reports nothing exactly on groups that are fit to be fused. */
  method ValidateFusionGroups(an: seq<CallPattern>, groups: seq<FusionGroup>) returns (errors: seq<GroupError>)
    ensures errors == [] <==> GroupsOk(an, groups)
  {
    errors := [];
    var covered: set<nat> := {};
    for n := 0 to |groups|
      invariant errors == [] ==> CoveredBy(covered, groups[..n])
      invariant errors == [] <==> GroupsOk(an, groups[..n])
    {
      OneMoreGroup(an, groups[..n], groups[n], covered);
      assert groups[..n + 1] == groups[..n] + [groups[n]];
      var more;
      more, covered := CheckGroup(an, groups[n], covered);
      errors := errors + more;
    }
    assert groups[..|groups|] == groups;
  }

  ghost predicate CoveredBy(covered: set<nat>, groups: seq<FusionGroup>) {
    forall k :: k in covered <==> exists a :: 0 <= a < |groups| && k in Members(groups[a])
  }

  lemma OneMoreGroup(an: seq<CallPattern>, groups: seq<FusionGroup>, g: FusionGroup, covered: set<nat>)
    ensures GroupsOk(an, groups + [g]) ==> GroupsOk(an, groups)
    ensures CoveredBy(covered, groups) ==>
      (GroupsOk(an, groups + [g]) <==> GroupsOk(an, groups) && GroupOk(an, g) && covered !! Members(g))
    ensures CoveredBy(covered, groups) ==> CoveredBy(covered + Members(g), groups + [g])
  {
    var after := groups + [g];
    assert forall a :: 0 <= a < |groups| ==> after[a] == groups[a];
    assert after[|groups|] == g;
    assert forall x :: x in after <==> x in groups || x == g;
    if CoveredBy(covered, groups) {
      forall k ensures k in covered + Members(g) <==> exists a :: 0 <= a < |after| && k in Members(after[a]) {
        if k in covered {
          var a :| 0 <= a < |groups| && k in Members(groups[a]);
          assert k in Members(after[a]);
        }
      }
      if GroupsOk(an, after) {
        forall k | k in covered ensures k !in Members(g) {
          var a :| 0 <= a < |groups| && k in Members(groups[a]);
          assert Members(after[a]) !! Members(after[|groups|]);
        }
      }
      if covered !! Members(g) && GroupsOk(an, groups) && GroupOk(an, g) {
        forall a, b | 0 <= a < b < |after| ensures Members(after[a]) !! Members(after[b]) {
          if b == |groups| {
            assert forall k :: k in Members(groups[a]) ==> k in covered;
          }
        }
      }
    }
  }

  /** The validator accepts every plan. */
  lemma PlansValidate(an: seq<CallPattern>, groups: seq<FusionGroup>)
    requires SlotsDetermined(an) && Planned(an, groups)
    ensures GroupsOk(an, groups)
  {
    forall g | g in groups ensures GroupOk(an, g) {
      assert SameSignature(an, g.callIndices[0], g.callIndices[0]);
    }
  }

  // ---------------------------------------------------------------------------------------------
  // Emission

  /** The group printed at call idx; a later group with the same first call would win. */
  function GroupAt(groups: seq<FusionGroup>, idx: nat): Option<FusionGroup> {
    if groups == [] then None
    else
      var last := groups[|groups| - 1];
      if last.callIndices != [] && last.callIndices[0] == idx then Some(last) else GroupAt(groups[..|groups| - 1], idx)
  }

  /** Calls printed as part of an earlier one. */
  predicate Skipped(groups: seq<FusionGroup>, idx: nat) {
    exists g :: 0 <= g < |groups| && groups[g].callIndices != [] && idx in groups[g].callIndices[1..]
  }

  /** The fused node: the first member's root with every slot renamed. */
  function GroupRoot(root: Stmt, g: FusionGroup): Stmt {
    Rewrite(root, Slots([], []), (slot: nat) => g.LoadName(slot), (slot: nat) => g.StoreName(slot))
  }

  function NodeAt(calls: seq<Call>, groups: seq<FusionGroup>, idx: nat): Stmt
    requires idx < |calls|
  {
    match GroupAt(groups, idx)
    case Some(g) => GroupRoot(calls[idx].root, g)
    case None => calls[idx].root
  }

  function Emit(calls: seq<Call>, groups: seq<FusionGroup>, idx: nat): seq<Stmt>
    decreases |calls| - idx
  {
    if idx >= |calls| then []
    else if Skipped(groups, idx) then Emit(calls, groups, idx + 1)
    else [NodeAt(calls, groups, idx)] + Emit(calls, groups, idx + 1)
  }

  /** `calls_to_ir_with_groups`, up to printing. */
  method CallsToIrWithGroups(calls: seq<Call>, groups: seq<FusionGroup>) returns (nodes: seq<Stmt>)
    ensures nodes == Emit(calls, groups, 0)
  {
    nodes := [];
    for idx := 0 to |calls|
      invariant nodes + Emit(calls, groups, idx) == Emit(calls, groups, 0)
    {
      if Skipped(groups, idx) { continue; }
      match GroupAt(groups, idx)
      case None => nodes := nodes + [calls[idx].root];
      case Some(g) => nodes := nodes + [GroupRoot(calls[idx].root, g)];
    }
  }

  /** How many members a node with joined names stands for. */
  function Width(s: Stmt): nat
    decreases s, 1
  {
    match s
    case Store(t, _, _) => |SplitNames(t)|
    case Loop(_, _, _, _, b) => Width(b)
    case Seq(l, r) => if Width(l) > Width(r) then Width(l) else Width(r)
    case Block(ss) => WidthAll(ss)
  }

  function WidthAll(ss: seq<Stmt>): nat
    decreases ss, 0
  {
    if ss == [] then 0 else if Width(ss[0]) > WidthAll(ss[1..]) then Width(ss[0]) else WidthAll(ss[1..])
  }

  /** A node with joined names runs its members one after the other. */
  function RunLanes<C, V>(M: Machine<C, V>, node: Stmt, k: nat, mem: Mem<C>): Mem<C>
    decreases Width(node) - k
  {
    if k >= Width(node) then mem else RunLanes(M, node, k + 1, Exec(M, Lane(node, k), map[], mem))
  }

  function RunNodes<C, V>(M: Machine<C, V>, nodes: seq<Stmt>, mem: Mem<C>): Mem<C> {
    if nodes == [] then mem else RunNodes(M, nodes[1..], RunLanes(M, nodes[0], 0, mem))
  }

  // ---------------------------------------------------------------------------------------------
  // The order of emission

  function MembersAt(groups: seq<FusionGroup>, idx: nat): seq<nat> {
    match GroupAt(groups, idx)
    case Some(g) => g.callIndices
    case None => [idx]
  }

  function EmitOrder(groups: seq<FusionGroup>, n: nat, idx: nat): seq<nat>
    decreases n - idx
  {
    if idx >= n then []
    else if Skipped(groups, idx) then EmitOrder(groups, n, idx + 1)
    else MembersAt(groups, idx) + EmitOrder(groups, n, idx + 1)
  }

  /** Groups as the planner makes them, as far as order is concerned. */
  predicate Ordered(groups: seq<FusionGroup>, n: nat) {
    && Separate(groups)
    && (forall g :: g in groups ==>
      g.callIndices != [] && Increasing(g.callIndices) && forall k :: k in g.callIndices ==> k < n)
  }

  /** The call at whose place a call is emitted. */
  function Place(groups: seq<FusionGroup>, c: nat): nat {
    if groups == [] then c
    else if groups[0].callIndices != [] && c in groups[0].callIndices then groups[0].callIndices[0]
    else Place(groups[1..], c)
  }

  lemma {:induction false} PlaceOf(groups: seq<FusionGroup>, n: nat, c: nat)
    requires Ordered(groups, n)
    ensures (exists g :: g in groups && c in g.callIndices && Place(groups, c) == g.callIndices[0]) ||
            (Place(groups, c) == c && forall g :: g in groups ==> c !in g.callIndices)
    ensures forall g :: g in groups && c in g.callIndices ==> Place(groups, c) == g.callIndices[0]
    ensures Place(groups, c) <= c
  {
    if groups != [] {
      var first, rest := groups[0], groups[1..];
      assert Ordered(rest, n) by {
        assert forall a :: 0 <= a < |rest| ==> rest[a] == groups[a + 1];
      }
      PlaceOf(rest, n, c);
      assert first in groups;
      if c in first.callIndices {
        var p :| 0 <= p < |first.callIndices| && first.callIndices[p] == c;
        forall g | g in groups && c in g.callIndices ensures g == first {
          var b :| 0 <= b < |groups| && groups[b] == g;
          assert c in Members(groups[0]) && c in Members(groups[b]);
        }
      }
    }
  }

  lemma {:induction false} GroupAtFinds(groups: seq<FusionGroup>, n: nat, idx: nat)
    requires Ordered(groups, n)
    ensures match GroupAt(groups, idx)
      case Some(g) => g in groups && g.callIndices[0] == idx
      case None => forall g :: g in groups ==> g.callIndices[0] != idx
  {
    if groups != [] {
      var shorter := groups[..|groups| - 1];
      assert groups == shorter + [groups[|groups| - 1]];
      assert Ordered(shorter, n) by {
        assert forall a :: 0 <= a < |shorter| ==> shorter[a] == groups[a];
      }
      GroupAtFinds(shorter, n, idx);
    }
  }

  lemma SkippedIsMoved(groups: seq<FusionGroup>, n: nat, idx: nat)
    requires Ordered(groups, n)
    ensures Skipped(groups, idx) <==> Place(groups, idx) < idx
  {
    PlaceOf(groups, n, idx);
    if Skipped(groups, idx) {
      var g :| 0 <= g < |groups| && groups[g].callIndices != [] && idx in groups[g].callIndices[1..];
      var run := groups[g].callIndices;
      var p :| 0 <= p < |run[1..]| && run[1..][p] == idx;
      assert run[0] < run[p + 1] == idx;
      assert groups[g] in groups && idx in run;
    }
    if Place(groups, idx) < idx {
      var g :| g in groups && idx in g.callIndices && Place(groups, idx) == g.callIndices[0];
      var p :| 0 <= p < |g.callIndices| && g.callIndices[p] == idx;
      assert g.callIndices[1..][p - 1] == idx;
      var a :| 0 <= a < |groups| && groups[a] == g;
      assert idx in groups[a].callIndices[1..];
    }
  }

  /** Emission sorts the calls by the place they are emitted at, then by their number. */
  predicate SortedByPlace(groups: seq<FusionGroup>, order: seq<nat>) {
    forall a, b :: 0 <= a < b < |order| ==>
      Place(groups, order[a]) < Place(groups, order[b]) ||
      (Place(groups, order[a]) == Place(groups, order[b]) && order[a] < order[b])
  }

  lemma {:induction false} EmitOrderSorts(groups: seq<FusionGroup>, n: nat, idx: nat)
    requires Ordered(groups, n)
    ensures SortedByPlace(groups, EmitOrder(groups, n, idx))
    ensures forall c: nat :: c in EmitOrder(groups, n, idx) <==> c < n && idx <= Place(groups, c)
    decreases n - idx
  {
    if idx < n {
      EmitOrderSorts(groups, n, idx + 1);
      SkippedIsMoved(groups, n, idx);
      PlaceOf(groups, n, idx);
      var rest := EmitOrder(groups, n, idx + 1);
      if !Skipped(groups, idx) {
        GroupAtFinds(groups, n, idx);
        var here := MembersAt(groups, idx);
        HereIsPlaced(groups, n, idx);
        var order := here + rest;
        assert EmitOrder(groups, n, idx) == order;
        forall a, b | 0 <= a < b < |order|
          ensures Place(groups, order[a]) < Place(groups, order[b]) ||
            (Place(groups, order[a]) == Place(groups, order[b]) && order[a] < order[b])
        {
          if a < |here| {
            assert order[a] in here;
            if b < |here| { assert order[b] in here; } else { assert order[b] in rest; }
          }
        }
      } else {
        forall c: nat ensures Place(groups, c) != idx { PlaceIsFixed(groups, n, c); }
      }
    } else {
      forall c: nat | c < n ensures Place(groups, c) < idx { PlaceOf(groups, n, c); }
    }
  }

  lemma PlaceIsFixed(groups: seq<FusionGroup>, n: nat, c: nat)
    requires Ordered(groups, n)
    ensures Place(groups, Place(groups, c)) == Place(groups, c)
  {
    PlaceOf(groups, n, c);
    PlaceOf(groups, n, Place(groups, c));
    if g :| g in groups && c in g.callIndices && Place(groups, c) == g.callIndices[0] {
      assert g.callIndices[0] in g.callIndices;
    }
  }

  lemma HereIsPlaced(groups: seq<FusionGroup>, n: nat, idx: nat)
    requires Ordered(groups, n) && idx < n && !Skipped(groups, idx)
    ensures Increasing(MembersAt(groups, idx))
    ensures forall c: nat :: c in MembersAt(groups, idx) <==> c < n && Place(groups, c) == idx
  {
    var here := MembersAt(groups, idx);
    GroupAtFinds(groups, n, idx);
    SkippedIsMoved(groups, n, idx);
    PlaceOf(groups, n, idx);
    forall c: nat ensures c in here <==> c < n && Place(groups, c) == idx {
      PlaceOf(groups, n, c);
      match GroupAt(groups, idx)
      case Some(g) =>
        assert g in groups;
        if c < n && Place(groups, c) == idx {
          if h :| h in groups && c in h.callIndices && h.callIndices[0] == idx {
            SameFirstSameGroup(groups, n, g, h);
          }
        }
      case None =>
    }
  }

  lemma SameFirstSameGroup(groups: seq<FusionGroup>, n: nat, g: FusionGroup, h: FusionGroup)
    requires Ordered(groups, n) && g in groups && h in groups && g.callIndices[0] == h.callIndices[0]
    ensures g == h
  {
    var a :| 0 <= a < |groups| && groups[a] == g;
    var b :| 0 <= b < |groups| && groups[b] == h;
    assert g.callIndices[0] in Members(groups[a]) && g.callIndices[0] in Members(groups[b]);
  }

  // ---------------------------------------------------------------------------------------------
  // Hoisting preserves the program

  /** The calls as numbered steps. */
  ghost function CallStep<C, V>(M: Machine<C, V>, calls: seq<Call>): (nat, Mem<C>) -> Mem<C> {
    (i: nat, mem: Mem<C>) => if i < |calls| then Exec(M, calls[i].root, map[], mem) else mem
  }

  lemma PlannedIsOrdered(an: seq<CallPattern>, groups: seq<FusionGroup>)
    requires SlotsDetermined(an) && Planned(an, groups)
    ensures Ordered(groups, |an|)
  {
    forall g | g in groups ensures forall k :: k in g.callIndices ==> k < |an| {
      assert ValidRun(an, g.callIndices);
    }
  }

  /** A pair the emission puts the other way round was tested by the intervening check. */
  lemma InvertedPairIsIndependent(an: seq<CallPattern>, groups: seq<FusionGroup>, i: nat, j: nat)
    requires SlotsDetermined(an) && Planned(an, groups)
    requires i < j < |an| && Place(groups, j) < Place(groups, i)
    ensures NoConflict(an[i].loads, an[i].stores, an[j].loads, an[j].stores)
  {
    PlannedIsOrdered(an, groups);
    PlaceOf(groups, |an|, i);
    PlaceOf(groups, |an|, j);
    var g :| g in groups && j in g.callIndices && Place(groups, j) == g.callIndices[0];
    var p :| 0 <= p < |g.callIndices| && g.callIndices[p] == j;
    assert PlannedGroup(an, g) && 0 < p;
    FirstPairOk(an, g.callIndices, p);
    BetweenIsIndependent(an, g.callIndices[0], i, j);
  }

  /** A call strictly between two that passed the intervening check is independent of the later one. */
  lemma BetweenIsIndependent(an: seq<CallPattern>, first: nat, mid: nat, last: nat)
    requires first < mid < last < |an| && PairOk(an, first, last)
    ensures NoConflict(an[mid].loads, an[mid].stores, an[last].loads, an[last].stores)
  {
    DisjointByMeet(an[mid].loads, an[mid].stores, an[last].loads, an[last].stores);
  }

  lemma FirstPairOk(an: seq<CallPattern>, run: seq<nat>, p: nat)
    requires ValidRun(an, run) && 0 < p < |run|
    ensures PairOk(an, run[0], run[p])
  {
  }

  lemma DisjointByMeet(loads: set<Name>, stores: set<Name>, loads': set<Name>, stores': set<Name>)
    requires stores * (loads' + stores') == {} && loads * stores' == {}
    ensures NoConflict(loads, stores, loads', stores')
  {
    assert forall t :: t in stores && t in loads' + stores' ==> t in stores * (loads' + stores');
    assert forall t :: t in loads && t in stores' ==> t in loads * stores';
  }

  lemma CallsCommute<C(!new), V(!new)>(M: Machine<C, V>, calls: seq<Call>, i: nat, j: nat)
    requires i < |calls| && j < |calls|
    requires var a, b := AnalyzeCalls(calls)[i], AnalyzeCalls(calls)[j];
      NoConflict(a.loads, a.stores, b.loads, b.stores)
    ensures Commute(CallStep(M, calls), i, j)
  {
    forall mem: Mem<C>
      ensures CallStep(M, calls)(i, CallStep(M, calls)(j, mem)) == CallStep(M, calls)(j, CallStep(M, calls)(i, mem))
    {
      SwapStatements(M, calls[i].root, calls[j].root, map[], mem);
    }
  }

  function Range(lo: nat, hi: nat): (r: seq<nat>)
    requires lo <= hi
    ensures |r| == hi - lo && forall k :: 0 <= k < |r| ==> r[k] == lo + k
    decreases hi - lo
  {
    if lo == hi then [] else [lo] + Range(lo + 1, hi)
  }

  lemma {:induction false} RunCallsIsFold<C, V>(M: Machine<C, V>, calls: seq<Call>, from: nat, mem: Mem<C>)
    requires from <= |calls|
    ensures Fold(CallStep(M, calls), Range(from, |calls|), mem) == RunCalls(M, calls[from..], mem)
    decreases |calls| - from
  {
    if from < |calls| {
      RunCallsIsFold(M, calls, from + 1, Exec(M, calls[from].root, map[], mem));
      assert calls[from..][1..] == calls[from + 1..];
      assert Range(from, |calls|)[1..] == Range(from + 1, |calls|);
    }
  }

  /** Running the calls with every group gathered at its first member gives the same memory as the
      original order, whatever the machine. */
  lemma HoistingPreserves<C(!new), V(!new)>(M: Machine<C, V>, calls: seq<Call>, groups: seq<FusionGroup>, mem: Mem<C>)
    requires var an := AnalyzeCalls(calls); SlotsDetermined(an) && Planned(an, groups)
    ensures Fold(CallStep(M, calls), EmitOrder(groups, |calls|, 0), mem) == RunCalls(M, calls, mem)
  {
    var an, n := AnalyzeCalls(calls), |calls|;
    var order, f := EmitOrder(groups, n, 0), CallStep(M, calls);
    PlannedIsOrdered(an, groups);
    EmitOrderSorts(groups, n, 0);
    forall c: nat ensures c in Range(0, n) <==> c in order {
      if c < n { assert Range(0, n)[c] == c; }
    }
    forall a, b | 0 <= a < b < |order| && order[b] < order[a] ensures Commute(f, order[b], order[a]) {
      assert order[a] in order && order[b] in order;
      InvertedPairIsIndependent(an, groups, order[b], order[a]);
      CallsCommute(M, calls, order[b], order[a]);
    }
    ReorderPreserves(f, Range(0, n), order, mem);
    RunCallsIsFold(M, calls, 0, mem);
    assert calls[0..] == calls;
  }

  // ---------------------------------------------------------------------------------------------
  // The fused nodes mean the hoisted calls

  /** Roots are spelled unambiguously with single names, and every call stores something. */
  predicate NamedCalls(calls: seq<Call>) {
    forall i :: 0 <= i < |calls| ==> NamedStmt(calls[i].root) && StmtStores(calls[i].root) != {}
  }

  lemma AnalysisDeterminesSlots(calls: seq<Call>)
    requires NamedCalls(calls)
    ensures SlotsDetermined(AnalyzeCalls(calls))
  {
    var an := AnalyzeCalls(calls);
    forall i, j | 0 <= i < |an| && 0 <= j < |an| && an[i].signature == an[j].signature
      ensures |an[i].loadSlots| == |an[j].loadSlots| && |an[i].storeSlots| == |an[j].storeSlots|
    {
      var own := (slot: nat) => "";
      SignatureLossless(calls[i].root, calls[j].root, own, own, 0);
    }
  }

  /** A call of the analysed program has the slots of its root. */
  lemma SlotsAreNamed(calls: seq<Call>, i: nat)
    requires NamedCalls(calls) && i < |calls|
    ensures var p := AnalyzeCalls(calls)[i];
      (forall x :: x in p.loadSlots ==> OneName(x)) && (forall x :: x in p.storeSlots ==> OneName(x))
  {
    SlotsNamed(calls[i].root, Slots([], []));
  }

  lemma MembersAlike(an: seq<CallPattern>, g: FusionGroup, a: nat)
    requires SlotsDetermined(an) && PlannedGroup(an, g) && a < |g.callIndices|
    ensures g.callIndices[a] < |an|
    ensures |an[g.callIndices[a]].loadSlots| == |an[g.callIndices[0]].loadSlots|
    ensures |an[g.callIndices[a]].storeSlots| == |an[g.callIndices[0]].storeSlots|
  {
    assert SameSignature(an, g.callIndices[a], g.callIndices[0]);
  }

  /** The joined load names of a group have the members' own names as components. */
  lemma GroupLoadName(calls: seq<Call>, g: FusionGroup, k: nat, slot: nat)
    requires NamedCalls(calls) && SlotsDetermined(AnalyzeCalls(calls)) && PlannedGroup(AnalyzeCalls(calls), g)
    requires k < |g.callIndices| && slot < |AnalyzeCalls(calls)[g.callIndices[k]].loadSlots|
    ensures Component(g.LoadName(slot), k) == AnalyzeCalls(calls)[g.callIndices[k]].loadSlots[slot]
  {
    var an, run := AnalyzeCalls(calls), g.callIndices;
    MembersAlike(an, g, k);
    SlotsAreNamed(calls, run[k]);
    if slot in g.exact {
      assert HasName(an[run[k]], slot, g.exact[slot]);
      SplitOne(g.exact[slot]);
    } else {
      var names := g.varying[slot];
      forall a | 0 <= a < |run| ensures OneName(names[a]) {
        MembersAlike(an, g, a);
        SlotsAreNamed(calls, run[a]);
      }
      SplitJoin(names);
    }
  }

  lemma GroupStoreName(calls: seq<Call>, g: FusionGroup, k: nat, slot: nat)
    requires NamedCalls(calls) && SlotsDetermined(AnalyzeCalls(calls)) && PlannedGroup(AnalyzeCalls(calls), g)
    requires k < |g.callIndices| && slot < |AnalyzeCalls(calls)[g.callIndices[k]].storeSlots|
    ensures |SplitNames(g.StoreName(slot))| == |g.callIndices|
    ensures Component(g.StoreName(slot), k) == AnalyzeCalls(calls)[g.callIndices[k]].storeSlots[slot]
  {
    var an, run := AnalyzeCalls(calls), g.callIndices;
    MembersAlike(an, g, k);
    var names := g.written[slot];
    forall a | 0 <= a < |run| ensures OneName(names[a]) {
      MembersAlike(an, g, a);
      SlotsAreNamed(calls, run[a]);
    }
    SplitJoin(names);
  }

  /** Fusing loses nothing: the k-th lane of the fused node is exactly the k-th member's root. */
  lemma FusedNodeLossless(calls: seq<Call>, g: FusionGroup, k: nat)
    requires NamedCalls(calls) && SlotsDetermined(AnalyzeCalls(calls)) && PlannedGroup(AnalyzeCalls(calls), g)
    requires k < |g.callIndices|
    ensures Lane(GroupRoot(calls[g.callIndices[0]].root, g), k) == calls[g.callIndices[k]].root
  {
    var an, run := AnalyzeCalls(calls), g.callIndices;
    assert SameSignature(an, run[k], run[0]);
    var p := an[run[k]];
    forall slot | 0 <= slot < |p.loadSlots| ensures Component(g.LoadName(slot), k) == p.loadSlots[slot] {
      GroupLoadName(calls, g, k, slot);
    }
    forall slot | 0 <= slot < |p.storeSlots| ensures Component(g.StoreName(slot), k) == p.storeSlots[slot] {
      GroupStoreName(calls, g, k, slot);
    }
    SignatureLossless(calls[run[0]].root, calls[run[k]].root, (slot: nat) => g.LoadName(slot),
      (slot: nat) => g.StoreName(slot), k);
  }

  /** Every node's width: 1 for an ordinary root, w where every store slot has w names. */
  lemma {:induction false} RewriteWidth(s: Stmt, st: Slots, rdNames: nat -> Name, wrNames: nat -> Name, w: nat,
      final: nat)
    requires w >= 1 && |SlotsAfter(s, st).wr| <= final
    requires forall slot :: 0 <= slot < final ==> |SplitNames(wrNames(slot))| == w
    ensures Width(Rewrite(s, st, rdNames, wrNames)) == if StmtStores(s) == {} then 0 else w
    decreases s, 1
  {
    match s
    case Store(t, _, _) => assert t in StmtStores(s); SlotStep(st.wr, t, st.wr, t);
    case Loop(_, _, _, _, b) => RewriteWidth(b, st, rdNames, wrNames, w, final);
    case Seq(l, r) =>
      SlotsGrow(r, SlotsAfter(l, st));
      RewriteWidth(l, st, rdNames, wrNames, w, final);
      RewriteWidth(r, SlotsAfter(l, st), rdNames, wrNames, w, final);
    case Block(ss) => RewriteWidthAll(ss, st, rdNames, wrNames, w, final);
  }

  lemma {:induction false} RewriteWidthAll(ss: seq<Stmt>, st: Slots, rdNames: nat -> Name, wrNames: nat -> Name, w: nat,
      final: nat)
    requires w >= 1 && |SlotsAfterAll(ss, st).wr| <= final
    requires forall slot :: 0 <= slot < final ==> |SplitNames(wrNames(slot))| == w
    ensures WidthAll(RewriteAll(ss, st, rdNames, wrNames)) == if StmtStores(Block(ss)) == {} then 0 else w
    decreases ss, 0
  {
    if ss != [] {
      SlotsGrowAll(ss[1..], SlotsAfter(ss[0], st));
      RewriteWidth(ss[0], st, rdNames, wrNames, w, final);
      RewriteWidthAll(ss[1..], SlotsAfter(ss[0], st), rdNames, wrNames, w, final);
      BlockStores(ss);
      assert RewriteAll(ss, st, rdNames, wrNames)[1..] == RewriteAll(ss[1..], SlotsAfter(ss[0], st), rdNames, wrNames);
    }
  }

  lemma BlockStores(ss: seq<Stmt>)
    requires ss != []
    ensures StmtStores(Block(ss)) == StmtStores(ss[0]) + StmtStores(Block(ss[1..]))
  {
    assert forall c :: c in ss <==> c == ss[0] || c in ss[1..];
  }

  /** A root whose names are not joined is its own only member. */
  lemma {:induction false} PlainNode(s: Stmt)
    requires NamedStmt(s)
    ensures Lane(s, 0) == s && Width(s) == if StmtStores(s) == {} then 0 else 1
    decreases s, 1
  {
    match s
    case Store(t, v, _) =>
      SplitOne(t);
      PlainExpr(v);
      assert t in StmtStores(s);
    case Loop(_, _, _, _, b) => PlainNode(b);
    case Seq(l, r) => PlainNode(l); PlainNode(r);
    case Block(ss) => PlainNodes(ss);
  }

  lemma {:induction false} PlainNodes(ss: seq<Stmt>)
    requires forall c :: c in ss ==> NamedStmt(c)
    ensures LaneAll(ss, 0) == ss && WidthAll(ss) == if StmtStores(Block(ss)) == {} then 0 else 1
    decreases ss, 0
  {
    if ss != [] {
      PlainNode(ss[0]);
      PlainNodes(ss[1..]);
      BlockStores(ss);
    }
  }

  lemma {:induction false} PlainExpr(e: Expr)
    requires NamedExpr(e)
    ensures LaneExpr(e, 0) == e
    decreases e, 1
  {
    match e
    case Load(t, _) => SplitOne(t);
    case Const(_) =>
    case Arange(_) =>
    case Op(_, args) => PlainExprs(args);
  }

  lemma {:induction false} PlainExprs(args: seq<Expr>)
    requires forall a :: a in args ==> NamedExpr(a)
    ensures LaneExprs(args, 0) == args
    decreases args, 0
  {
    if args != [] {
      PlainExpr(args[0]);
      PlainExprs(args[1..]);
    }
  }

  /** A fused node runs its members in order. */
  lemma {:induction false} LanesRunMembers<C, V>(M: Machine<C, V>, calls: seq<Call>, g: FusionGroup, k: nat,
      mem: Mem<C>)
    requires NamedCalls(calls) && SlotsDetermined(AnalyzeCalls(calls)) && PlannedGroup(AnalyzeCalls(calls), g)
    requires k <= |g.callIndices|
    requires Width(GroupRoot(calls[g.callIndices[0]].root, g)) == |g.callIndices|
    ensures RunLanes(M, GroupRoot(calls[g.callIndices[0]].root, g), k, mem) ==
      Fold(CallStep(M, calls), g.callIndices[k..], mem)
    decreases |g.callIndices| - k
  {
    if k < |g.callIndices| {
      FusedNodeLossless(calls, g, k);
      MembersAlike(AnalyzeCalls(calls), g, k);
      LanesRunMembers(M, calls, g, k + 1, Exec(M, calls[g.callIndices[k]].root, map[], mem));
      assert g.callIndices[k..][1..] == g.callIndices[k + 1..];
    }
  }

  lemma GroupWidth(calls: seq<Call>, g: FusionGroup)
    requires NamedCalls(calls) && SlotsDetermined(AnalyzeCalls(calls)) && PlannedGroup(AnalyzeCalls(calls), g)
    ensures var root := calls[g.callIndices[0]].root;
      Width(GroupRoot(root, g)) == if StmtStores(root) == {} then 0 else |g.callIndices|
  {
    var p := AnalyzeCalls(calls)[g.callIndices[0]];
    forall slot | 0 <= slot < |p.storeSlots| ensures |SplitNames(g.StoreName(slot))| == |g.callIndices| {
      GroupStoreName(calls, g, 0, slot);
    }
    RewriteWidth(calls[g.callIndices[0]].root, Slots([], []), (slot: nat) => g.LoadName(slot),
      (slot: nat) => g.StoreName(slot), |g.callIndices|, |p.storeSlots|);
  }

  lemma GroupNodeRuns<C, V>(M: Machine<C, V>, calls: seq<Call>, g: FusionGroup, mem: Mem<C>)
    requires NamedCalls(calls) && SlotsDetermined(AnalyzeCalls(calls)) && PlannedGroup(AnalyzeCalls(calls), g)
    ensures RunLanes(M, GroupRoot(calls[g.callIndices[0]].root, g), 0, mem) ==
      Fold(CallStep(M, calls), g.callIndices, mem)
  {
    GroupWidth(calls, g);
    LanesRunMembers(M, calls, g, 0, mem);
    assert g.callIndices[0..] == g.callIndices;
  }

  lemma PlainNodeRuns<C, V>(M: Machine<C, V>, calls: seq<Call>, idx: nat, mem: Mem<C>)
    requires NamedCalls(calls) && idx < |calls|
    ensures RunLanes(M, calls[idx].root, 0, mem) == Fold(CallStep(M, calls), [idx], mem)
  {
    var mem' := Exec(M, calls[idx].root, map[], mem);
    PlainNode(calls[idx].root);
    assert RunLanes(M, calls[idx].root, 0, mem) == RunLanes(M, calls[idx].root, 1, mem') == mem';
    assert Fold(CallStep(M, calls), [idx], mem) == Fold(CallStep(M, calls), [idx][1..], mem');
  }

  lemma NodeRunsMembers<C, V>(M: Machine<C, V>, calls: seq<Call>, groups: seq<FusionGroup>, idx: nat, mem: Mem<C>)
    requires NamedCalls(calls) && SlotsDetermined(AnalyzeCalls(calls)) && Planned(AnalyzeCalls(calls), groups)
    requires idx < |calls|
    ensures RunLanes(M, NodeAt(calls, groups, idx), 0, mem) == Fold(CallStep(M, calls), MembersAt(groups, idx), mem)
  {
    PlannedIsOrdered(AnalyzeCalls(calls), groups);
    GroupAtFinds(groups, |calls|, idx);
    match GroupAt(groups, idx)
    case Some(g) => GroupNodeRuns(M, calls, g, mem);
    case None => PlainNodeRuns(M, calls, idx, mem);
  }

  lemma RunFirstNode<C, V>(M: Machine<C, V>, node: Stmt, rest: seq<Stmt>, mem: Mem<C>)
    ensures RunNodes(M, [node] + rest, mem) == RunNodes(M, rest, RunLanes(M, node, 0, mem))
  {
    assert ([node] + rest)[1..] == rest;
  }

  lemma EmitStep<C, V>(M: Machine<C, V>, calls: seq<Call>, groups: seq<FusionGroup>, idx: nat, mem: Mem<C>)
    requires idx < |calls| && !Skipped(groups, idx)
    ensures RunNodes(M, Emit(calls, groups, idx), mem) ==
      RunNodes(M, Emit(calls, groups, idx + 1), RunLanes(M, NodeAt(calls, groups, idx), 0, mem))
  {
    RunFirstNode(M, NodeAt(calls, groups, idx), Emit(calls, groups, idx + 1), mem);
  }

  lemma OrderStep<S>(f: (nat, S) -> S, groups: seq<FusionGroup>, n: nat, idx: nat, s: S)
    requires idx < n && !Skipped(groups, idx)
    ensures Fold(f, EmitOrder(groups, n, idx), s) ==
      Fold(f, EmitOrder(groups, n, idx + 1), Fold(f, MembersAt(groups, idx), s))
  {
    FoldAppend(f, MembersAt(groups, idx), EmitOrder(groups, n, idx + 1), s);
  }

  /** Every emitted node runs as a step function says its members run. */
  ghost predicate NodesRun<C(!new), V(!new)>(M: Machine<C, V>, calls: seq<Call>, groups: seq<FusionGroup>,
      f: (nat, Mem<C>) -> Mem<C>)
  {
    forall idx: nat, mem: Mem<C> :: idx < |calls| ==>
      RunLanes(M, NodeAt(calls, groups, idx), 0, mem) == Fold(f, MembersAt(groups, idx), mem)
  }

  lemma {:induction false} EmitRunsOrder<C(!new), V(!new)>(M: Machine<C, V>, calls: seq<Call>, groups: seq<FusionGroup>,
      f: (nat, Mem<C>) -> Mem<C>, idx: nat, mem: Mem<C>)
    requires NodesRun(M, calls, groups, f)
    ensures RunNodes(M, Emit(calls, groups, idx), mem) == Fold(f, EmitOrder(groups, |calls|, idx), mem)
    decreases |calls| - idx
  {
    if idx < |calls| {
      if Skipped(groups, idx) {
        EmitRunsOrder(M, calls, groups, f, idx + 1, mem);
      } else {
        EmitRunsOrder(M, calls, groups, f, idx + 1, Fold(f, MembersAt(groups, idx), mem));
        EmitStep(M, calls, groups, idx, mem);
        OrderStep(f, groups, |calls|, idx, mem);
      }
    }
  }

  /** End to end: analysing a program, planning its groups and emitting the fused nodes gives nodes
      that run to the same memory as the calls, on every machine and every memory. */
  lemma FusedProgramPreserves<C(!new), V(!new)>(M: Machine<C, V>, calls: seq<Call>, mem: Mem<C>)
    requires NamedCalls(calls)
    ensures SlotsDetermined(AnalyzeCalls(calls))
    ensures RunNodes(M, Emit(calls, Plan(AnalyzeCalls(calls), 0, {}), 0), mem) == RunCalls(M, calls, mem)
  {
    var an := AnalyzeCalls(calls);
    AnalysisDeterminesSlots(calls);
    PlanIsPlanned(an, 0, {});
    forall idx: nat, m: Mem<C> | idx < |calls|
      ensures RunLanes(M, NodeAt(calls, Plan(an, 0, {}), idx), 0, m) ==
        Fold(CallStep(M, calls), MembersAt(Plan(an, 0, {}), idx), m)
    {
      NodeRunsMembers(M, calls, Plan(an, 0, {}), idx, m);
    }
    EmitRunsOrder(M, calls, Plan(an, 0, {}), CallStep(M, calls), 0, mem);
    HoistingPreserves(M, calls, Plan(an, 0, {}), mem);
  }
}
