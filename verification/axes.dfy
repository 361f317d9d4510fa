/** Normalising loop variables across calls (frontend/utils/ir_utils.py, normalize_main_func_axes). */
module Axes {
  import opened Ast
  import opened LoopNames
  import opened Text
  import opened Machines

  // ---------------------------------------------------------------------------------------------
  // What is known of an axis of a call

  type Access = map<Name, set<nat>>

  datatype Range = Range(lo: Option<int>, hi: Option<int>)

  datatype Facts = Facts(access: Access, range: Range, tile: Option<string>)

  predicate AtomUses(a: Atom, key: Name) {
    match a
    case Tile(n) => Clean(n) == key
    case TileOffset(n, _) => Clean(n) == key
    case _ => false
  }

  function IndexUses(t: Name, ix: Index, key: Name): set<(Name, nat)> {
    set d: nat | d < |ix| && AtomUses(ix[d], key) :: (t, d)
  }

  /** The tensor dimensions a tile of the axis addresses in loads; the analysis does not look under
      Max, Min and Permute3. */
  function ExprUses(e: Expr, key: Name): set<(Name, nat)> {
    match e
    case Load(t, ix) => IndexUses(t, ix, key)
    case Op(op, args) =>
      if op.Max? || op.Min? || op.Permute3? then {} else set a, u | a in args && u in ExprUses(a, key) :: u
    case _ => {}
  }

  function StmtUses(s: Stmt, key: Name): set<(Name, nat)> {
    match s
    case Store(t, v, ix) => IndexUses(t, ix, key) + ExprUses(v, key)
    case Loop(_, _, _, _, b) => StmtUses(b, key)
    case Seq(l, r) => StmtUses(l, key) + StmtUses(r, key)
    case Block(ss) => set c, u | c in ss && u in StmtUses(c, key) :: u
  }

  function AccessOf(s: Stmt, key: Name): Access {
    var uses := StmtUses(s, key);
    map t | t in Addressed(uses) :: DimsOf(uses, t)
  }

  function Addressed(uses: set<(Name, nat)>): set<Name> { set u | u in uses :: u.0 }

  function DimsOf(uses: set<(Name, nat)>, t: Name): set<nat> { set u | u in uses && u.0 == t :: u.1 }

  function LoopsOf(s: Stmt): seq<Stmt> {
    match s
    case Store(_, _, _) => []
    case Loop(_, _, _, _, b) => [s] + LoopsOf(b)
    case Seq(l, r) => LoopsOf(l) + LoopsOf(r)
    case Block(ss) => LoopsOfAll(ss)
  }

  function LoopsOfAll(ss: seq<Stmt>): seq<Stmt>
    decreases ss
  {
    if ss == [] then [] else LoopsOf(ss[0]) + LoopsOfAll(ss[1..])
  }

  function BoundInt(b: Bound): Option<int> { if b.Num? then Some(b.n) else None }

  /** Range and tile of the last loop over the axis. */
  function LastLoop(loops: seq<Stmt>, key: Name): (Range, Option<string>) {
    if loops == [] then (Range(None, None), None)
    else
      var l := loops[|loops| - 1];
      if l.Loop? && Clean(l.loopVar) == key then (Range(BoundInt(l.start), BoundInt(l.end)), Some(l.tile))
      else LastLoop(loops[..|loops| - 1], key)
  }

  function FactsOf(s: Stmt, key: Name): Facts {
    var last := LastLoop(LoopsOf(s), key);
    Facts(AccessOf(s, key), last.0, last.1)
  }

  function Outermost(s: Stmt): Option<Name> {
    match s
    case Loop(_, _, _, x, _) => Some(Clean(x))
    case Seq(l, _) => Outermost(l)
    case Block(ss) => if ss == [] then None else Outermost(ss[0])
    case _ => None
  }

  // ---------------------------------------------------------------------------------------------
  // Canonical groups

  datatype Group = Group(name: Name, access: Access, ranges: set<Range>, tiles: set<Option<string>>, outer: nat)

  predicate AllDigits(s: string) { s != [] && forall c :: c in s ==> '0' <= c <= '9' }

  predicate IsTileConstant(tile: string) {
    AllDigits(tile) || (|tile| >= 5 && tile[..5] == "tile_" && AllDigits(tile[5..]))
  }

  predicate TileCompatible(tile: Option<string>, tiles: set<Option<string>>) {
    match tile
    case None => None in tiles
    case Some(t) =>
      if IsTileConstant(t) then tile in tiles || exists u :: u in tiles && u.Some? && !IsTileConstant(u.value)
      else exists u :: u in tiles && u.Some?
  }

  predicate AccessCompatible(a: Access, g: Access) {
    forall t :: t in a && t in g ==> a[t] == g[t]
  }

  predicate Compatible(g: Group, f: Facts) {
    f.range in g.ranges && TileCompatible(f.tile, g.tiles) && AccessCompatible(f.access, g.access)
  }

  function Score(g: Group, f: Facts): nat { |f.access.Keys * g.access.Keys| }

  /** How a group rates for an axis: shared tensors first, then how often it was outermost. */
  datatype Rank = No | Rank(score: nat, outer: nat)
  {
    predicate Above(r: Rank) { Rank? && (r.No? || score > r.score || (score == r.score && outer > r.outer)) }
  }

  function RankOf(g: Group, f: Facts): Rank {
    if Compatible(g, f) then Rank(Score(g, f), g.outer) else No
  }

  function Ranks(groups: seq<Group>, f: Facts): (r: seq<Rank>)
    ensures |r| == |groups|
  {
    seq(|groups|, k requires 0 <= k < |groups| => RankOf(groups[k], f))
  }

  /** Position b is the first of the highest among the first n. */
  predicate FirstHighest(ranks: seq<Rank>, n: nat, b: nat)
    requires n <= |ranks|
  {
    && b < n && ranks[b].Rank?
    && (forall k :: 0 <= k < n ==> !ranks[k].Above(ranks[b]))
    && (forall k :: 0 <= k < b ==> ranks[b].Above(ranks[k]))
  }

  function Highest(ranks: seq<Rank>, n: nat): (r: Option<nat>)
    requires n <= |ranks|
    ensures r.Some? ==> r.value < n
  {
    if n == 0 then None
    else
      var r := Highest(ranks, n - 1);
      if ranks[n - 1].Rank? && (r.None? || ranks[n - 1].Above(ranks[r.value])) then Some(n - 1) else r
  }

  lemma {:induction false} HighestIsHighest(ranks: seq<Rank>, n: nat)
    requires n <= |ranks|
    ensures match Highest(ranks, n)
            case Some(b) => FirstHighest(ranks, n, b)
            case None => forall k :: 0 <= k < n ==> ranks[k].No?
  {
    if n > 0 { HighestIsHighest(ranks, n - 1); }
  }

  lemma HighestIsOnly(ranks: seq<Rank>, b: nat)
    requires FirstHighest(ranks, |ranks|, b)
    ensures Highest(ranks, |ranks|) == Some(b)
  {
    HighestIsHighest(ranks, |ranks|);
  }

  /** The group chosen for an axis is compatible with it. */
  lemma BestIsCompatible(groups: seq<Group>, f: Facts)
    ensures match Best(groups, f)
            case Some(b) => Compatible(groups[b], f)
            case None => forall k :: 0 <= k < |groups| ==> !Compatible(groups[k], f)
  {
    var ranks := Ranks(groups, f);
    HighestIsHighest(ranks, |groups|);
    if Best(groups, f).None? {
      forall k | 0 <= k < |groups| ensures !Compatible(groups[k], f) { assert ranks[k] == RankOf(groups[k], f); }
    }
  }

  function Best(groups: seq<Group>, f: Facts): (r: Option<nat>)
    ensures r.Some? ==> r.value < |groups|
  {
    Highest(Ranks(groups, f), |groups|)
  }

  function MergeAccess(g: Access, a: Access): Access {
    map t | t in g.Keys + a.Keys :: if t in g then g[t] else a[t]
  }

  function JoinGroup(g: Group, f: Facts, outer: nat): Group {
    Group(g.name, MergeAccess(g.access, f.access), g.ranges + {f.range}, g.tiles + {f.tile}, g.outer + outer)
  }

  // ---------------------------------------------------------------------------------------------
  // Names

  /** The letters i to z come first. */
  const LETTERS := 18

  function PoolName(k: nat): Name {
    if k < LETTERS then [('i' as int + k) as char] else "a" + NatText(k)
  }

  lemma PoolLength(k: nat)
    ensures |PoolName(k)| == 1 <==> k < LETTERS
  {
  }

  lemma PoolNameInjective(j: nat, k: nat)
    requires PoolName(j) == PoolName(k)
    ensures j == k
  {
    if j >= LETTERS && k >= LETTERS {
      assert PoolName(j)[1..] == NatText(j) && PoolName(k)[1..] == NatText(k);
      NatTextInjective(j, k);
    } else if j < LETTERS && k < LETTERS {
      assert PoolName(j)[0] == ('i' as int + j) as char && PoolName(k)[0] == ('i' as int + k) as char;
    } else {
      PoolLength(j);
      PoolLength(k);
    }
  }

  /** The groups made so far, the next number to name one by, and the supply of names. */
  datatype Table = Table(groups: seq<Group>, next: nat, supply: nat -> Name)

  predicate Taken(groups: seq<Group>, name: Name) { exists g :: g in groups && g.name == name }

  function SkipTaken(tb: Table, k: nat): (r: nat)
    decreases LETTERS - k
  {
    if k < LETTERS && Taken(tb.groups, tb.supply(k)) then SkipTaken(tb, k + 1) else k
  }

  /** A supply of clean names that never repeats itself. */
  ghost predicate Supplies(supply: nat -> Name) {
    (forall j: nat, k: nat :: supply(j) == supply(k) ==> j == k) && forall k: nat :: Clean(supply(k)) == supply(k)
  }

  lemma PoolSupplies()
    ensures Supplies(PoolName)
  {
    forall j: nat, k: nat | PoolName(j) == PoolName(k) ensures j == k { PoolNameInjective(j, k); }
    forall k: nat ensures Clean(PoolName(k)) == PoolName(k) {
      PoolLength(k);
      assert |PoolName(k)| >= 2 ==> PoolName(k)[..2][0] == 'a';
    }
  }

  /** Groups are named in the order they are made. */
  ghost predicate TableOk(tb: Table) {
    Supplies(tb.supply) && |tb.groups| == tb.next && forall k :: 0 <= k < |tb.groups| ==>
      tb.groups[k].name == tb.supply(k)
  }

  datatype Assigned = Assigned(table: Table, group: nat)

  /** One axis joins the best compatible group, or founds one. */
  function Assign(tb: Table, f: Facts, outer: nat): (r: Assigned)
    ensures r.group < |r.table.groups|
  {
    var best := Best(tb.groups, f);
    match best
    case Some(b) => Assigned(tb.(groups := tb.groups[b := JoinGroup(tb.groups[b], f, outer)]), b)
    case None =>
      var k := SkipTaken(tb, tb.next);
      Assigned(Table(tb.groups + [Group(tb.supply(k), f.access, {f.range}, {f.tile}, outer)], k + 1, tb.supply),
        |tb.groups|)
  }

  lemma NoneTaken(tb: Table)
    requires TableOk(tb)
    ensures SkipTaken(tb, tb.next) == tb.next
  {
    forall g | g in tb.groups ensures g.name != tb.supply(tb.next) {
      var k :| 0 <= k < |tb.groups| && tb.groups[k] == g;
      assert g.name == tb.supply(k);
    }
  }

  lemma AssignOk(tb: Table, f: Facts, outer: nat)
    requires TableOk(tb)
    ensures TableOk(Assign(tb, f, outer).table)
  {
    NoneTaken(tb);
    var groups := Assign(tb, f, outer).table.groups;
    forall k | 0 <= k < |groups| ensures groups[k].name == tb.supply(k) {
      if k < |tb.groups| { assert tb.groups[k].name == tb.supply(k); }
    }
  }

  // ---------------------------------------------------------------------------------------------
  // Why an axis keeps its group

  /** A group that an axis with these facts has joined. */
  predicate Holds(g: Group, f: Facts) {
    && f.range in g.ranges && f.tile in g.tiles
    && forall t :: t in f.access ==> t in g.access && g.access[t] == f.access[t]
  }

  lemma HoldsCompatible(g: Group, f: Facts)
    requires Holds(g, f)
    ensures Compatible(g, f) && Score(g, f) == |f.access.Keys|
  {
    assert f.access.Keys * g.access.Keys == f.access.Keys;
  }

  lemma ScoreBound(g: Group, f: Facts)
    ensures Score(g, f) <= |f.access.Keys|
  {
    var both := f.access.Keys * g.access.Keys;
    assert f.access.Keys == both + (f.access.Keys - both);
  }

  /** Two axes address some common tensor in different dimensions. */
  predicate Clash(f: Facts, h: Facts) {
    exists t :: t in f.access && t in h.access && f.access[t] != h.access[t]
  }

  lemma ClashIncompatible(g: Group, f: Facts, h: Facts)
    requires Holds(g, f) && Clash(f, h)
    ensures !Compatible(g, h) && !Holds(g, h)
  {
    var t :| t in f.access && t in h.access && f.access[t] != h.access[t];
    assert t in g.access && g.access[t] == f.access[t];
  }

  /** The axis has joined a group and would choose it again. */
  predicate Settled(groups: seq<Group>, f: Facts) {
    var b := Best(groups, f);
    b.Some? && Holds(groups[b.value], f)
  }

  /** An axis that has been assigned is settled in the group it got. */
  lemma AssignSettles(tb: Table, f: Facts, outer: nat)
    ensures var r := Assign(tb, f, outer);
            Settled(r.table.groups, f) && Best(r.table.groups, f) == Some(r.group)
  {
    var r := Assign(tb, f, outer);
    var groups, g := r.table.groups, r.table.groups[r.group];
    BestIsCompatible(tb.groups, f);
    assert Holds(g, f);
    HoldsCompatible(g, f);
    var ranks := Ranks(groups, f);
    AssignedIsHighest(tb, f, outer);
    HighestIsOnly(ranks, r.group);
  }

  lemma AssignedIsHighest(tb: Table, f: Facts, outer: nat)
    requires var r := Assign(tb, f, outer); Holds(r.table.groups[r.group], f)
    ensures var r := Assign(tb, f, outer); FirstHighest(Ranks(r.table.groups, f), |r.table.groups|, r.group)
  {
    var r := Assign(tb, f, outer);
    HoldsCompatible(r.table.groups[r.group], f);
    forall k | 0 <= k < |r.table.groups| && k != r.group
      ensures !Ranks(r.table.groups, f)[k].Above(Ranks(r.table.groups, f)[r.group])
      ensures k < r.group ==> Ranks(r.table.groups, f)[r.group].Above(Ranks(r.table.groups, f)[k])
    {
      OthersBelow(tb, f, outer, k);
    }
  }

  /** The group an axis gets is rated above all others. */
  lemma OthersBelow(tb: Table, f: Facts, outer: nat, k: nat)
    requires var r := Assign(tb, f, outer); k < |r.table.groups| && k != r.group && Holds(r.table.groups[r.group], f)
    ensures var r := Assign(tb, f, outer);
            var ranks := Ranks(r.table.groups, f);
            !ranks[k].Above(ranks[r.group]) && (k < r.group ==> ranks[r.group].Above(ranks[k]))
  {
    var r := Assign(tb, f, outer);
    var ranks, before := Ranks(r.table.groups, f), Ranks(tb.groups, f);
    HighestIsHighest(before, |before|);
    BestIsCompatible(tb.groups, f);
    HoldsCompatible(r.table.groups[r.group], f);
    assert r.table.groups[k] == tb.groups[k] && ranks[k] == before[k];
    ScoreBound(tb.groups[k], f);
    if r.group < |tb.groups| {
      ScoreBound(tb.groups[r.group], f);
      assert FirstHighest(before, |before|, r.group);
    }
  }

  /** Assigning an axis that clashes with a settled one leaves the settled one where it is. */
  lemma AssignKeeps(tb: Table, f: Facts, outer: nat, h: Facts)
    requires Settled(tb.groups, h) && Clash(f, h)
    ensures var groups := Assign(tb, f, outer).table.groups;
            Settled(groups, h) && Best(groups, h) == Best(tb.groups, h) &&
            Assign(tb, f, outer).group != Best(tb.groups, h).value
  {
    var r := Assign(tb, f, outer);
    var groups, b := r.table.groups, Best(tb.groups, h).value;
    AssignSettles(tb, f, outer);
    ClashIncompatible(groups[r.group], f, h);
    assert Clash(h, f);
    ClashIncompatible(tb.groups[b], h, f);
    assert r.group != b;
    assert groups[b] == tb.groups[b];
    var ranks, before := Ranks(groups, h), Ranks(tb.groups, h);
    HighestIsHighest(before, |before|);
    assert FirstHighest(before, |before|, b);
    forall k | 0 <= k < |groups| ensures !ranks[k].Above(ranks[b]) && (k < b ==> ranks[b].Above(ranks[k])) {
      if k != r.group { assert groups[k] == tb.groups[k] && ranks[k] == before[k]; }
    }
    HighestIsOnly(ranks, b);
  }

  /** A group never stops agreeing with an axis that joined it. */
  lemma AssignNeverForgets(tb: Table, f: Facts, outer: nat, k: nat, h: Facts)
    requires k < |tb.groups| && Holds(tb.groups[k], h)
    ensures var r := Assign(tb, f, outer);
            k < |r.table.groups| && Holds(r.table.groups[k], h) && r.table.groups[k].name == tb.groups[k].name
  {
  }

  // ---------------------------------------------------------------------------------------------
  // The axes of one call

  function Dedup(xs: seq<Name>): (r: seq<Name>)
    ensures forall x :: x in r <==> x in xs
  {
    if xs == [] then []
    else
      var r, last := Dedup(xs[..|xs| - 1]), xs[|xs| - 1];
      if last in r then r else r + [last]
  }

  function VarOf(l: Stmt): Name { if l.Loop? then l.loopVar else "" }

  function AllAxes(spatial: seq<Name>, root: Stmt): seq<Name> {
    var loops := LoopsOf(root);
    Dedup(spatial + seq(|loops|, k requires 0 <= k < |loops| => VarOf(loops[k])))
  }

  datatype Naming = Naming(table: Table, renames: map<Name, Name>)

  /** What the pass knows of a call: its axes' facts and its outermost axis. */
  datatype Known = Known(facts: Name -> Facts, outermost: Option<Name>)

  function KnownOf(root: Stmt): Known { Known(key => FactsOf(root, key), Outermost(root)) }

  function OuterCount(kn: Known, key: Name): nat { if kn.outermost == Some(key) then 1 else 0 }

  function NameAxis(nm: Naming, kn: Known, axis: Name): (r: Naming)
    ensures r.renames.Keys == nm.renames.Keys + {axis, Clean(axis)}
  {
    var key := Clean(axis);
    var r := Assign(nm.table, kn.facts(key), OuterCount(kn, key));
    var name := r.table.groups[r.group].name;
    Naming(r.table, nm.renames[axis := name][key := name])
  }

  type Step = (Naming, Name) -> Naming

  function NamingStep(kn: Known): Step { (nm, axis) => NameAxis(nm, kn, axis) }

  /** The first k axes, one after the other. */
  function NameEach(step: Step, nm: Naming, axes: seq<Name>, k: nat): Naming
    requires k <= |axes|
  {
    if k == 0 then nm else step(NameEach(step, nm, axes, k - 1), axes[k - 1])
  }

  function NameAxes(nm: Naming, kn: Known, axes: seq<Name>, k: nat): Naming
    requires k <= |axes|
  {
    NameEach(NamingStep(kn), nm, axes, k)
  }

  /** What every step keeps holds after all of them. */
  lemma {:induction false} EachKeeps(step: Step, nm: Naming, axes: seq<Name>, k: nat, kept: Naming -> bool)
    requires k <= |axes| && kept(nm)
    requires forall m: Naming, j: nat :: j < |axes| && kept(m) ==> kept(step(m, axes[j]))
    ensures kept(NameEach(step, nm, axes, k))
  {
    if k > 0 { EachKeeps(step, nm, axes, k - 1, kept); }
  }

  /** The name is that of the group its axis is settled in. */
  predicate NamedWell(nm: Naming, kn: Known, n: Name)
    requires n in nm.renames
  {
    var f := kn.facts(Clean(n));
    Settled(nm.table.groups, f) && nm.renames[n] == nm.table.groups[Best(nm.table.groups, f).value].name
  }

  ghost predicate AllNamed(nm: Naming, kn: Known, keys: set<Name>) {
    TableOk(nm.table) && forall n :: n in nm.renames ==> Clean(n) in keys && NamedWell(nm, kn, n)
  }

  /** Different axes of the call address some common tensor in different dimensions. */
  predicate AxesClash(kn: Known, keys: set<Name>) {
    forall x, y :: x in keys && y in keys && x != y ==> Clash(kn.facts(x), kn.facts(y))
  }

  function Keys(axes: seq<Name>): set<Name> { set a | a in axes :: Clean(a) }

  lemma NameAxisKeeps(nm: Naming, kn: Known, axis: Name, keys: set<Name>)
    requires AllNamed(nm, kn, keys) && AxesClash(kn, keys) && Clean(axis) in keys && PlainName(axis)
    ensures AllNamed(NameAxis(nm, kn, axis), kn, keys)
  {
    var key, nm' := Clean(axis), NameAxis(nm, kn, axis);
    var f := kn.facts(key);
    var r := Assign(nm.table, f, OuterCount(kn, key));
    AssignOk(nm.table, f, OuterCount(kn, key));
    AssignSettles(nm.table, f, OuterCount(kn, key));
    forall n | n in nm'.renames ensures Clean(n) in keys && NamedWell(nm', kn, n) {
      if n != axis && n != key {
        assert NamedWell(nm, kn, n);
        var h := kn.facts(Clean(n));
        if Clean(n) != key {
          assert Clash(f, h);
          AssignKeeps(nm.table, f, OuterCount(kn, key), h);
        }
      }
    }
  }

  lemma KeyOf(axes: seq<Name>, k: nat)
    requires k < |axes|
    ensures Clean(axes[k]) in Keys(axes)
  {
  }

  lemma NameAxesKeep(nm: Naming, kn: Known, axes: seq<Name>, k: nat)
    requires k <= |axes| && AllNamed(nm, kn, Keys(axes)) && AxesClash(kn, Keys(axes)) && forall j :: 0 <= j < |axes| ==>
      PlainName(axes[j])
    ensures AllNamed(NameAxes(nm, kn, axes, k), kn, Keys(axes))
  {
    ghost var kept := (m: Naming) => AllNamed(m, kn, Keys(axes));
    forall m: Naming, j: nat | j < |axes| && kept(m) ensures kept(NamingStep(kn)(m, axes[j])) {
      KeyOf(axes, j);
      NameAxisKeeps(m, kn, axes[j], Keys(axes));
    }
    EachKeeps(NamingStep(kn), nm, axes, k, kept);
  }

  /** So it agrees with every axis that ever joined it, through any number of later axes. */
  lemma GroupsNeverForget(nm: Naming, kn: Known, axes: seq<Name>, n: nat, k: nat, h: Facts)
    requires n <= |axes| && k < |nm.table.groups| && Holds(nm.table.groups[k], h)
    ensures var groups := NameAxes(nm, kn, axes, n).table.groups;
            k < |groups| && Holds(groups[k], h) && groups[k].name == nm.table.groups[k].name
  {
    ghost var kept := (m: Naming) => k < |m.table.groups| && Holds(m.table.groups[k], h) &&
      m.table.groups[k].name == nm.table.groups[k].name;
    forall m: Naming, j: nat | j < |axes| && kept(m) ensures kept(NamingStep(kn)(m, axes[j])) {
      AxisNeverForgets(m, kn, axes[j], k, h);
    }
    EachKeeps(NamingStep(kn), nm, axes, n, kept);
  }

  lemma AxisNeverForgets(nm: Naming, kn: Known, axis: Name, k: nat, h: Facts)
    requires k < |nm.table.groups| && Holds(nm.table.groups[k], h)
    ensures var groups := NameAxis(nm, kn, axis).table.groups;
            k < |groups| && Holds(groups[k], h) && groups[k].name == nm.table.groups[k].name
  {
    var key := Clean(axis);
    AssignNeverForgets(nm.table, kn.facts(key), OuterCount(kn, key), k, h);
  }

  ghost predicate RecordsNames(step: Step) {
    forall m: Naming, a: Name :: step(m, a).renames.Keys == m.renames.Keys + {a, Clean(a)}
  }

  lemma {:induction false} EachNamed(step: Step, nm: Naming, axes: seq<Name>, k: nat)
    requires k <= |axes| && RecordsNames(step)
    ensures forall j :: 0 <= j < k ==>
      axes[j] in NameEach(step, nm, axes, k).renames && Clean(axes[j]) in NameEach(step, nm, axes, k).renames
  {
    if k > 0 {
      EachNamed(step, nm, axes, k - 1);
      var most, all := NameEach(step, nm, axes, k - 1), NameEach(step, nm, axes, k);
      forall j | 0 <= j < k ensures axes[j] in all.renames && Clean(axes[j]) in all.renames {
        assert axes[j] in most.renames.Keys + {axes[k - 1], Clean(axes[k - 1])};
        assert Clean(axes[j]) in most.renames.Keys + {axes[k - 1], Clean(axes[k - 1])};
      }
    }
  }

  /** A spelling the pass knows: an axis as listed, or its clean name. */
  predicate Spelled(axes: seq<Name>, n: Name) { n in axes || n in Keys(axes) }

  lemma EveryAxisNamed(nm: Naming, kn: Known, axes: seq<Name>)
    ensures forall n :: Spelled(axes, n) ==> n in NameAxes(nm, kn, axes, |axes|).renames
  {
    forall m: Naming, a: Name ensures NamingStep(kn)(m, a).renames.Keys == m.renames.Keys + {a, Clean(a)} {
      assert NamingStep(kn)(m, a) == NameAxis(m, kn, a);
    }
    EachNamed(NamingStep(kn), nm, axes, |axes|);
    forall n | Spelled(axes, n) ensures n in NameAxes(nm, kn, axes, |axes|).renames {
      var j :| 0 <= j < |axes| && (axes[j] == n || Clean(axes[j]) == n);
    }
  }

  lemma NamesTellAxesApart(nm: Naming, kn: Known, keys: set<Name>, m: Name, n: Name)
    requires AllNamed(nm, kn, keys) && AxesClash(kn, keys) && m in nm.renames && n in nm.renames
    ensures nm.renames[m] == nm.renames[n] <==> Clean(m) == Clean(n)
  {
    assert NamedWell(nm, kn, m) && NamedWell(nm, kn, n);
    if Clean(m) != Clean(n) {
      var f, h := kn.facts(Clean(m)), kn.facts(Clean(n));
      var a, b := Best(nm.table.groups, f).value, Best(nm.table.groups, h).value;
      assert Clash(f, h);
      ClashIncompatible(nm.table.groups[a], f, h);
      assert a != b;
      assert nm.table.groups[a].name == nm.table.supply(a) && nm.table.groups[b].name == nm.table.supply(b);
    }
  }

  // ---------------------------------------------------------------------------------------------
  // Renaming

  function Renamed(rho: map<Name, Name>, n: Name): Name { if n in rho then rho[n] else n }

  function RenameAtom(a: Atom, rho: map<Name, Name>): Atom {
    match a
    case Tile(n) => Tile(Renamed(rho, n))
    case TileOffset(n, k) => TileOffset(Renamed(rho, n), k)
    case Elem(n) => Elem(Renamed(rho, n))
    case _ => a
  }

  function RenameIndex(ix: Index, rho: map<Name, Name>): (r: Index) {
    seq(|ix|, d requires 0 <= d < |ix| => RenameAtom(ix[d], rho))
  }

  function RenameBound(b: Bound, rho: map<Name, Name>): Bound {
    match b
    case Num(_) => b
    case VarRef(n) => VarRef(Renamed(rho, n))
  }

  /** `rename_loop_vars` has no case for Max and Min and returns them as they are; `full` is the
      renaming that goes into them too. */
  function RenameExpr(e: Expr, rho: map<Name, Name>, full: bool): Expr {
    match e
    case Load(t, ix) => Load(t, RenameIndex(ix, rho))
    case Const(_) => e
    case Arange(x) => Arange(Renamed(rho, x))
    case Op(op, args) =>
      if !full && (op.Max? || op.Min?) then e
      else Op(op, seq(|args|, k requires 0 <= k < |args| => RenameExpr(args[k], rho, full)))
  }

  function RenamedTile(tile: string, x: Name, rho: map<Name, Name>): string {
    if |tile| >= 5 && tile[..5] == "tile_" then "tile_" + Renamed(rho, x) else tile
  }

  function Rename(s: Stmt, rho: map<Name, Name>, full: bool): Stmt
    decreases s
  {
    match s
    case Store(t, v, ix) => Store(t, RenameExpr(v, rho, full), RenameIndex(ix, rho))
    case Loop(lo, hi, tile, x, b) =>
      Loop(RenameBound(lo, rho), RenameBound(hi, rho), RenamedTile(tile, x, rho), Renamed(rho, x), Rename(b, rho, full))
    case Seq(l, r) => Seq(Rename(l, rho, full), Rename(r, rho, full))
    case Block(ss) => Block(RenameAll(ss, rho, full))
  }

  function RenameAll(ss: seq<Stmt>, rho: map<Name, Name>, full: bool): (r: seq<Stmt>)
    ensures |r| == |ss| && forall k :: 0 <= k < |ss| ==> r[k] == Rename(ss[k], rho, full)
    decreases ss
  {
    if ss == [] then [] else [Rename(ss[0], rho, full)] + RenameAll(ss[1..], rho, full)
  }

  function AtomVars(a: Atom): set<Name> {
    match a
    case Tile(n) => {n}
    case TileOffset(n, _) => {n}
    case Elem(n) => {n}
    case _ => {}
  }

  function IndexVars(ix: Index): set<Name> { set a, n | a in ix && n in AtomVars(a) :: n }

  function ExprVars(e: Expr): set<Name> {
    match e
    case Load(_, ix) => IndexVars(ix)
    case Const(_) => {}
    case Arange(x) => {x}
    case Op(_, args) => set a, n | a in args && n in ExprVars(a) :: n
  }

  function BoundVars(b: Bound): set<Name> { if b.VarRef? then {b.name} else {} }

  /** Every loop variable a statement mentions or binds. */
  function Mentions(s: Stmt): set<Name> {
    match s
    case Store(_, v, ix) => ExprVars(v) + IndexVars(ix)
    case Loop(lo, hi, _, x, b) => {x} + BoundVars(lo) + BoundVars(hi) + Mentions(b)
    case Seq(l, r) => Mentions(l) + Mentions(r)
    case Block(ss) => set c, n | c in ss && n in Mentions(c) :: n
  }

  predicate Fixes(rho: map<Name, Name>, names: set<Name>) { forall n :: n in names ==> Renamed(rho, n) == n }

  lemma IndexFixed(ix: Index, rho: map<Name, Name>)
    ensures RenameIndex(ix, rho) == ix <==> Fixes(rho, IndexVars(ix))
  {
    if Fixes(rho, IndexVars(ix)) {
      forall d | 0 <= d < |ix| ensures RenameAtom(ix[d], rho) == ix[d] {
        forall n | n in AtomVars(ix[d]) ensures n in IndexVars(ix) { assert ix[d] in ix; }
      }
    }
    if RenameIndex(ix, rho) == ix {
      forall n | n in IndexVars(ix) ensures Renamed(rho, n) == n {
        var a :| a in ix && n in AtomVars(a);
        var d :| 0 <= d < |ix| && ix[d] == a;
        assert RenameIndex(ix, rho)[d] == a;
      }
    }
  }

  lemma {:induction false} ExprFixed(e: Expr, rho: map<Name, Name>)
    ensures RenameExpr(e, rho, true) == e <==> Fixes(rho, ExprVars(e))
  {
    match e
    case Load(_, ix) => IndexFixed(ix, rho);
    case Const(_) =>
    case Arange(x) =>
    case Op(op, args) =>
      forall k | 0 <= k < |args|
        ensures RenameExpr(args[k], rho, true) == args[k] <==> Fixes(rho, ExprVars(args[k]))
      {
        ExprFixed(args[k], rho);
      }
      if RenameExpr(e, rho, true) == e {
        forall n | n in ExprVars(e) ensures Renamed(rho, n) == n {
          var a :| a in args && n in ExprVars(a);
          var k :| 0 <= k < |args| && args[k] == a;
          assert RenameExpr(e, rho, true).args[k] == args[k];
        }
      }
      if Fixes(rho, ExprVars(e)) {
        forall k | 0 <= k < |args| ensures RenameExpr(args[k], rho, true) == args[k] {
          forall n | n in ExprVars(args[k]) ensures n in ExprVars(e) { assert args[k] in args; }
        }
        assert RenameExpr(e, rho, true).args == args;
      }
  }

  /** No variable the renaming changes occurs under Max or Min. */
  predicate ExprReached(e: Expr, rho: map<Name, Name>) {
    match e
    case Op(op, args) =>
      if op.Max? || op.Min? then Fixes(rho, ExprVars(e)) else forall k :: 0 <= k < |args| ==> ExprReached(args[k], rho)
    case _ => true
  }

  predicate Reached(s: Stmt, rho: map<Name, Name>) {
    match s
    case Store(_, v, _) => ExprReached(v, rho)
    case Loop(_, _, _, _, b) => Reached(b, rho)
    case Seq(l, r) => Reached(l, rho) && Reached(r, rho)
    case Block(ss) => forall k :: 0 <= k < |ss| ==> Reached(ss[k], rho)
  }

  lemma {:induction false} ExprReachedIff(e: Expr, rho: map<Name, Name>)
    ensures RenameExpr(e, rho, false) == RenameExpr(e, rho, true) <==> ExprReached(e, rho)
  {
    match e
    case Op(op, args) =>
      if op.Max? || op.Min? {
        ExprFixed(e, rho);
      } else {
        var a, b := RenameExpr(e, rho, false).args, RenameExpr(e, rho, true).args;
        forall k | 0 <= k < |args| ensures a[k] == b[k] <==> ExprReached(args[k], rho) { ExprReachedIff(args[k], rho); }
        if ExprReached(e, rho) { assert a == b; }
      }
    case _ =>
  }

  /** The pass renames every occurrence exactly when none it must change is under Max or Min. */
  lemma {:induction false} RenamesAllIff(s: Stmt, rho: map<Name, Name>)
    ensures Rename(s, rho, false) == Rename(s, rho, true) <==> Reached(s, rho)
    decreases s
  {
    match s
    case Store(_, v, _) => ExprReachedIff(v, rho);
    case Loop(_, _, _, _, b) => RenamesAllIff(b, rho);
    case Seq(l, r) =>
      RenamesAllIff(l, rho);
      RenamesAllIff(r, rho);
    case Block(ss) =>
      var a, b := RenameAll(ss, rho, false), RenameAll(ss, rho, true);
      forall k | 0 <= k < |ss| ensures a[k] == b[k] <==> Reached(ss[k], rho) { RenamesAllIff(ss[k], rho); }
      if Reached(s, rho) { assert a == b; }
  }

  // ---------------------------------------------------------------------------------------------
  // Renaming keeps the meaning

  ghost predicate SameBindings(rho: map<Name, Name>, names: set<Name>, env: Env, env': Env) {
    forall n :: n in names ==> Lookup(env', Renamed(rho, n)) == Lookup(env, n)
  }

  /** Two spellings mean one variable after the renaming exactly when they did before. */
  predicate KeepsAxesApart(rho: map<Name, Name>, names: set<Name>) {
    forall m, n :: m in names && n in names ==>
      (Clean(Renamed(rho, m)) == Clean(Renamed(rho, n)) <==> Clean(m) == Clean(n))
  }

  /** Every renamed loop still runs with the tile it had. */
  predicate TilesMatch(s: Stmt, rho: map<Name, Name>, size: string -> pos, size': string -> pos) {
    match s
    case Store(_, _, _) => true
    case Loop(_, _, tile, x, b) => size'(RenamedTile(tile, x, rho)) == size(tile) && TilesMatch(b, rho, size, size')
    case Seq(l, r) => TilesMatch(l, rho, size, size') && TilesMatch(r, rho, size, size')
    case Block(ss) => forall k :: 0 <= k < |ss| ==> TilesMatch(ss[k], rho, size, size')
  }

  lemma RenamedIndexSame(ix: Index, rho: map<Name, Name>, names: set<Name>, env: Env, env': Env)
    requires SameBindings(rho, names, env, env') && IndexVars(ix) <= names
    ensures ResolveAll(RenameIndex(ix, rho), env') == ResolveAll(ix, env)
  {
    forall d | 0 <= d < |ix| ensures Resolve(RenameAtom(ix[d], rho), env') == Resolve(ix[d], env) {
      forall n | n in AtomVars(ix[d]) ensures n in names { assert ix[d] in ix; }
    }
  }

  lemma {:induction false} RenamedExprSame<C, V>(M: Machine<C, V>, size': string -> pos, e: Expr, rho: map<Name, Name>,
      names: set<Name>, env: Env, env': Env, mem: Mem<C>)
    requires SameBindings(rho, names, env, env') && ExprVars(e) <= names
    ensures Eval(M.(tileSize := size'), RenameExpr(e, rho, true), env', mem) == Eval(M, e, env, mem)
  {
    match e
    case Load(_, ix) => RenamedIndexSame(ix, rho, names, env, env');
    case Const(_) =>
    case Arange(x) =>
    case Op(op, args) =>
      var args' := RenameExpr(e, rho, true).args;
      forall k | 0 <= k < |args|
        ensures Eval(M.(tileSize := size'), args'[k], env', mem) == Eval(M, args[k], env, mem)
      {
        forall n | n in ExprVars(args[k]) ensures n in names { assert args[k] in args; }
        RenamedExprSame(M, size', args[k], rho, names, env, env', mem);
      }
      assert EvalAll(M.(tileSize := size'), args', env', mem) == EvalAll(M, args, env, mem);
  }

  /** A renaming of the loop variables that keeps axes apart, with its tiles, is invisible. */
  lemma {:induction false} RenamedSame<C, V>(M: Machine<C, V>, size': string -> pos, s: Stmt, rho: map<Name, Name>,
      names: set<Name>, env: Env, env': Env, mem: Mem<C>)
    requires SameBindings(rho, names, env, env') && KeepsAxesApart(rho, names) && Mentions(s) <= names &&
      TilesMatch(s, rho, M.tileSize, size')
    ensures Exec(M.(tileSize := size'), Rename(s, rho, true), env', mem) == Exec(M, s, env, mem)
    decreases s, 1, 0
  {
    match s
    case Store(_, v, ix) =>
      RenamedExprSame(M, size', v, rho, names, env, env', mem);
      RenamedIndexSame(ix, rho, names, env, env');
    case Loop(lo, hi, tile, x, b) =>
      assert BoundValue(RenameBound(lo, rho), env') == BoundValue(lo, env);
      assert BoundValue(RenameBound(hi, rho), env') == BoundValue(hi, env);
      RenamedLoopSame(M, size', b, x, M.tileSize(tile), BoundValue(lo, env), BoundValue(hi, env), rho, names, env, env',
        mem);
    case Seq(l, r) =>
      RenamedSame(M, size', l, rho, names, env, env', mem);
      RenamedSame(M, size', r, rho, names, env, env', Exec(M, l, env, mem));
    case Block(ss) =>
      forall c | c in ss ensures Mentions(c) <= names {
        forall n | n in Mentions(c) ensures n in names { assert n in Mentions(s); }
      }
      RenamedAllSame(M, size', ss, rho, names, env, env', mem);
  }

  lemma {:induction false} RenamedLoopSame<C, V>(M: Machine<C, V>, size': string -> pos, b: Stmt, x: Name, step: pos,
      lo: int, hi: int, rho: map<Name, Name>, names: set<Name>, env: Env, env': Env, mem: Mem<C>)
    requires SameBindings(rho, names, env, env') && KeepsAxesApart(rho, names) && Mentions(b) <= names && x in names &&
      TilesMatch(b, rho, M.tileSize, size')
    ensures Iterate(M.(tileSize := size'), Rename(b, rho, true), Renamed(rho, x), step, lo, hi, env', mem) ==
      Iterate(M, b, x, step, lo, hi, env, mem)
    decreases b, 2, if lo < hi then hi - lo else 0
  {
    if lo < hi {
      var inner, inner' := Bind(env, x, lo, step), Bind(env', Renamed(rho, x), lo, step);
      forall n | n in names ensures Lookup(inner', Renamed(rho, n)) == Lookup(inner, n) {
        LookupBind(env, x, lo, step, n);
        LookupBind(env', Renamed(rho, x), lo, step, Renamed(rho, n));
      }
      RenamedSame(M, size', b, rho, names, inner, inner', mem);
      RenamedLoopSame(M, size', b, x, step, lo + step, hi, rho, names, env, env', Exec(M, b, inner, mem));
    }
  }

  lemma {:induction false} RenamedAllSame<C, V>(M: Machine<C, V>, size': string -> pos, ss: seq<Stmt>,
      rho: map<Name, Name>, names: set<Name>, env: Env, env': Env, mem: Mem<C>)
    requires SameBindings(rho, names, env, env') && KeepsAxesApart(rho, names)
    requires (forall c :: c in ss ==> Mentions(c) <= names) && forall k :: 0 <= k < |ss| ==>
      TilesMatch(ss[k], rho, M.tileSize, size')
    ensures ExecAll(M.(tileSize := size'), RenameAll(ss, rho, true), env', mem) == ExecAll(M, ss, env, mem)
    decreases ss, 0, 0
  {
    if ss != [] {
      assert ss[0] in ss;
      RenamedSame(M, size', ss[0], rho, names, env, env', mem);
      RenamedAllSame(M, size', ss[1..], rho, names, env, env', Exec(M, ss[0], env, mem));
      assert RenameAll(ss, rho, true)[1..] == RenameAll(ss[1..], rho, true);
    }
  }

  // ---------------------------------------------------------------------------------------------
  // The whole pass

  datatype AxisCall = AxisCall(call: Call, spatial: seq<Name>)

  function RenameSpatial(spatial: seq<Name>, rho: map<Name, Name>): seq<Name> {
    seq(|spatial|, k requires 0 <= k < |spatial| => Renamed(rho, spatial[k]))
  }

  function NamingOf(tb: Table, c: AxisCall): Naming {
    var axes := AllAxes(c.spatial, c.call.root);
    NameAxes(Naming(tb, map[]), KnownOf(c.call.root), axes, |axes|)
  }

  function NormalizedCall(tb: Table, c: AxisCall): AxisCall {
    var rho := NamingOf(tb, c).renames;
    AxisCall(Call(Rename(c.call.root, rho, false), c.call.out), RenameSpatial(c.spatial, rho))
  }

  function Normalized(tb: Table, calls: seq<AxisCall>): (r: seq<AxisCall>)
    ensures |r| == |calls|
    decreases calls
  {
    if calls == [] then [] else [NormalizedCall(tb, calls[0])] + Normalized(NamingOf(tb, calls[0]).table, calls[1..])
  }

  /** The scan over the groups' ratings: a later group wins only with a strictly higher one. */
  method PickHighest(ranks: seq<Rank>) returns (best: Option<nat>)
    ensures best == Highest(ranks, |ranks|)
  {
    best := None;
    var bestScore: int, bestOuter: int := -1, -1;
    for k := 0 to |ranks|
      invariant best == Highest(ranks, k)
      invariant best.None? ==> bestScore == -1 && bestOuter == -1
      invariant best.Some? ==>
        ranks[best.value].Rank? && ranks[best.value].score == bestScore && ranks[best.value].outer == bestOuter
    {
      if ranks[k].No? { continue; }
      var score, outer := ranks[k].score, ranks[k].outer;
      if score > bestScore || (score == bestScore && outer > bestOuter) {
        bestScore, bestOuter, best := score, outer, Some(k);
      }
    }
  }

  method NameOne(nm: Naming, kn: Known, axis: Name) returns (nm': Naming)
    ensures nm' == NameAxis(nm, kn, axis)
  {
    var key := Clean(axis);
    var groups, next := nm.table.groups, nm.table.next;
    var f, outer := kn.facts(key), OuterCount(kn, key);
    var best := PickHighest(Ranks(groups, f));
    var name;
    if best.Some? {
      name := groups[best.value].name;
      groups := groups[best.value := JoinGroup(groups[best.value], f, outer)];
    } else {
      next := SkipTaken(nm.table, next);
      name := nm.table.supply(next);
      groups := groups + [Group(name, f.access, {f.range}, {f.tile}, outer)];
      next := next + 1;
    }
    nm' := Naming(Table(groups, next, nm.table.supply), nm.renames[axis := name][key := name]);
  }

  method NameCall(table: Table, c: AxisCall) returns (nm: Naming)
    ensures nm == NamingOf(table, c)
  {
    var axes, known := AllAxes(c.spatial, c.call.root), KnownOf(c.call.root);
    nm := Naming(table, map[]);
    for k := 0 to |axes|
      invariant nm == NameAxes(Naming(table, map[]), known, axes, k)
    {
      nm := NameOne(nm, known, axes[k]);
    }
  }

  method NormalizeAxes(calls: seq<AxisCall>) returns (updated: seq<AxisCall>)
    ensures updated == Normalized(Table([], 0, PoolName), calls)
  {
    var table := Table([], 0, PoolName);
    updated := [];
    assert calls[0..] == calls;
    for c := 0 to |calls|
      invariant updated + Normalized(table, calls[c..]) == Normalized(Table([], 0, PoolName), calls)
    {
      assert calls[c..][0] == calls[c] && calls[c..][1..] == calls[c + 1..];
      var nm := NameCall(table, calls[c]);
      var one := AxisCall(Call(Rename(calls[c].call.root, nm.renames, false), calls[c].call.out),
        RenameSpatial(calls[c].spatial, nm.renames));
      assert one == NormalizedCall(table, calls[c]);
      updated, table := updated + [one], nm.table;
    }
    assert calls[|calls|..] == [];
  }

  /** What a call must satisfy: its naming keeps the axes it mentions apart, and no Max or Min mentions an
      axis that gets a new name. */
  ghost predicate Normalizable(tb: Table, c: AxisCall) {
    KeepsAxesApart(NamingOf(tb, c).renames, Mentions(c.call.root)) && Reached(c.call.root, NamingOf(tb, c).renames)
  }

  /** Axes that clash pairwise, with plain names. */
  ghost predicate AxesKnown(c: AxisCall) {
    var axes := AllAxes(c.spatial, c.call.root);
    AxesClash(KnownOf(c.call.root), Keys(axes)) && forall j :: 0 <= j < |axes| ==> PlainName(axes[j])
  }

  /** In a call whose axes clash pairwise every spelling of an axis gets a clean name, and two spellings
      get the same name exactly when they are spellings of the same axis. */
  lemma SameNameIffSameAxis(tb: Table, c: AxisCall, m: Name, n: Name)
    requires TableOk(tb) && AxesKnown(c)
    requires Spelled(AllAxes(c.spatial, c.call.root), m) && Spelled(AllAxes(c.spatial, c.call.root), n)
    ensures var renames := NamingOf(tb, c).renames;
            m in renames && n in renames && Clean(renames[m]) == renames[m] &&
              (renames[m] == renames[n] <==> Clean(m) == Clean(n))
  {
    var root, axes := c.call.root, AllAxes(c.spatial, c.call.root);
    var nm := NamingOf(tb, c);
    NameAxesKeep(Naming(tb, map[]), KnownOf(root), axes, |axes|);
    EveryAxisNamed(Naming(tb, map[]), KnownOf(root), axes);
    NamesTellAxesApart(nm, KnownOf(root), Keys(axes), m, n);
    assert NamedWell(nm, KnownOf(root), m);
  }

  ghost predicate ClashingCall(c: AxisCall) {
    AxesKnown(c) && forall n :: n in Mentions(c.call.root) ==> Spelled(AllAxes(c.spatial, c.call.root), n)
  }

  /** Axes that clash pairwise are kept apart, in a call that mentions only its axes, under any of their
      spellings. */
  lemma ClashKeepsApart(tb: Table, c: AxisCall)
    requires TableOk(tb) && ClashingCall(c)
    ensures TableOk(NamingOf(tb, c).table) && KeepsAxesApart(NamingOf(tb, c).renames, Mentions(c.call.root))
  {
    var root, axes := c.call.root, AllAxes(c.spatial, c.call.root);
    var renames := NamingOf(tb, c).renames;
    NameAxesKeep(Naming(tb, map[]), KnownOf(root), axes, |axes|);
    forall m, n | m in Mentions(root) && n in Mentions(root)
      ensures Clean(Renamed(renames, m)) == Clean(Renamed(renames, n)) <==> Clean(m) == Clean(n)
    {
      SameNameIffSameAxis(tb, c, m, n);
      SameNameIffSameAxis(tb, c, n, m);
    }
  }

  lemma NormalizedCallSame<C, V>(M: Machine<C, V>, size': string -> pos, tb: Table, c: AxisCall, mem: Mem<C>)
    requires Normalizable(tb, c) && TilesMatch(c.call.root, NamingOf(tb, c).renames, M.tileSize, size')
    ensures Exec(M.(tileSize := size'), NormalizedCall(tb, c).call.root, map[], mem) == Exec(M, c.call.root, map[], mem)
  {
    var rho := NamingOf(tb, c).renames;
    RenamesAllIff(c.call.root, rho);
    RenamedSame(M, size', c.call.root, rho, Mentions(c.call.root), map[], map[], mem);
  }

  ghost predicate AllNormalizable(tb: Table, calls: seq<AxisCall>, size: string -> pos, size': string -> pos)
    decreases calls
  {
    calls == [] ||
    (Normalizable(tb, calls[0]) && TilesMatch(calls[0].call.root, NamingOf(tb, calls[0]).renames, size, size') &&
     AllNormalizable(NamingOf(tb, calls[0]).table, calls[1..], size, size'))
  }

  function Calls(calls: seq<AxisCall>): (r: seq<Call>)
    ensures |r| == |calls|
  {
    seq(|calls|, k requires 0 <= k < |calls| => calls[k].call)
  }

  lemma FirstCall<C, V>(M: Machine<C, V>, calls: seq<AxisCall>, mem: Mem<C>)
    requires calls != []
    ensures RunCalls(M, Calls(calls), mem) == RunCalls(M, Calls(calls[1..]), Exec(M, calls[0].call.root, map[], mem))
  {
    assert Calls(calls)[1..] == Calls(calls[1..]);
  }

  lemma NormalizedTail(tb: Table, calls: seq<AxisCall>)
    requires calls != []
    ensures Normalized(tb, calls)[0] == NormalizedCall(tb, calls[0])
    ensures Normalized(tb, calls)[1..] == Normalized(NamingOf(tb, calls[0]).table, calls[1..])
  {
  }

  /** Normalising the axes of a program leaves what it computes. */
  lemma {:induction false} NormalizationPreserves<C, V>(M: Machine<C, V>, size': string -> pos, tb: Table,
      calls: seq<AxisCall>, mem: Mem<C>)
    requires AllNormalizable(tb, calls, M.tileSize, size')
    ensures RunCalls(M.(tileSize := size'), Calls(Normalized(tb, calls)), mem) == RunCalls(M, Calls(calls), mem)
    decreases calls
  {
    if calls != [] {
      var tb' := NamingOf(tb, calls[0]).table;
      NormalizedCallSame(M, size', tb, calls[0], mem);
      FirstCall(M, calls, mem);
      FirstCall(M.(tileSize := size'), Normalized(tb, calls), mem);
      NormalizedTail(tb, calls);
      NormalizationPreserves(M, size', tb', calls[1..], Exec(M, calls[0].call.root, map[], mem));
    }
  }

  /** The pass as it starts: no group yet, names from the pool. */
  lemma NormalizeAxesPreserves<C, V>(M: Machine<C, V>, size': string -> pos, calls: seq<AxisCall>,
      updated: seq<AxisCall>, mem: Mem<C>)
    requires updated == Normalized(Table([], 0, PoolName), calls)
    requires AllNormalizable(Table([], 0, PoolName), calls, M.tileSize, size')
    ensures RunCalls(M.(tileSize := size'), Calls(updated), mem) == RunCalls(M, Calls(calls), mem)
  {
    NormalizationPreserves(M, size', Table([], 0, PoolName), calls, mem);
  }

  /** From the empty table every call whose axes clash pairwise keeps them apart, and so does every later one. */
  lemma ClashingCallsKeepApart(tb: Table, calls: seq<AxisCall>, k: nat)
    requires k < |calls| && tb == TableBefore(Table([], 0, PoolName), calls, k)
    requires forall j :: 0 <= j <= k ==> ClashingCall(calls[j])
    ensures KeepsAxesApart(NamingOf(tb, calls[k]).renames, Mentions(calls[k].call.root))
  {
    PoolSupplies();
    TableStaysOk(Table([], 0, PoolName), calls, k);
    ClashKeepsApart(tb, calls[k]);
  }

  type TableStep = (Table, nat) -> Table

  function NextTable(calls: seq<AxisCall>): TableStep {
    (tb: Table, k: nat) => if k < |calls| then NamingOf(tb, calls[k]).table else tb
  }

  function TablesOn(step: TableStep, tb: Table, k: nat): Table {
    if k == 0 then tb else step(TablesOn(step, tb, k - 1), k - 1)
  }

  /** The table the k-th call is named with. */
  function TableBefore(tb: Table, calls: seq<AxisCall>, k: nat): Table { TablesOn(NextTable(calls), tb, k) }

  lemma {:induction false} TablesKept(step: TableStep, tb: Table, k: nat, kept: Table -> bool)
    requires kept(tb) && forall m: Table, j: nat :: j < k && kept(m) ==> kept(step(m, j))
    ensures kept(TablesOn(step, tb, k))
  {
    if k > 0 { TablesKept(step, tb, k - 1, kept); }
  }

  lemma TableStaysOk(tb: Table, calls: seq<AxisCall>, k: nat)
    requires k <= |calls| && TableOk(tb) && forall j :: 0 <= j < k ==> ClashingCall(calls[j])
    ensures TableOk(TableBefore(tb, calls, k))
  {
    ghost var kept := (m: Table) => TableOk(m);
    forall m: Table, j: nat | j < k && kept(m) ensures kept(NextTable(calls)(m, j)) { ClashKeepsOk(m, calls[j]); }
    TablesKept(NextTable(calls), tb, k, kept);
  }

  lemma ClashKeepsOk(tb: Table, c: AxisCall)
    requires TableOk(tb) && ClashingCall(c)
    ensures TableOk(NamingOf(tb, c).table)
  {
    ClashKeepsApart(tb, c);
  }

  // ---------------------------------------------------------------------------------------------
  // Axes that get one name

  /** Two axes of which the second may join what the first founds. */
  predicate MayShare(f: Facts, h: Facts) {
    h.range == f.range && TileCompatible(h.tile, {f.tile}) && AccessCompatible(h.access, f.access)
  }

  /** Two axes named from the empty table get one name exactly when nothing known of them tells them
      apart: they have one range, compatible tiles, and no shared tensor they address differently. */
  lemma TwoAxesShareNameIff(kn: Known, x: Name, y: Name)
    requires Clean(x) == x && Clean(y) == y && x != y
    ensures var renames := NameAxis(NameAxis(Naming(Table([], 0, PoolName), map[]), kn, x), kn, y).renames;
      renames[x] == renames[y] <==> MayShare(kn.facts(x), kn.facts(y))
  {
    PoolSupplies();
    var start := Table([], 0, PoolName);
    var f, h := kn.facts(x), kn.facts(y);
    var r := Assign(start, f, OuterCount(kn, x));
    assert Ranks([], f) == [] && Best([], f) == None;
    assert r.table.groups[0] == Group(r.table.groups[0].name, f.access, {f.range}, {f.tile}, OuterCount(kn, x));
    OneGroupBest(r.table.groups, h);
    AssignOk(start, f, OuterCount(kn, x));
    SecondName(r.table, h, OuterCount(kn, y));
  }

  lemma OneGroupBest(groups: seq<Group>, h: Facts)
    requires |groups| == 1
    ensures Best(groups, h) == if Compatible(groups[0], h) then Some(0) else None
  {
    var ranks := Ranks(groups, h);
    assert ranks[0] == RankOf(groups[0], h);
    assert Highest(ranks, 0) == None;
  }

  lemma SecondName(tb: Table, h: Facts, outer: nat)
    requires TableOk(tb) && |tb.groups| == 1
    ensures Best(tb.groups, h) == Some(0) ==> var r := Assign(tb, h, outer);
      r.table.groups[r.group].name == tb.groups[0].name
    ensures Best(tb.groups, h) == None ==> var r := Assign(tb, h, outer);
      r.table.groups[r.group].name != tb.groups[0].name
  {
    NoneTaken(tb);
    if Best(tb.groups, h) == None { assert tb.groups[0] in tb.groups; }
  }

  /** Axes addressed by elements alone have no access, so equal ranges and tiles let them share. */
  lemma ElementsOnlyShare(s: Stmt, x: Name, y: Name)
    requires StmtUses(s, x) == {} && StmtUses(s, y) == {} && LastLoop(LoopsOf(s), x) == LastLoop(LoopsOf(s), y) &&
      LastLoop(LoopsOf(s), x).1.Some?
    ensures MayShare(FactsOf(s, x), FactsOf(s, y))
  {
    assert AccessOf(s, x) == map[] && AccessOf(s, y) == map[];
  }

  /** A machine whose tensors list the regions stored to. */
  const History: Machine<seq<Region>, int> :=
    Machine((tile: string) => 1 as pos, [], (c: seq<Region>, r: Region) => 0,
      (c: seq<Region>, r: Region, v: int) => c + [r],
            (text: string) => 0, (at: int, step: int) => 0, (op: Oper, vs: seq<int>) => 0)

  function Walk(x: Name, y: Name, tile1: string, tile2: string): Stmt {
    Loop(Num(0), Num(2), tile1, x, Loop(Num(0), Num(2), tile2, y, Store("t", Const("0"), [Elem(x)])))
  }

  lemma TwoTurns(b: Stmt, x: Name, env: Env, mem: Mem<seq<Region>>)
    ensures Iterate(History, b, x, 1, 0, 2, env, mem) ==
      Exec(History, b, Bind(env, x, 1, 1), Exec(History, b, Bind(env, x, 0, 1), mem))
  {
    var one := Exec(History, b, Bind(env, x, 0, 1), mem);
    RoundsBefore(History, b, x, 1, 0, 2, env, mem);
    RoundsBefore(History, b, x, 1, 1, 2, env, one);
    RoundsBefore(History, b, x, 1, 2, 2, env, Exec(History, b, Bind(env, x, 1, 1), one));
  }

  /** One store lists the element the variable stands for. */
  lemma Listed(x: Name, env: Env, mem: Mem<seq<Region>>)
    ensures Get(History, Exec(History, Store("t", Const("0"), [Elem(x)]), env, mem), "t") ==
      Get(History, mem, "t") + [[Point(Lookup(env, x).value / Lookup(env, x).step)]]
  {
    assert ResolveAll([Elem(x)], env) == [Resolve(Elem(x), env)];
  }

  lemma InnerTurns(x: Name, y: Name, env: Env, mem: Mem<seq<Region>>)
    ensures var end := Iterate(History, Store("t", Const("0"), [Elem(x)]), y, 1, 0, 2, env, mem);
      Get(History, end, "t") == Get(History, mem, "t") +
        if Clean(x) == Clean(y) then [[Point(0)], [Point(1)]]
          else [[Point(Lookup(env, x).value / Lookup(env, x).step)],
          [Point(Lookup(env, x).value / Lookup(env, x).step)]]
  {
    var b := Store("t", Const("0"), [Elem(x)]);
    TwoTurns(b, y, env, mem);
    LookupBind(env, y, 0, 1, x);
    LookupBind(env, y, 1, 1, x);
    Listed(x, Bind(env, y, 0, 1), mem);
    Listed(x, Bind(env, y, 1, 1), Exec(History, b, Bind(env, y, 0, 1), mem));
  }

  /** With one name for both loops the elements come in another order. */
  lemma WalkListed(x: Name, y: Name, tile1: string, tile2: string)
    ensures Get(History, Exec(History, Walk(x, y, tile1, tile2), map[], map[]), "t") ==
      if Clean(x) == Clean(y) then [[Point(0)], [Point(1)], [Point(0)], [Point(1)]]
        else [[Point(0)], [Point(0)], [Point(1)], [Point(1)]]
  {
    var inner := Loop(Num(0), Num(2), tile2, y, Store("t", Const("0"), [Elem(x)]));
    TwoTurns(inner, x, map[], map[]);
    LookupBind(map[], x, 0, 1, x);
    LookupBind(map[], x, 1, 1, x);
    var first := Exec(History, inner, Bind(map[], x, 0, 1), map[]);
    InnerTurns(x, y, Bind(map[], x, 0, 1), map[]);
    InnerTurns(x, y, Bind(map[], x, 1, 1), first);
  }

  const NESTED := Walk("i", "j", "1", "1")

  lemma NestedUses()
    ensures StmtUses(NESTED, "i") == {} && StmtUses(NESTED, "j") == {}
    ensures LastLoop(LoopsOf(NESTED), "i") == LastLoop(LoopsOf(NESTED), "j") == (Range(Some(0), Some(2)), Some("1"))
  {
    var inner := NESTED.body;
    assert LoopsOf(NESTED) == [NESTED, inner];
    assert [NESTED, inner][..1] == [NESTED] && [NESTED][..0] == [];
    assert LastLoop([NESTED], "i") == (Range(Some(0), Some(2)), Some("1"));
    assert Clean("i") == "i" && Clean("j") == "j" && "i" != "j";
    assert StmtUses(inner.body, "i") == {} && StmtUses(inner.body, "j") == {};
  }

  lemma NestedAxes()
    ensures AllAxes([], NESTED) == ["i", "j"]
  {
    var loops := LoopsOf(NESTED);
    assert loops == [NESTED, NESTED.body];
    var vars := seq(|loops|, k requires 0 <= k < |loops| => VarOf(loops[k]));
    assert [] + vars == ["i", "j"];
    assert ["i", "j"][..1] == ["i"] && ["i"][..0] == [];
    assert "i" != "j";
  }

  /** Two nested loops over elements: both axes get one name, and the stores come in another order. */
  lemma ElementsShareInput()
    ensures var rho := NamingOf(Table([], 0, PoolName), AxisCall(Call(NESTED, "t"), [])).renames;
      && "i" in rho && "j" in rho && rho["i"] == rho["j"]
      && Get(History, Exec(History, NESTED, map[], map[]), "t") == [[Point(0)], [Point(0)], [Point(1)], [Point(1)]]
      && Get(History, Exec(History, Rename(NESTED, rho, false), map[], map[]), "t") ==
        [[Point(0)], [Point(1)], [Point(0)], [Point(1)]]
  {
    var c := AxisCall(Call(NESTED, "t"), []);
    var kn := KnownOf(NESTED);
    NestedUses();
    NestedAxes();
    ElementsOnlyShare(NESTED, "i", "j");
    TwoAxesShareNameIff(kn, "i", "j");
    TwoNamed(kn, "i", "j");
    var rho := NamingOf(Table([], 0, PoolName), c).renames;
    WalkListed("i", "j", "1", "1");
    WalkRenamed(rho, "i", "j", "1", "1");
  }

  lemma TwoNamed(kn: Known, x: Name, y: Name)
    ensures var start := Naming(Table([], 0, PoolName), map[]);
      NameAxes(start, kn, [x, y], 2) == NameAxis(NameAxis(start, kn, x), kn, y)
  {
    var start := Naming(Table([], 0, PoolName), map[]);
    assert NameAxes(start, kn, [x, y], 0) == start;
    assert NameAxes(start, kn, [x, y], 1) == NameAxis(start, kn, x);
  }

  lemma WalkRenamed(rho: map<Name, Name>, x: Name, y: Name, tile1: string, tile2: string)
    requires x in rho && y in rho && rho[x] == rho[y]
    ensures Get(History, Exec(History, Rename(Walk(x, y, tile1, tile2), rho, false), map[], map[]), "t") ==
      [[Point(0)], [Point(1)], [Point(0)], [Point(1)]]
  {
    var n := rho[x];
    var store := Store("t", Const("0"), [Elem(x)]);
    assert RenameIndex([Elem(x)], rho) == [Elem(n)];
    assert Rename(store, rho, false) == Store("t", Const("0"), [Elem(n)]);
    assert Rename(Loop(Num(0), Num(2), tile2, y, store), rho, false) ==
      Loop(Num(0), Num(2), RenamedTile(tile2, y, rho), n, Store("t", Const("0"), [Elem(n)]));
    assert Rename(Walk(x, y, tile1, tile2), rho, false) ==
      Walk(n, n, RenamedTile(tile1, x, rho), RenamedTile(tile2, y, rho));
    WalkListed(n, n, RenamedTile(tile1, x, rho), RenamedTile(tile2, y, rho));
  }

  // ---------------------------------------------------------------------------------------------
  // What Max keeps

  /** A machine whose tiles are the regions they were read from. */
  const RegionValues: Machine<Region, Region> :=
    Machine((tile: string) => 1 as pos, [], (c: Region, r: Region) => r, (c: Region, r: Region, v: Region) => v,
            (text: string) => [], (at: int, step: int) => [], (op: Oper, vs: seq<Region>) => if vs ==
              [] then [] else vs[0])

  lemma LastRound(b: Stmt, x: Name, mem: Mem<Region>)
    ensures Iterate(RegionValues, b, x, 1, 0, 2, map[], mem) ==
            Exec(RegionValues, b, Bind(map[], x, 1, 1), Exec(RegionValues, b, Bind(map[], x, 0, 1), mem))
  {
    var one := Exec(RegionValues, b, Bind(map[], x, 0, 1), mem);
    assert Iterate(RegionValues, b, x, 1, 0, 2, map[], mem) == Iterate(RegionValues, b, x, 1, 1, 2, map[], one);
    assert Iterate(RegionValues, b, x, 1, 1, 2, map[], one) ==
      Iterate(RegionValues, b, x, 1, 2, 2, map[], Exec(RegionValues, b, Bind(map[], x, 1, 1), one));
  }

  function MaxOf(x: Name): Expr { Op(Max, [Load("a", [Tile(x)]), Const("0")]) }

  /** A store of Max over one tile leaves the region that tile resolves to. */
  lemma MaxStores(x: Name, y: Name, env: Env, mem: Mem<Region>)
    ensures Get(RegionValues, Exec(RegionValues, Store("t", MaxOf(x), [Tile(y)]), env, mem), "t") ==
      [Resolve(Tile(x), env)]
  {
    var load, zero := Load("a", [Tile(x)]), Const("0");
    assert ResolveAll([Tile(x)], env) == [Resolve(Tile(x), env)];
    assert Eval(RegionValues, load, env, mem) == [Resolve(Tile(x), env)];
    assert EvalAll(RegionValues, [load, zero], env, mem)[0] == Eval(RegionValues, load, env, mem);
    assert Eval(RegionValues, MaxOf(x), env, mem) == [Resolve(Tile(x), env)];
  }

  /** Under Max the loop variable keeps its old name, which nothing binds any more. */
  lemma RenamingMissesMax(s: Stmt, rho: map<Name, Name>)
    requires s == Loop(Num(0), Num(2), "1", "v_x", Store("t", MaxOf("v_x"), [Tile("v_x")]))
    requires rho == map["v_x" := "i", "x" := "i"]
    ensures Get(RegionValues, Exec(RegionValues, Rename(s, rho, false), map[], map[]), "t") == [Span(0, 1)]
    ensures Get(RegionValues, Exec(RegionValues, s, map[], map[]), "t") == [Span(1, 1)]
  {
    var b := Store("t", MaxOf("v_x"), [Tile("i")]);
    assert RenameIndex([Tile("v_x")], rho) == [Tile("i")];
    assert Rename(s, rho, false) == Loop(Num(0), Num(2), "1", "i", b);
    LastRound(b, "i", map[]);
    LastRound(s.body, "v_x", map[]);
    LookupBind(map[], "i", 1, 1, "v_x");
    LookupBind(map[], "v_x", 1, 1, "v_x");
    assert Clean("v_x") == "x" && Clean("i") == "i";
    MaxStores("v_x", "i", Bind(map[], "i", 1, 1), Exec(RegionValues, b, Bind(map[], "i", 0, 1), map[]));
    MaxStores("v_x", "v_x", Bind(map[], "v_x", 1, 1), Exec(RegionValues, s.body, Bind(map[], "v_x", 0, 1), map[]));
  }
}
