/** Nodes with joined names that the source fuses and the program changes: members of the two loops may
    depend on each other crosswise (CrosswiseInput), and the loops may have different numbers of members
    (UnevenInput).  The conditions that fusing nodes takes in TreeRules are there for these. */
module TreeInputs {
  import opened Ast
  import opened Text
  import opened LoopNames
  import opened Machines
  import opened Reordering
  import opened Elements
  import opened Signatures
  import opened LoopRules
  import opened SeqRules
  import Fusion

  function OneSize(tile: string): pos { 1 }
  function NoNumber(text: string): int { 0 }
  function NoRange(lo: int, n: int): TileValue<int> { Uniform(0) }
  function NoOperator(op: Oper, vs: seq<TileValue<int>>): TileValue<int> { Uniform(0) }

  /** Tensors of one cell; the programs only copy. */
  function CopyMachine(): Machine<Cells<int>, TileValue<int>> { ElementMachine(OneSize, NoNumber, NoRange, NoOperator) }

  ghost predicate HasOne(mem: Mem<Cells<int>>, n: Name, x: int) { Get(CopyMachine(), mem, n) == map[[0] := x] }

  const K: Index := [Tile("k")]

  function CopyTo(t: Name, s: Name): Stmt { Store(t, Load(s, K), K) }
  function Over(b: Stmt): Stmt { Loop(Num(0), Num(1), "1", "k", b) }
  function Pair(p: Name, q: Name): Name { JoinNames([p, q]) }

  lemma PairParts(p: Name, q: Name)
    requires OneName(p) && OneName(q)
    ensures SplitNames(Pair(p, q)) == [p, q] && Component(Pair(p, q), 0) == p && Component(Pair(p, q), 1) == q
  {
    SplitJoin([p, q]);
  }

  function AtZero(): Env { Bind(map[], "k", 0, 1) }

  lemma CopyDone(t: Name, s: Name, mem: Mem<Cells<int>>, x: int, y: int)
    requires HasOne(mem, s, x) && HasOne(mem, t, y)
    ensures Exec(CopyMachine(), CopyTo(t, s), AtZero(), mem) == mem[t := map[[0] := x]]
  {
    var r: Region := [Span(0, 1)];
    LookupBind(map[], "k", 0, 1, "k");
    assert ResolveAll(K, AtZero()) == r;
    CopyCell(map[[0] := x], map[[0] := y], r);
  }

  lemma CopyCell(c: Cells<int>, d: Cells<int>, r: Region)
    requires r == [Span(0, 1)] && c.Keys == {[0]} && d.Keys == {[0]}
    ensures WriteCells(d, r, ReadCells(c, r)) == c
  {
    var p: Coord := [0];
    assert InRegion(r, p) && Absolute(r, p) == p && Relative(r, p) == p;
    assert p in RegionCoords(c.Keys, r);
  }

  lemma OverOnce(b: Stmt, mem: Mem<Cells<int>>)
    ensures Exec(CopyMachine(), Over(b), map[], mem) == Exec(CopyMachine(), b, AtZero(), mem)
  {
    RoundsBefore(CopyMachine(), b, "k", 1, 0, 1, map[], mem);
    RoundsBefore(CopyMachine(), b, "k", 1, 1, 1, map[], Exec(CopyMachine(), b, AtZero(), mem));
  }

  lemma TwoMembers<C, V>(M: Machine<C, V>, node: Stmt, mem: Mem<C>)
    requires Fusion.Width(node) == 2
    ensures Fusion.RunLanes(M, node, 0, mem) == Exec(M, Lane(node, 1), map[], Exec(M, Lane(node, 0), map[], mem))
  {
    var m1 := Exec(M, Lane(node, 0), map[], mem);
    assert Fusion.RunLanes(M, node, 1, m1) == Fusion.RunLanes(M, node, 2, Exec(M, Lane(node, 1), map[], m1));
  }

  lemma OneMember<C, V>(M: Machine<C, V>, node: Stmt, mem: Mem<C>)
    requires Fusion.Width(node) == 1
    ensures Fusion.RunLanes(M, node, 0, mem) == Exec(M, Lane(node, 0), map[], mem)
  {
    var m1 := Exec(M, Lane(node, 0), map[], mem);
    assert Fusion.RunLanes(M, node, 1, m1) == m1;
  }

  lemma FusedNode(t1: Name, s1: Name, t2: Name, s2: Name, k: nat)
    ensures var node := Over(Seq(CopyTo(t1, s1), CopyTo(t2, s2)));
      && Fusion.Width(node) == (if |SplitNames(t1)| > |SplitNames(t2)| then |SplitNames(t1)| else |SplitNames(t2)|)
      && Lane(node,
        k) == Over(Seq(CopyTo(Component(t1, k), Component(s1, k)), CopyTo(Component(t2, k), Component(s2, k))))
  {
    var b1, b2 := CopyTo(t1, s1), CopyTo(t2, s2);
    assert Fusion.Width(b1) == |SplitNames(t1)| && Fusion.Width(b2) == |SplitNames(t2)|;
    assert Lane(b1, k) == CopyTo(Component(t1, k), Component(s1, k)) &&
      Lane(b2, k) == CopyTo(Component(t2, k), Component(s2, k));
    assert Fusion.Width(Over(Seq(b1, b2))) == Fusion.Width(Seq(b1, b2));
    assert Lane(Over(Seq(b1, b2)), k) == Over(Lane(Seq(b1, b2), k));
  }

  /** Copies at one index with the loop tile: the check lets the loops fuse, and all hazards are carried. */
  ghost predicate Fusable(b1: Stmt, b2: Stmt) {
    FuseLoops(Seq(Over(b1), Over(b2))) == Some(Over(Seq(b1, b2))) && SafeBodies(b1, b2, "k")
  }

  lemma CopiesFuse(t1: Name, s1: Name, t2: Name, s2: Name)
    ensures Fusable(CopyTo(t1, s1), CopyTo(t2, s2))
  {
    var b1, b2 := CopyTo(t1, s1), CopyTo(t2, s2);
    assert ReadSet(b1) == {(s1, K)} && WriteSet(b1) == {(t1, K)} && ReadSet(b2) == {(s2, K)} &&
      WriteSet(b2) == {(t2, K)};
    assert K[0] == Tile("k") && LoopCoordinate(K[0], "k");
    assert Carried(K, K, "k") && DependsOn(K, "k") && IndicesMatch(K, K);
    assert NoRawDependency(b1, b2, "k");
  }

  predicate Apart6(a: Name, b: Name, c: Name, d: Name, x: Name, y: Name) {
    && OneName(a) && OneName(b) && OneName(c) && OneName(d) && OneName(x) && OneName(y)
    && a != b && a != c && a != d && a != x && a != y && b != c && b != d && b != x && b != y
    && c != d && c != x && c != y && d != x && d != y && x != y
  }

  /** The members of the second loop read what the other member of the first writes: fused, the first
      member reads too early. */
  lemma CrosswiseInput(a: Name, b: Name, c: Name, d: Name, x: Name, y: Name, mem: Mem<Cells<int>>, u: int, v: int,
      w: int)
    requires Apart6(a, b, c, d, x, y)
    requires HasOne(mem, x, u) && HasOne(mem, y, v) && HasOne(mem, b, w) && HasOne(mem, a, w) && HasOne(mem, c, w) &&
      HasOne(mem, d, w)
    ensures var b1, b2 := CopyTo(Pair(a, b), Pair(x, y)), CopyTo(Pair(c, d), Pair(b, a));
      && Fusable(b1, b2) && Fusion.Width(Over(b1)) == Fusion.Width(Over(b2)) == 2
      && HasOne(RunTree(CopyMachine(), Seq(Over(b1), Over(b2)), mem), c, v)
      && HasOne(RunTree(CopyMachine(), Over(Seq(b1, b2)), mem), c, w)
  {
    CopiesFuse(Pair(a, b), Pair(x, y), Pair(c, d), Pair(b, a));
    PairParts(a, b);
    PairParts(x, y);
    PairParts(c, d);
    PairParts(b, a);
    CrosswiseApart(a, b, c, d, x, y, mem, u, v, w);
    CrosswiseFused(a, b, c, d, x, y, mem, u, v, w);
  }

  /** A loop of pairwise copies copies one pair after the other. */
  lemma PairCopied(t: Name, t': Name, s: Name, s': Name, mem: Mem<Cells<int>>, p: int, q: int, y: int, y': int)
    requires OneName(t) && OneName(t') && OneName(s) && OneName(s') && t != t' && t != s'
    requires HasOne(mem, s, p) && HasOne(mem, s', q) && HasOne(mem, t, y) && HasOne(mem, t', y')
    ensures Fusion.Width(Over(CopyTo(Pair(t, t'), Pair(s, s')))) == 2
    ensures RunTree(CopyMachine(), Over(CopyTo(Pair(t, t'), Pair(s, s'))), mem) ==
      mem[t := map[[0] := p]][t' := map[[0] := q]]
  {
    PairParts(t, t');
    PairParts(s, s');
    var node := Over(CopyTo(Pair(t, t'), Pair(s, s')));
    TwoMembers(CopyMachine(), node, mem);
    OverOnce(CopyTo(t, s), mem);
    CopyDone(t, s, mem, p, y);
    var m1 := mem[t := map[[0] := p]];
    OverOnce(CopyTo(t', s'), m1);
    CopyDone(t', s', m1, q, y');
  }

  lemma CrosswiseApart(a: Name, b: Name, c: Name, d: Name, x: Name, y: Name, mem: Mem<Cells<int>>, u: int, v: int,
      w: int)
    requires Apart6(a, b, c, d, x, y)
    requires HasOne(mem, x, u) && HasOne(mem, y, v) && HasOne(mem, b, w) && HasOne(mem, a, w) && HasOne(mem, c, w) &&
      HasOne(mem, d, w)
    ensures Fusion.Width(Over(CopyTo(Pair(c, d), Pair(b, a)))) == 2
    ensures HasOne(RunTree(CopyMachine(),
      Seq(Over(CopyTo(Pair(a, b), Pair(x, y))), Over(CopyTo(Pair(c, d), Pair(b, a)))), mem), c, v)
  {
    PairCopied(a, b, x, y, mem, u, v, w, w);
    var m1 := mem[a := map[[0] := u]][b := map[[0] := v]];
    PairCopied(c, d, b, a, m1, v, u, w, w);
  }

  /** Both bodies, for one member. */
  lemma BothCopied(t: Name, s: Name, t': Name, s': Name, mem: Mem<Cells<int>>, p: int, q: int, y: int, y': int)
    requires t != s' && t != t' && HasOne(mem, s, p) && HasOne(mem, t, y) && HasOne(mem, s', q) && HasOne(mem, t', y')
    ensures Exec(CopyMachine(), Over(Seq(CopyTo(t, s), CopyTo(t', s'))), map[], mem) ==
      mem[t := map[[0] := p]][t' := map[[0] := q]]
  {
    OverOnce(Seq(CopyTo(t, s), CopyTo(t', s')), mem);
    CopyDone(t, s, mem, p, y);
    CopyDone(t', s', mem[t := map[[0] := p]], q, y');
  }

  lemma CrosswiseFused(a: Name, b: Name, c: Name, d: Name, x: Name, y: Name, mem: Mem<Cells<int>>, u: int, v: int,
      w: int)
    requires Apart6(a, b, c, d, x, y)
    requires HasOne(mem, x, u) && HasOne(mem, y, v) && HasOne(mem, b, w) && HasOne(mem, a, w) && HasOne(mem, c, w) &&
      HasOne(mem, d, w)
    ensures HasOne(RunTree(CopyMachine(), Over(Seq(CopyTo(Pair(a, b), Pair(x, y)), CopyTo(Pair(c, d), Pair(b, a)))),
      mem), c, w)
  {
    PairParts(a, b);
    PairParts(x, y);
    PairParts(c, d);
    PairParts(b, a);
    var node := Over(Seq(CopyTo(Pair(a, b), Pair(x, y)), CopyTo(Pair(c, d), Pair(b, a))));
    FusedNode(Pair(a, b), Pair(x, y), Pair(c, d), Pair(b, a), 0);
    FusedNode(Pair(a, b), Pair(x, y), Pair(c, d), Pair(b, a), 1);
    TwoMembers(CopyMachine(), node, mem);
    BothCopied(a, x, c, b, mem, u, w, w, w);
    var m1 := mem[a := map[[0] := u]][c := map[[0] := w]];
    BothCopied(b, y, d, a, m1, v, u, w, w);
  }

  /** The second loop has one member and reads a pair: fused, it runs for the other member too. */
  lemma UnevenInput(a: Name, b: Name, c: Name, d: Name, x: Name, y: Name, mem: Mem<Cells<int>>, u: int, v: int, w: int)
    requires Apart6(a, b, c, d, x, y)
    requires HasOne(mem, x, u) && HasOne(mem, y, v) && HasOne(mem, b, w) && HasOne(mem, a, w) && HasOne(mem, c, w)
    ensures var b1, b2 := CopyTo(Pair(a, b), Pair(x, y)), CopyTo(c, Pair(a, b));
      && Fusable(b1, b2) && Fusion.Width(Over(b1)) == 2 && Fusion.Width(Over(b2)) == 1
      && HasOne(RunTree(CopyMachine(), Seq(Over(b1), Over(b2)), mem), c, u)
      && HasOne(RunTree(CopyMachine(), Over(Seq(b1, b2)), mem), c, v)
  {
    CopiesFuse(Pair(a, b), Pair(x, y), c, Pair(a, b));
    PairParts(a, b);
    SplitOne(c);
    UnevenApart(a, b, c, x, y, mem, u, v, w);
    UnevenFused(a, b, c, x, y, mem, u, v, w);
  }

  lemma UnevenApart(a: Name, b: Name, c: Name, x: Name, y: Name, mem: Mem<Cells<int>>, u: int, v: int, w: int)
    requires OneName(a) && OneName(b) && OneName(c) && OneName(x) && OneName(y) && a != b && a != y && c != a && c != b
    requires HasOne(mem, x, u) && HasOne(mem, y, v) && HasOne(mem, b, w) && HasOne(mem, a, w) && HasOne(mem, c, w)
    ensures HasOne(RunTree(CopyMachine(), Seq(Over(CopyTo(Pair(a, b), Pair(x, y))), Over(CopyTo(c, Pair(a, b)))), mem),
      c, u)
  {
    PairParts(a, b);
    SplitOne(c);
    PairCopied(a, b, x, y, mem, u, v, w, w);
    var m1 := mem[a := map[[0] := u]][b := map[[0] := v]];
    OneMember(CopyMachine(), Over(CopyTo(c, Pair(a, b))), m1);
    OverOnce(CopyTo(c, a), m1);
    CopyDone(c, a, m1, u, w);
  }

  lemma UnevenFused(a: Name, b: Name, c: Name, x: Name, y: Name, mem: Mem<Cells<int>>, u: int, v: int, w: int)
    requires OneName(a) && OneName(b) && OneName(c) && OneName(x) && OneName(y)
    requires a != b && a != y && c != a && c != b && c != x && c != y && b != x
    requires HasOne(mem, x, u) && HasOne(mem, y, v) && HasOne(mem, b, w) && HasOne(mem, a, w) && HasOne(mem, c, w)
    ensures HasOne(RunTree(CopyMachine(), Over(Seq(CopyTo(Pair(a, b), Pair(x, y)), CopyTo(c, Pair(a, b)))), mem), c, v)
  {
    PairParts(a, b);
    PairParts(x, y);
    SplitOne(c);
    var node := Over(Seq(CopyTo(Pair(a, b), Pair(x, y)), CopyTo(c, Pair(a, b))));
    FusedNode(Pair(a, b), Pair(x, y), c, Pair(a, b), 0);
    FusedNode(Pair(a, b), Pair(x, y), c, Pair(a, b), 1);
    TwoMembers(CopyMachine(), node, mem);
    OneBody(a, x, c, mem, u, w);
    var m1 := mem[a := map[[0] := u]][c := map[[0] := u]];
    assert HasOne(m1, c, u);
    OneBody(b, y, c, m1, v, w);
  }

  lemma OneBody(t: Name, s: Name, c: Name, mem: Mem<Cells<int>>, p: int, y: int)
    requires t != c && HasOne(mem, s, p) && HasOne(mem, t, y) && exists z :: HasOne(mem, c, z)
    ensures Exec(CopyMachine(), Over(Seq(CopyTo(t, s), CopyTo(c, t))), map[], mem) ==
      mem[t := map[[0] := p]][c := map[[0] := p]]
  {
    var z :| HasOne(mem, c, z);
    OverOnce(Seq(CopyTo(t, s), CopyTo(c, t)), mem);
    CopyDone(t, s, mem, p, y);
    CopyDone(c, t, mem[t := map[[0] := p]], p, z);
  }
}
