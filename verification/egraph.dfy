/** Enumerating and counting the programs of an e-graph (optimizer/src/extract.rs). */
module Extraction {
  import opened Ast

  const MAX_DEPTH := 100

  type Id = nat

  datatype ENode =
    | SeqNode(left: Id, right: Id)
    | TLoopNode(kids: seq<Id>)
    | OpNode(op: string, kids: seq<Id>)
  {
    function Children(): seq<Id> {
      match this
      case SeqNode(l, r) => [l, r]
      case TLoopNode(ks) => ks
      case OpNode(_, ks) => ks
    }
  }

  /** The classes of an e-graph, and the nodes marked as deleted in each. */
  datatype EGraph = EGraph(classes: map<Id, seq<ENode>>, deleted: map<Id, set<ENode>>)
  {
    predicate Valid() {
      forall id, n, c :: id in classes && n in classes[id] && c in n.Children() ==> c in classes
    }

    predicate IsDeleted(id: Id, n: ENode) { id in deleted && n in deleted[id] }
  }

  /** How nodes are printed, and the smallest term of a class, which closes a cycle. */
  datatype Printer = Printer(display: ENode -> string, format: (ENode, seq<string>) -> string, best: Id -> string)

  /** The node choices of a structural path. */
  type Path = map<Id, ENode>

  predicate PathOk(g: EGraph, path: Path) {
    forall id, c :: id in path && c in path[id].Children() ==> c in g.classes
  }

  function Explored(g: EGraph, path: Path, id: Id): seq<ENode>
    requires id in g.classes
  {
    if id in path then [path[id]] else g.classes[id]
  }

  // ---------------------------------------------------------------------------------------------
  // The commutativity filter

  predicate SwappedBy(n: ENode, other: ENode) {
    n.SeqNode? && other.SeqNode? && n.left == other.right && n.right == other.left
  }

  /** `other` runs the second step of n first: n is (a (b rest)) and other is (b (a rest)). */
  predicate RotatedBy(g: EGraph, n: ENode, nested: ENode, other: ENode, otherNested: ENode)
    requires n.SeqNode? && n.right in g.classes
    requires other.SeqNode? ==> other.right in g.classes
  {
    nested.SeqNode? && other.SeqNode? && otherNested.SeqNode? && nested in g.classes[n.right] &&
      otherNested in g.classes[other.right] &&
    other.left == nested.left && otherNested.left == n.left && otherNested.right == nested.right
  }

  ghost predicate SkipWitness(g: EGraph, n: ENode, other: ENode)
    requires n.SeqNode? && n.right in g.classes
    requires other.SeqNode? ==> other.right in g.classes
  {
    (SwappedBy(n, other) && n.left > n.right) ||
    exists nested, otherNested :: RotatedBy(g, n, nested, other, otherNested) && n.left > nested.left
  }

  predicate Closed(g: EGraph, n: ENode) { forall c :: c in n.Children() ==> c in g.classes }

  /** The specification of the filter: another Seq of the class says the same with a smaller head. */
  ghost predicate Skipped(g: EGraph, id: Id, n: ENode)
    requires g.Valid() && id in g.classes && Closed(g, n)
  {
    n.SeqNode? && exists other :: SkippedFor(g, id, n, other)
  }

  ghost predicate SkippedFor(g: EGraph, id: Id, n: ENode, other: ENode)
    requires g.Valid() && id in g.classes && Closed(g, n) && n.SeqNode?
  {
    other in g.classes[id] && other.SeqNode? && n.right in n.Children() && other.right in other.Children() &&
      SkipWitness(g, n, other)
  }

  predicate SwapSkips(n: ENode, other: ENode) {
    n.SeqNode? && SwappedBy(n, other) && n.left > n.right
  }

  /** The two cases of the filter. */
  lemma SkippedByParts(g: EGraph, id: Id, n: ENode)
    requires g.Valid() && id in g.classes && Closed(g, n) && n.SeqNode? && n.right in g.classes
    ensures Skipped(g, id, n) <==>
            (exists other :: other in g.classes[id] && SwapSkips(n, other)) ||
              (exists nested :: nested in g.classes[n.right] && NestedSkips(g, id, n, nested))
  {
    assert n.right in n.Children();
    if other :| other in g.classes[id] && SwapSkips(n, other) {
      assert other.right in other.Children();
      assert SkippedFor(g, id, n, other);
    }
    if nested :| nested in g.classes[n.right] && NestedSkips(g, id, n, nested) {
      var other, otherNested :|
        other in g.classes[id] && other.SeqNode? && other.right in other.Children() &&
          RotatedBy(g, n, nested, other, otherNested) && n.left > nested.left;
      assert SkippedFor(g, id, n, other);
    }
    if other :| SkippedFor(g, id, n, other) && !SwapSkips(n, other) {
      var nested, otherNested :| RotatedBy(g, n, nested, other, otherNested) && n.left > nested.left;
      assert NestedSkips(g, id, n, nested);
    }
  }

  /** should_skip_seq_for_commutativity. */
  method ShouldSkip(g: EGraph, id: Id, n: ENode) returns (skip: bool)
    requires g.Valid() && id in g.classes && Closed(g, n)
    ensures skip <==> Skipped(g, id, n)
  {
    if !n.SeqNode? { return false; }
    assert n.right in n.Children();
    var nodes, inner := g.classes[id], g.classes[n.right];
    var i := 0;
    while i < |nodes|
      invariant 0 <= i <= |nodes|
      invariant forall k :: 0 <= k < i ==> !SwapSkips(n, nodes[k])
    {
      if nodes[i].SeqNode? && n.left == nodes[i].right && n.right == nodes[i].left && n.left > n.right {
        assert nodes[i].right in nodes[i].Children();
        assert SkippedFor(g, id, n, nodes[i]);
        return true;
      }
      i := i + 1;
    }
    i := 0;
    while i < |inner|
      invariant 0 <= i <= |inner|
      invariant forall k :: 0 <= k < i ==> !NestedSkips(g, id, n, inner[k])
    {
      if inner[i].SeqNode? {
        var found := NestedSkipsNow(g, id, n, inner[i]);
        if found { return true; }
      }
      i := i + 1;
    }
    SkippedByParts(g, id, n);
    return false;
  }

  ghost predicate NestedSkips(g: EGraph, id: Id, n: ENode, nested: ENode)
    requires g.Valid() && id in g.classes && Closed(g, n) && n.SeqNode?
  {
    n.right in n.Children() &&
    exists other, otherNested ::
      other in g.classes[id] && other.SeqNode? && other.right in other.Children() &&
        RotatedBy(g, n, nested, other, otherNested) && n.left > nested.left
  }

  method NestedSkipsNow(g: EGraph, id: Id, n: ENode, nested: ENode) returns (skip: bool)
    requires g.Valid() && id in g.classes && Closed(g, n) && n.SeqNode?
    requires n.right in g.classes && nested in g.classes[n.right] && nested.SeqNode?
    ensures skip <==> NestedSkips(g, id, n, nested)
    ensures skip ==> Skipped(g, id, n)
  {
    var nodes := g.classes[id];
    assert n.right in n.Children();
    var j := 0;
    while j < |nodes|
      invariant 0 <= j <= |nodes|
      invariant forall k :: 0 <= k < j ==> !Rotates(g, n, nested, nodes[k])
    {
      var other := nodes[j];
      if other.SeqNode? && other.left == nested.left {
        assert other.right in other.Children();
        var rest := g.classes[other.right];
        var k := 0;
        while k < |rest|
          invariant 0 <= k <= |rest|
          invariant forall m :: 0 <= m < k ==> !(RotatedBy(g, n, nested, other, rest[m]) && n.left > nested.left)
        {
          if rest[k].SeqNode? && rest[k].left == n.left && rest[k].right == nested.right && n.left > nested.left {
            assert RotatedBy(g, n, nested, other, rest[k]);
            assert SkippedFor(g, id, n, other);
            return true;
          }
          k := k + 1;
        }
      }
      j := j + 1;
    }
    return false;
  }

  ghost predicate Rotates(g: EGraph, n: ENode, nested: ENode, other: ENode)
    requires n.SeqNode? && n.right in g.classes
  {
    nested.SeqNode? && other.SeqNode? && other.right in g.classes && n.left > nested.left &&
      exists otherNested :: RotatedBy(g, n, nested, other, otherNested)
  }

  /** One step of the chain from a skipped node: another Seq of the class, the same two steps swapped,
      with a strictly smaller head. */
  lemma SkippedHasWitness(g: EGraph, id: Id, n: ENode) returns (other: ENode)
    requires g.Valid() && id in g.classes && Closed(g, n) && Skipped(g, id, n)
    ensures SkippedFor(g, id, n, other) && other.left < n.left
  {
    other :| SkippedFor(g, id, n, other);
  }

  /** A chain of swaps inside one class, from a node to one the filter keeps. */
  ghost predicate SwapChain(g: EGraph, id: Id, chain: seq<ENode>)
    requires g.Valid() && id in g.classes
  {
    && chain != []
    && (forall k :: 0 <= k < |chain| ==> chain[k] in g.classes[id] && chain[k].SeqNode?)
    && forall k :: 0 <= k < |chain| - 1 ==>
      SkippedFor(g, id, chain[k], chain[k + 1]) && chain[k + 1].left < chain[k].left
  }

  /** Every Seq node of a class reaches one that is kept; so a class with a Seq keeps a Seq. */
  lemma {:induction false} EverySkippedReachesKept(g: EGraph, id: Id, n: ENode) returns (chain: seq<ENode>)
    requires g.Valid() && id in g.classes && n in g.classes[id] && n.SeqNode?
    ensures SwapChain(g, id, chain) && chain[0] == n
    ensures !Skipped(g, id, chain[|chain| - 1])
    decreases n.left
  {
    if Skipped(g, id, n) {
      var other := SkippedHasWitness(g, id, n);
      var rest := EverySkippedReachesKept(g, id, other);
      chain := [n] + rest;
      forall k | 0 <= k < |chain| - 1
        ensures SkippedFor(g, id, chain[k], chain[k + 1]) && chain[k + 1].left < chain[k].left
      {
        if k > 0 { assert chain[k] == rest[k - 1] && chain[k + 1] == rest[k]; }
      }
    } else {
      chain := [n];
    }
  }

  // ---------------------------------------------------------------------------------------------
  // Cartesian products

  function ConsAll<T>(x: T, tails: seq<seq<T>>): (r: seq<seq<T>>)
    ensures |r| == |tails|
  {
    seq(|tails|, k requires 0 <= k < |tails| => [x] + tails[k])
  }

  function PairAll<T>(first: seq<T>, tails: seq<seq<T>>): seq<seq<T>> {
    if first == [] then [] else ConsAll(first[0], tails) + PairAll(first[1..], tails)
  }

  function Cartesian<T>(lists: seq<seq<T>>): seq<seq<T>> {
    if lists == [] then [[]] else PairAll(lists[0], Cartesian(lists[1..]))
  }

  function Product(ns: seq<nat>): nat { if ns == [] then 1 else ns[0] * Product(ns[1..]) }

  function Lengths<T>(lists: seq<seq<T>>): seq<nat> {
    seq(|lists|, k requires 0 <= k < |lists| => |lists[k]|)
  }

  lemma {:induction false} PairAllLength<T>(first: seq<T>, tails: seq<seq<T>>)
    ensures |PairAll(first, tails)| == |first| * |tails|
  {
    if first != [] { PairAllLength(first[1..], tails); }
  }

  /** The product of lists has the product of their lengths as its length. */
  lemma {:induction false} CartesianLength<T>(lists: seq<seq<T>>)
    ensures |Cartesian(lists)| == Product(Lengths(lists))
  {
    if lists != [] {
      CartesianLength(lists[1..]);
      PairAllLength(lists[0], Cartesian(lists[1..]));
      assert Lengths(lists)[1..] == Lengths(lists[1..]);
    }
  }

  ghost predicate Picks<T(!new)>(lists: seq<seq<T>>, c: seq<T>) {
    |c| == |lists| && forall k :: 0 <= k < |c| ==> c[k] in lists[k]
  }

  lemma {:induction false} PairAllMembers<T>(first: seq<T>, tails: seq<seq<T>>, c: seq<T>)
    ensures c in PairAll(first, tails) <==> c != [] && c[0] in first && c[1..] in tails
  {
    if first != [] {
      PairAllMembers(first[1..], tails, c);
      var here := ConsAll(first[0], tails);
      if c in here {
        var k :| 0 <= k < |here| && here[k] == c;
        assert c[1..] == tails[k];
      }
      if c != [] && c[0] == first[0] && c[1..] in tails {
        var k :| 0 <= k < |tails| && tails[k] == c[1..];
        assert c == [c[0]] + c[1..];
        assert here[k] == c;
      }
    }
  }

  /** The product holds exactly the ways of picking one item from every list. */
  lemma {:induction false} CartesianMembers<T(!new)>(lists: seq<seq<T>>, c: seq<T>)
    ensures c in Cartesian(lists) <==> Picks(lists, c)
  {
    if lists != [] {
      PairAllMembers(lists[0], Cartesian(lists[1..]), c);
      if c != [] { CartesianMembers(lists[1..], c[1..]); }
      if c != [] && c[0] in lists[0] && Picks(lists[1..], c[1..]) {
        forall k | 0 <= k < |c| ensures c[k] in lists[k] {
          if k > 0 { assert c[1..][k - 1] in lists[1..][k - 1]; }
        }
      }
    }
  }

  method CartesianProduct<T(0)>(lists: seq<seq<T>>) returns (result: seq<seq<T>>)
    ensures result == Cartesian(lists)
  {
    if |lists| == 0 { return [[]]; }
    if |lists| == 1 {
      result := seq(|lists[0]|, k requires 0 <= k < |lists[0]| => [lists[0][k]]);
      Singles(lists[0]);
      assert Cartesian(lists[1..]) == [[]];
      return;
    }
    result := [];
    var first := lists[0];
    var restProduct := CartesianProduct(lists[1..]);
    for i := 0 to |first|
      invariant result + PairAll(first[i..], restProduct) == PairAll(first, restProduct)
    {
      var some := [];
      for j := 0 to |restProduct|
        invariant |some| == j && forall k :: 0 <= k < j ==> some[k] == [first[i]] + restProduct[k]
      {
        some := some + [[first[i]] + restProduct[j]];
      }
      assert some == ConsAll(first[i], restProduct);
      assert first[i..][1..] == first[i + 1..];
      result := result + some;
    }
    assert first[|first|..] == [];
  }

  lemma {:induction false} Singles<T>(xs: seq<T>)
    ensures PairAll(xs, [[]]) == seq(|xs|, k requires 0 <= k < |xs| => [xs[k]])
  {
    if xs != [] {
      Singles(xs[1..]);
      var here := ConsAll(xs[0], [[]]);
      assert here[0] == [xs[0]] + [];
      assert [xs[0]] + [] == [xs[0]];
      assert here == [[xs[0]]];
    }
  }

  // ---------------------------------------------------------------------------------------------
  // The listing and the count

  predicate LeftOfSeq(parent: Option<ENode>, index: nat) {
    parent.Some? && parent.value.SeqNode? && index == 0
  }

  ghost predicate Filtered(g: EGraph, id: Id, n: ENode, parent: Option<ENode>, index: nat)
    requires g.Valid() && id in g.classes && Closed(g, n)
  {
    (n.SeqNode? && LeftOfSeq(parent, index)) || n.TLoopNode? || Skipped(g, id, n)
  }

  /** A sound extraction problem: ids resolve, and the path only chooses nodes whose children do. */
  predicate Sound(g: EGraph, path: Path) { g.Valid() && PathOk(g, path) }

  ghost function Enumerate(g: EGraph, pr: Printer, path: Path, id: Id, visited: set<Id>, depth: nat,
      parent: Option<ENode>, index: nat): seq<string>
    requires Sound(g, path) && id in g.classes
    decreases if depth > MAX_DEPTH then 0 else MAX_DEPTH + 1 - depth, 3, 0
  {
    if id in visited then [pr.best(id)]
    else if depth > MAX_DEPTH then ["depth_limit"]
    else EnumerateNodes(g, pr, path, id, Explored(g, path, id), visited + {id}, depth, parent, index)
  }

  ghost function EnumerateNodes(g: EGraph, pr: Printer, path: Path, id: Id, nodes: seq<ENode>, visited: set<Id>,
      depth: nat, parent: Option<ENode>, index: nat): seq<string>
    requires Sound(g, path) && id in g.classes && depth <= MAX_DEPTH
    requires forall n :: n in nodes ==> Closed(g, n)
    decreases MAX_DEPTH + 1 - depth, 2, |nodes|
  {
    if nodes == [] then []
    else
      Unfiltered(g, pr, path, id, nodes[0], visited, depth, parent, index) +
      EnumerateNodes(g, pr, path, id, nodes[1..], visited, depth, parent, index)
  }

  ghost function Unfiltered(g: EGraph, pr: Printer, path: Path, id: Id, n: ENode, visited: set<Id>, depth: nat,
      parent: Option<ENode>, index: nat): seq<string>
    requires Sound(g, path) && id in g.classes && depth <= MAX_DEPTH && Closed(g, n)
    decreases MAX_DEPTH + 1 - depth, 1, 1
  {
    if Filtered(g, id, n, parent, index) then [] else EnumerateNode(g, pr, path, n, visited, depth)
  }

  lemma NextNode(g: EGraph, pr: Printer, path: Path, id: Id, nodes: seq<ENode>, i: nat, visited: set<Id>, depth: nat,
      parent: Option<ENode>, index: nat)
    requires Sound(g, path) && id in g.classes && depth <= MAX_DEPTH && i < |nodes|
    requires forall n :: n in nodes ==> Closed(g, n)
    ensures EnumerateNodes(g, pr, path, id, nodes[i..], visited, depth, parent, index) ==
            Unfiltered(g, pr, path, id, nodes[i], visited, depth, parent, index) +
              EnumerateNodes(g, pr, path, id, nodes[i + 1..], visited, depth, parent, index)
  {
    assert nodes[i..][0] == nodes[i] && nodes[i..][1..] == nodes[i + 1..];
  }

  lemma Regroup<T>(a: seq<T>, b: seq<T>, c: seq<T>)
    ensures a + (b + c) == a + b + c
  {
  }

  ghost function EnumerateNode(g: EGraph, pr: Printer, path: Path, n: ENode, visited: set<Id>, depth: nat): seq<string>
    requires Sound(g, path) && depth <= MAX_DEPTH && Closed(g, n)
    decreases MAX_DEPTH + 1 - depth, 1, 0
  {
    if n.Children() == [] then [pr.display(n)]
    else FormatAll(pr, n, Cartesian(EnumerateChildren(g, pr, path, n, n.Children(), visited, depth, 0)))
  }

  ghost function EnumerateChildren(g: EGraph, pr: Printer, path: Path, n: ENode, kids: seq<Id>, visited: set<Id>,
      depth: nat, index: nat): (r: seq<seq<string>>)
    requires Sound(g, path) && depth <= MAX_DEPTH && forall c :: c in kids ==> c in g.classes
    ensures |r| == |kids|
    ensures forall k :: 0 <= k < |kids| ==>
      r[k] == Enumerate(g, pr, path, kids[k], visited, depth + 1, Some(n), index + k)
    decreases MAX_DEPTH + 1 - depth, 0, |kids|
  {
    seq(|kids|, k requires 0 <= k < |kids| => Enumerate(g, pr, path, kids[k], visited, depth + 1, Some(n), index + k))
  }

  function FormatAll(pr: Printer, n: ENode, combos: seq<seq<string>>): (r: seq<string>)
    ensures |r| == |combos|
  {
    seq(|combos|, k requires 0 <= k < |combos| => pr.format(n, combos[k]))
  }

  ghost function Count(g: EGraph, path: Path, id: Id, visited: set<Id>, depth: nat, parent: Option<ENode>,
      index: nat): nat
    requires Sound(g, path) && id in g.classes
    decreases if depth > MAX_DEPTH then 0 else MAX_DEPTH + 1 - depth, 3, 0
  {
    if id in visited then 1
    else if depth > MAX_DEPTH then 1
    else CountNodes(g, path, id, Explored(g, path, id), visited + {id}, depth, parent, index)
  }

  ghost function CountNodes(g: EGraph, path: Path, id: Id, nodes: seq<ENode>, visited: set<Id>, depth: nat,
      parent: Option<ENode>, index: nat): nat
    requires Sound(g, path) && id in g.classes && depth <= MAX_DEPTH
    requires forall n :: n in nodes ==> Closed(g, n)
    decreases MAX_DEPTH + 1 - depth, 2, |nodes|
  {
    if nodes == [] then 0
    else
      CountUnfiltered(g, path, id, nodes[0], visited, depth, parent, index) +
      CountNodes(g, path, id, nodes[1..], visited, depth, parent, index)
  }

  ghost function CountUnfiltered(g: EGraph, path: Path, id: Id, n: ENode, visited: set<Id>, depth: nat,
      parent: Option<ENode>, index: nat): nat
    requires Sound(g, path) && id in g.classes && depth <= MAX_DEPTH && Closed(g, n)
    decreases MAX_DEPTH + 1 - depth, 1, 1
  {
    if g.IsDeleted(id, n) || Filtered(g, id, n, parent, index) then 0 else CountNode(g, path, n, visited, depth)
  }

  ghost function CountNode(g: EGraph, path: Path, n: ENode, visited: set<Id>, depth: nat): nat
    requires Sound(g, path) && depth <= MAX_DEPTH && Closed(g, n)
    decreases MAX_DEPTH + 1 - depth, 1, 0
  {
    Product(CountChildren(g, path, n, n.Children(), visited, depth, 0))
  }

  ghost function CountChildren(g: EGraph, path: Path, n: ENode, kids: seq<Id>, visited: set<Id>, depth: nat,
      index: nat): (r: seq<nat>)
    requires Sound(g, path) && depth <= MAX_DEPTH && forall c :: c in kids ==> c in g.classes
    ensures |r| == |kids|
    ensures forall k :: 0 <= k < |kids| ==> r[k] == Count(g, path, kids[k], visited, depth + 1, Some(n), index + k)
    decreases MAX_DEPTH + 1 - depth, 0, |kids|
  {
    seq(|kids|, k requires 0 <= k < |kids| => Count(g, path, kids[k], visited, depth + 1, Some(n), index + k))
  }

  ghost predicate NothingDeleted(g: EGraph, path: Path) {
    forall id, n :: id in g.classes && n in Explored(g, path, id) ==> !g.IsDeleted(id, n)
  }

  /** With no node deleted the count is the length of the listing, for every path, visited set and depth. */
  lemma {:induction false} CountIsListingLength(g: EGraph, pr: Printer, path: Path, id: Id, visited: set<Id>,
      depth: nat, parent: Option<ENode>, index: nat)
    requires Sound(g, path) && id in g.classes && NothingDeleted(g, path)
    ensures Count(g, path, id, visited, depth, parent, index) ==
      |Enumerate(g, pr, path, id, visited, depth, parent, index)|
    decreases if depth > MAX_DEPTH then 0 else MAX_DEPTH + 1 - depth, 2, 0
  {
    if id !in visited && depth <= MAX_DEPTH {
      CountNodesIsLength(g, pr, path, id, Explored(g, path, id), visited + {id}, depth, parent, index);
    }
  }

  lemma {:induction false} CountNodesIsLength(g: EGraph, pr: Printer, path: Path, id: Id, nodes: seq<ENode>,
      visited: set<Id>, depth: nat, parent: Option<ENode>, index: nat)
    requires Sound(g, path) && id in g.classes && depth <= MAX_DEPTH && NothingDeleted(g, path)
    requires forall n :: n in nodes ==> Closed(g, n) && n in Explored(g, path, id)
    ensures CountNodes(g, path, id, nodes, visited, depth, parent, index) ==
      |EnumerateNodes(g, pr, path, id, nodes, visited, depth, parent, index)|
    decreases MAX_DEPTH + 1 - depth, 1, |nodes|
  {
    if nodes != [] {
      assert nodes[0] in nodes;
      CountNodeIsLength(g, pr, path, nodes[0], visited, depth);
      CountNodesIsLength(g, pr, path, id, nodes[1..], visited, depth, parent, index);
    }
  }

  lemma {:induction false} CountNodeIsLength(g: EGraph, pr: Printer, path: Path, n: ENode, visited: set<Id>, depth: nat)
    requires Sound(g, path) && depth <= MAX_DEPTH && Closed(g, n) && NothingDeleted(g, path)
    ensures CountNode(g, path, n, visited, depth) == |EnumerateNode(g, pr, path, n, visited, depth)|
    decreases MAX_DEPTH + 1 - depth, 0, 0
  {
    var kids := n.Children();
    var counts := CountChildren(g, path, n, kids, visited, depth, 0);
    if kids != [] {
      var lists := EnumerateChildren(g, pr, path, n, kids, visited, depth, 0);
      forall k | 0 <= k < |kids| ensures counts[k] == |lists[k]| {
        CountIsListingLength(g, pr, path, kids[k], visited, depth + 1, Some(n), k);
      }
      assert counts == Lengths(lists);
      CartesianLength(lists);
    }
  }

  // ---------------------------------------------------------------------------------------------
  // The running programs, with the visited set they update

  class Enumerator {
    const g: EGraph
    const pr: Printer
    const path: Path
    var visited: set<Id>

    constructor (g: EGraph, pr: Printer, path: Path)
      requires Sound(g, path)
      ensures this.g == g && this.pr == pr && this.path == path && visited == {}
    {
      this.g, this.pr, this.path, visited := g, pr, path, {};
    }

    predicate Ready(id: Id) { Sound(g, path) && id in g.classes }

    /** enumerate_full_recursive: lists exactly the specified programs and restores the visited set. */
    method EnumerateFull(id: Id, depth: nat, parent: Option<ENode>, index: nat) returns (results: seq<string>)
      requires Ready(id)
      modifies this
      ensures visited == old(visited)
      ensures results == Enumerate(g, pr, path, id, old(visited), depth, parent, index)
      decreases if depth > MAX_DEPTH then 0 else MAX_DEPTH + 1 - depth, 3
    {
      if id in visited { return [pr.best(id)]; }
      if depth > MAX_DEPTH { return ["depth_limit"]; }
      ghost var before := visited;
      visited := visited + {id};
      results := [];
      var nodes := Explored(g, path, id);
      ghost var inside := visited;
      ghost var all := EnumerateNodes(g, pr, path, id, nodes, inside, depth, parent, index);
      for i := 0 to |nodes|
        invariant visited == inside
        invariant results + EnumerateNodes(g, pr, path, id, nodes[i..], inside, depth, parent, index) == all
      {
        var some := ListUnfiltered(id, nodes[i], depth, parent, index);
        NextNode(g, pr, path, id, nodes, i, inside, depth, parent, index);
        Regroup(results, some, EnumerateNodes(g, pr, path, id, nodes[i + 1..], inside, depth, parent, index));
        results := results + some;
      }
      assert nodes[|nodes|..] == [];
      visited := visited - {id};
      assert visited == before;
    }

    method ListUnfiltered(id: Id, n: ENode, depth: nat, parent: Option<ENode>, index: nat) returns (some: seq<string>)
      requires Ready(id) && Closed(g, n) && depth <= MAX_DEPTH
      modifies this
      ensures visited == old(visited)
      ensures some == Unfiltered(g, pr, path, id, n, old(visited), depth, parent, index)
      decreases MAX_DEPTH + 1 - depth, 2
    {
      if n.SeqNode? && LeftOfSeq(parent, index) { return []; }
      if n.TLoopNode? { return []; }
      var skip := ShouldSkip(g, id, n);
      if skip { return []; }
      some := ListNode(n, depth);
    }

    method ListNode(n: ENode, depth: nat) returns (results: seq<string>)
      requires Sound(g, path) && Closed(g, n) && depth <= MAX_DEPTH
      modifies this
      ensures visited == old(visited)
      ensures results == EnumerateNode(g, pr, path, n, old(visited), depth)
      decreases MAX_DEPTH + 1 - depth, 1
    {
      if n.Children() == [] {
        results := [pr.display(n)];
      } else {
        var kids := ListChildren(n, depth);
        var combos := CartesianProduct(kids);
        results := FormatAll(pr, n, combos);
      }
    }

    method ListChildren(n: ENode, depth: nat) returns (lists: seq<seq<string>>)
      requires Sound(g, path) && Closed(g, n) && depth <= MAX_DEPTH
      modifies this
      ensures visited == old(visited)
      ensures lists == EnumerateChildren(g, pr, path, n, n.Children(), old(visited), depth, 0)
      decreases MAX_DEPTH + 1 - depth, 0
    {
      lists := [];
      var kids := n.Children();
      for k := 0 to |kids|
        invariant visited == old(visited) && |lists| == k
        invariant forall j :: 0 <= j < k ==> lists[j] == Enumerate(g, pr, path, kids[j], visited, depth + 1, Some(n), j)
      {
        var some := EnumerateFull(kids[k], depth + 1, Some(n), k);
        lists := lists + [some];
      }
    }

    /** count_full_recursive. */
    method CountFull(id: Id, depth: nat, parent: Option<ENode>, index: nat) returns (total: nat)
      requires Ready(id)
      modifies this
      ensures visited == old(visited)
      ensures total == Count(g, path, id, old(visited), depth, parent, index)
      decreases if depth > MAX_DEPTH then 0 else MAX_DEPTH + 1 - depth, 2
    {
      if id in visited { return 1; }
      if depth > MAX_DEPTH { return 1; }
      ghost var before := visited;
      visited := visited + {id};
      total := 0;
      var nodes := Explored(g, path, id);
      for i := 0 to |nodes|
        invariant visited == before + {id}
        invariant total + CountNodes(g, path, id, nodes[i..], visited, depth, parent, index)
               == CountNodes(g, path, id, nodes, visited, depth, parent, index)
      {
        assert nodes[i..][0] == nodes[i] && nodes[i..][1..] == nodes[i + 1..];
        var some := CountOne(id, nodes[i], depth, parent, index);
        total := total + some;
      }
      assert nodes[|nodes|..] == [];
      visited := visited - {id};
      assert visited == before;
    }

    method CountOne(id: Id, n: ENode, depth: nat, parent: Option<ENode>, index: nat) returns (nodeCount: nat)
      requires Ready(id) && Closed(g, n) && depth <= MAX_DEPTH
      modifies this
      ensures visited == old(visited)
      ensures nodeCount == CountUnfiltered(g, path, id, n, old(visited), depth, parent, index)
      decreases MAX_DEPTH + 1 - depth, 1
    {
      if g.IsDeleted(id, n) { return 0; }
      if n.SeqNode? && LeftOfSeq(parent, index) { return 0; }
      if n.TLoopNode? { return 0; }
      var skip := ShouldSkip(g, id, n);
      if skip { return 0; }
      nodeCount := 1;
      if n.Children() != [] {
        nodeCount := CountKids(n, depth);
      }
    }

    method CountKids(n: ENode, depth: nat) returns (product: nat)
      requires Sound(g, path) && Closed(g, n) && depth <= MAX_DEPTH
      modifies this
      ensures visited == old(visited)
      ensures product == CountNode(g, path, n, old(visited), depth)
      decreases MAX_DEPTH + 1 - depth, 0
    {
      product := 1;
      var kids := n.Children();
      ghost var counts := CountChildren(g, path, n, kids, visited, depth, 0);
      for k := 0 to |kids|
        invariant visited == old(visited)
        invariant product * Product(counts[k..]) == Product(counts)
      {
        var some := CountFull(kids[k], depth + 1, Some(n), k);
        assert counts[k..][0] == some && counts[k..][1..] == counts[k + 1..];
        Associate(product, some, Product(counts[k + 1..]));
        product := product * some;
      }
      assert counts[|kids|..] == [];
    }
  }

  lemma Associate(x: nat, y: nat, z: nat)
    ensures x * (y * z) == x * y * z
  {
  }

  // ---------------------------------------------------------------------------------------------
  // What the listing contains

  /** A program of the e-graph as the choices that lead to it; a cycle is cut at its second visit, and a branch
      below the depth limit. */
  datatype Tree = Cut(id: Id) | Deep | Pick(node: ENode, kids: seq<Tree>)

  ghost predicate Derives(g: EGraph, path: Path, t: Tree, id: Id, visited: set<Id>, depth: nat, parent: Option<ENode>,
      index: nat)
    requires Sound(g, path) && id in g.classes
    decreases t
  {
    match t
    case Cut(c) => c == id && id in visited
    case Deep => id !in visited && depth > MAX_DEPTH
    case Pick(n, kids) =>
      && id !in visited && depth <= MAX_DEPTH && n in Explored(g, path, id) && Closed(g, n)
      && !Filtered(g, id, n, parent, index)
      && |kids| == |n.Children()|
      && forall k :: 0 <= k < |kids| ==>
        Derives(g, path, kids[k], n.Children()[k], visited + {id}, depth + 1, Some(n), k)
  }

  function TreeText(pr: Printer, t: Tree): string {
    match t
    case Cut(id) => pr.best(id)
    case Deep => "depth_limit"
    case Pick(n, kids) => if kids == [] then pr.display(n) else pr.format(n, TreeTexts(pr, kids))
  }

  function TreeTexts(pr: Printer, ts: seq<Tree>): (r: seq<string>)
    ensures |r| == |ts| && forall k :: 0 <= k < |ts| ==> r[k] == TreeText(pr, ts[k])
  {
    seq(|ts|, k requires 0 <= k < |ts| => TreeText(pr, ts[k]))
  }

  ghost predicate Prints(g: EGraph, pr: Printer, path: Path, e: string, id: Id, visited: set<Id>, depth: nat,
      parent: Option<ENode>,
      index: nat)
    requires Sound(g, path) && id in g.classes
  {
    exists t :: Derives(g, path, t, id, visited, depth, parent, index) && TreeText(pr, t) == e
  }

  /** The listing holds exactly the texts of the derivable programs. */
  lemma {:induction false} ListingIsExact(g: EGraph, pr: Printer, path: Path, e: string, id: Id, visited: set<Id>,
      depth: nat, parent: Option<ENode>, index: nat)
    requires Sound(g, path) && id in g.classes
    ensures e in Enumerate(g, pr, path, id, visited, depth, parent, index) <==>
      Prints(g, pr, path, e, id, visited, depth, parent, index)
    decreases if depth > MAX_DEPTH then 0 else MAX_DEPTH + 1 - depth, 2
  {
    if id in visited {
      assert Derives(g, path, Cut(id), id, visited, depth, parent, index) && TreeText(pr, Cut(id)) == pr.best(id);
    } else if depth > MAX_DEPTH {
      assert Derives(g, path, Deep, id, visited, depth, parent, index) && TreeText(pr, Deep) == "depth_limit";
    } else {
      var nodes := Explored(g, path, id);
      ListedByNode(g, pr, path, e, id, nodes, visited + {id}, depth, parent, index);
      if e in Enumerate(g, pr, path, id, visited, depth, parent, index) {
        var n :| n in nodes && Closed(g, n) && !Filtered(g, id, n, parent, index) &&
          e in EnumerateNode(g, pr, path, n, visited + {id}, depth);
        NodeListed(g, pr, path, e, id, n, visited + {id}, depth);
        var kids :| NodeDerives(g, pr, path, e, n, visited + {id}, depth, kids);
        assert Derives(g, path, Pick(n, kids), id, visited, depth, parent, index);
      }
      if t :| Derives(g, path, t, id, visited, depth, parent, index) && TreeText(pr, t) == e {
        assert NodeDerives(g, pr, path, e, t.node, visited + {id}, depth, t.kids);
        NodeListed(g, pr, path, e, id, t.node, visited + {id}, depth);
      }
    }
  }

  ghost predicate NodeDerives(g: EGraph, pr: Printer, path: Path, e: string, n: ENode, visited: set<Id>, depth: nat,
      kids: seq<Tree>)
    requires Sound(g, path) && Closed(g, n)
  {
    |kids| == |n.Children()| && TreeText(pr, Pick(n, kids)) == e &&
    forall k :: 0 <= k < |kids| ==> Derives(g, path, kids[k], n.Children()[k], visited, depth + 1, Some(n), k)
  }

  lemma {:induction false} ListedByNode(g: EGraph, pr: Printer, path: Path, e: string, id: Id, nodes: seq<ENode>,
      visited: set<Id>, depth: nat, parent: Option<ENode>, index: nat)
    requires Sound(g, path) && id in g.classes && depth <= MAX_DEPTH
    requires forall n :: n in nodes ==> Closed(g, n)
    ensures e in EnumerateNodes(g, pr, path, id, nodes, visited, depth, parent, index) <==>
            exists n ::
              n in nodes && Closed(g, n) && !Filtered(g, id, n, parent, index) &&
              e in EnumerateNode(g, pr, path, n, visited, depth)
    decreases |nodes|
  {
    if nodes != [] { ListedByNode(g, pr, path, e, id, nodes[1..], visited, depth, parent, index); }
  }

  ghost predicate SomeKids(g: EGraph, pr: Printer, path: Path, e: string, n: ENode, visited: set<Id>, depth: nat)
    requires Sound(g, path) && Closed(g, n)
  {
    exists kids :: NodeDerives(g, pr, path, e, n, visited, depth, kids)
  }

  lemma {:induction false} NodeListed(g: EGraph, pr: Printer, path: Path, e: string, id: Id, n: ENode, visited: set<Id>,
      depth: nat)
    requires Sound(g, path) && depth <= MAX_DEPTH && Closed(g, n)
    ensures e in EnumerateNode(g, pr, path, n, visited, depth) <==> SomeKids(g, pr, path, e, n, visited, depth)
    decreases MAX_DEPTH + 1 - depth, 1
  {
    if n.Children() == [] {
      assert NodeDerives(g, pr, path, pr.display(n), n, visited, depth, []);
    } else {
      var lists := EnumerateChildren(g, pr, path, n, n.Children(), visited, depth, 0);
      if e in EnumerateNode(g, pr, path, n, visited, depth) {
        var combos := Cartesian(lists);
        var c :| 0 <= c < |combos| && pr.format(n, combos[c]) == e;
        ComboDerives(g, pr, path, n, visited, depth, lists, combos[c]);
      }
      if kids :| NodeDerives(g, pr, path, e, n, visited, depth, kids) {
        KidsListed(g, pr, path, e, n, visited, depth, lists, kids);
      }
    }
  }

  lemma {:induction false} ComboDerives(g: EGraph, pr: Printer, path: Path, n: ENode, visited: set<Id>, depth: nat,
      lists: seq<seq<string>>, combo: seq<string>)
    requires Sound(g, path) && depth <= MAX_DEPTH && Closed(g, n) &&
      n.Children() != []
    requires lists == EnumerateChildren(g, pr, path, n, n.Children(), visited, depth, 0) && combo in Cartesian(lists)
    ensures SomeKids(g, pr, path, pr.format(n, combo), n, visited, depth)
    decreases MAX_DEPTH + 1 - depth, 0, |combo| + 1
  {
    CartesianMembers(lists, combo);
    var kids := PickTrees(g, pr, path, n, visited, depth, combo, 0);
    assert forall k :: 0 <= k < |kids| ==> ChildDerives(g, pr, path, n, visited, depth, combo[0 + k], k, kids[k]);
    assert TreeTexts(pr, kids) == combo;
    assert NodeDerives(g, pr, path, pr.format(n, combo), n, visited, depth, kids);
  }

  lemma {:induction false} KidsListed(g: EGraph, pr: Printer, path: Path, e: string, n: ENode, visited: set<Id>,
      depth: nat, lists: seq<seq<string>>, kids: seq<Tree>)
    requires Sound(g, path) && depth <= MAX_DEPTH && Closed(g, n) &&
      n.Children() != []
    requires lists == EnumerateChildren(g, pr, path, n, n.Children(), visited, depth, 0) &&
      NodeDerives(g, pr, path, e, n, visited, depth, kids)
    ensures e in FormatAll(pr, n, Cartesian(lists))
    decreases MAX_DEPTH + 1 - depth, 0, 0
  {
    var ids, texts, combos := n.Children(), TreeTexts(pr, kids), Cartesian(lists);
    forall k | 0 <= k < |ids| ensures texts[k] in lists[k] {
      assert Prints(g, pr, path, texts[k], ids[k], visited, depth + 1, Some(n), k);
      ListingIsExact(g, pr, path, texts[k], ids[k], visited, depth + 1, Some(n), k);
    }
    CartesianMembers(lists, texts);
    var c :| 0 <= c < |combos| && combos[c] == texts;
    assert FormatAll(pr, n, combos)[c] == e;
  }

  ghost predicate ChildDerives(g: EGraph, pr: Printer, path: Path, n: ENode, visited: set<Id>, depth: nat, text: string,
      k: nat,
      t: Tree)
    requires Sound(g, path) && Closed(g, n) && k < |n.Children()|
  {
    Derives(g, path, t, n.Children()[k], visited, depth + 1, Some(n), k) && TreeText(pr, t) == text
  }

  /** One derivation for every picked text, from child `from` on. */
  lemma {:induction false} PickTrees(g: EGraph, pr: Printer, path: Path, n: ENode, visited: set<Id>, depth: nat,
      combo: seq<string>, from: nat) returns (kids: seq<Tree>)
    requires Sound(g, path) && depth <= MAX_DEPTH && Closed(g, n)
    requires from <= |n.Children()| == |combo|
    requires forall k :: 0 <= k < |combo| ==>
      combo[k] in Enumerate(g, pr, path, n.Children()[k], visited, depth + 1, Some(n), k)
    ensures AllDerive(g, pr, path, n, visited, depth, combo, from, kids)
    decreases MAX_DEPTH + 1 - depth, 0, |combo| - from
  {
    kids := [];
    if from < |combo| {
      var t := PickTree(g, pr, path, n, visited, depth, combo[from], from);
      var rest := PickTrees(g, pr, path, n, visited, depth, combo, from + 1);
      FirstDerives(g, pr, path, n, visited, depth, combo, from, t, rest);
      kids := [t] + rest;
    }
  }

  ghost predicate AllDerive(g: EGraph, pr: Printer, path: Path, n: ENode, visited: set<Id>, depth: nat,
      combo: seq<string>,
      from: nat, kids: seq<Tree>)
    requires Sound(g, path) && Closed(g, n) && from <= |n.Children()| == |combo|
  {
    |kids| == |combo| - from && forall k :: 0 <= k < |kids| ==>
      ChildDerives(g, pr, path, n, visited, depth, combo[from + k], from + k, kids[k])
  }

  lemma FirstDerives(g: EGraph, pr: Printer, path: Path, n: ENode, visited: set<Id>, depth: nat, combo: seq<string>,
      from: nat,
      t: Tree, rest: seq<Tree>)
    requires Sound(g, path) && Closed(g, n) && from < |n.Children()| == |combo|
    requires ChildDerives(g, pr, path, n, visited, depth, combo[from], from, t) &&
      AllDerive(g, pr, path, n, visited, depth, combo, from + 1, rest)
    ensures AllDerive(g, pr, path, n, visited, depth, combo, from, [t] + rest)
  {
    var kids := [t] + rest;
    forall k | 0 <= k < |kids|
      ensures ChildDerives(g, pr, path, n, visited, depth, combo[from + k], from + k, kids[k])
    {
      if k > 0 { assert kids[k] == rest[k - 1]; }
    }
  }

  lemma {:induction false} PickTree(g: EGraph, pr: Printer, path: Path, n: ENode, visited: set<Id>, depth: nat,
      text: string, k: nat) returns (t: Tree)
    requires Sound(g, path) && depth <= MAX_DEPTH && Closed(g, n) &&
      k < |n.Children()|
    requires text in Enumerate(g, pr, path, n.Children()[k], visited, depth + 1, Some(n), k)
    ensures ChildDerives(g, pr, path, n, visited, depth, text, k, t)
    decreases MAX_DEPTH + 1 - depth, 0, 0
  {
    ListingIsExact(g, pr, path, text, n.Children()[k], visited, depth + 1, Some(n), k);
    t :| Derives(g, path, t, n.Children()[k], visited, depth + 1, Some(n), k) && TreeText(pr, t) == text;
  }

  // ---------------------------------------------------------------------------------------------
  // Deleted nodes: the count skips them, the listing does not

  predicate AtMost(cs: seq<nat>, ls: seq<nat>) { |cs| == |ls| && forall k :: 0 <= k < |cs| ==> cs[k] <= ls[k] }

  /** Products of smaller factors are smaller, and equal only if a factor vanishes or all are equal. */
  lemma {:induction false} ProductAtMost(cs: seq<nat>, ls: seq<nat>)
    requires AtMost(cs, ls)
    ensures Product(cs) <= Product(ls)
    ensures Product(cs) == Product(ls) <==> cs == ls || 0 in ls
    ensures Product(ls) == 0 <==> 0 in ls
  {
    if cs != [] {
      ProductAtMost(cs[1..], ls[1..]);
      FactorsAtMost(cs[0], ls[0], Product(cs[1..]), Product(ls[1..]));
      assert cs == [cs[0]] + cs[1..] && ls == [ls[0]] + ls[1..];
    }
  }

  lemma FactorsAtMost(x: nat, y: nat, p: nat, q: nat)
    requires x <= y && p <= q
    ensures x * p <= y * q
    ensures x * p == y * q <==> (x == y && p == q) || y == 0 || q == 0
    ensures y * q == 0 <==> y == 0 || q == 0
  {
    assert y * q - x * p == (y - x) * p + y * (q - p);
    assert (y - x) * p >= 0 && y * (q - p) >= 0;
    if x * p == y * q && y > 0 && q > 0 { Positive(y - x, p, y, q - p); }
  }

  lemma Positive(a: nat, p: nat, y: nat, b: nat)
    requires a * p + y * b == 0 && y > 0 && p + b > 0
    ensures b == 0 && a == 0
  {
    assert y * b >= b by { assert (y - 1) * b >= 0; }
    assert p > 0 ==> a * p >= a by { if p > 0 { assert a * (p - 1) >= 0; } }
  }

  lemma {:induction false} CountAtMost(g: EGraph, pr: Printer, path: Path, id: Id, visited: set<Id>, depth: nat,
      parent: Option<ENode>, index: nat)
    requires Sound(g, path) && id in g.classes
    ensures Count(g, path, id, visited, depth, parent, index) <= |Enumerate(g, pr, path, id, visited, depth, parent,
      index)|
    decreases if depth > MAX_DEPTH then 0 else MAX_DEPTH + 1 - depth, 2, 0
  {
    if id !in visited && depth <= MAX_DEPTH {
      CountNodesAtMost(g, pr, path, id, Explored(g, path, id), visited + {id}, depth, parent, index);
    }
  }

  lemma {:induction false} CountNodesAtMost(g: EGraph, pr: Printer, path: Path, id: Id, nodes: seq<ENode>,
      visited: set<Id>, depth: nat, parent: Option<ENode>, index: nat)
    requires Sound(g, path) && id in g.classes && depth <= MAX_DEPTH
    requires forall n :: n in nodes ==> Closed(g, n)
    ensures CountNodes(g, path, id, nodes, visited, depth, parent, index) <= |EnumerateNodes(g, pr, path, id, nodes,
      visited, depth, parent, index)|
    decreases MAX_DEPTH + 1 - depth, 1, |nodes|
  {
    if nodes != [] {
      assert nodes[0] in nodes;
      NodeAtMost(g, pr, path, nodes[0], visited, depth);
      CountNodesAtMost(g, pr, path, id, nodes[1..], visited, depth, parent, index);
    }
  }

  ghost function Counts(g: EGraph, path: Path, n: ENode, visited: set<Id>, depth: nat): seq<nat>
    requires Sound(g, path) && depth <= MAX_DEPTH && Closed(g, n)
  {
    CountChildren(g, path, n, n.Children(), visited, depth, 0)
  }

  ghost function Sizes(g: EGraph, pr: Printer, path: Path, n: ENode, visited: set<Id>, depth: nat): seq<nat>
    requires Sound(g, path) && depth <= MAX_DEPTH && Closed(g, n)
  {
    Lengths(EnumerateChildren(g, pr, path, n, n.Children(), visited, depth, 0))
  }

  lemma {:induction false} NodeAtMost(g: EGraph, pr: Printer, path: Path, n: ENode, visited: set<Id>, depth: nat)
    requires Sound(g, path) && depth <= MAX_DEPTH && Closed(g, n)
    ensures AtMost(Counts(g, path, n, visited, depth), Sizes(g, pr, path, n, visited, depth))
    ensures CountNode(g, path, n, visited, depth) == Product(Counts(g, path, n, visited, depth))
    ensures |EnumerateNode(g, pr, path, n, visited, depth)| == Product(Sizes(g, pr, path, n, visited, depth))
    ensures CountNode(g, path, n, visited, depth) <= |EnumerateNode(g, pr, path, n, visited, depth)|
    decreases MAX_DEPTH + 1 - depth, 0, 0
  {
    var kids := n.Children();
    var lists := EnumerateChildren(g, pr, path, n, kids, visited, depth, 0);
    forall k | 0 <= k < |kids| ensures Counts(g, path, n, visited, depth)[k] <= |lists[k]| {
      CountAtMost(g, pr, path, kids[k], visited, depth + 1, Some(n), k);
    }
    CartesianLength(lists);
    ProductAtMost(Counts(g, path, n, visited, depth), Sizes(g, pr, path, n, visited, depth));
  }

  ghost predicate PicksDeleted(g: EGraph, t: Tree, id: Id)
  {
    match t
    case Cut(_) => false
    case Deep => false
    case Pick(n, kids) =>
      g.IsDeleted(id,
      n) || (|kids| == |n.Children()| && exists k :: 0 <= k < |kids| && PicksDeleted(g, kids[k], n.Children()[k]))
  }

  /** No derivable program of the class uses a deleted node. */
  ghost predicate Undeleted(g: EGraph, path: Path, id: Id, visited: set<Id>, depth: nat, parent: Option<ENode>,
      index: nat)
    requires Sound(g, path) && id in g.classes
  {
    forall t :: Derives(g, path, t, id, visited, depth, parent, index) ==> !PicksDeleted(g, t, id)
  }

  ghost predicate KidsDerive(g: EGraph, path: Path, n: ENode, visited: set<Id>, depth: nat, kids: seq<Tree>)
    requires Sound(g, path) && Closed(g, n)
  {
    |kids| == |n.Children()| && forall k :: 0 <= k < |kids| ==>
      Derives(g, path, kids[k], n.Children()[k], visited, depth + 1, Some(n), k)
  }

  ghost predicate Derivable(g: EGraph, path: Path, id: Id, visited: set<Id>, depth: nat, parent: Option<ENode>,
      index: nat)
    requires Sound(g, path) && id in g.classes
  {
    exists t :: Derives(g, path, t, id, visited, depth, parent, index)
  }

  lemma ListedIffDerivable(g: EGraph, pr: Printer, path: Path, id: Id, visited: set<Id>, depth: nat,
      parent: Option<ENode>, index: nat)
    requires Sound(g, path) && id in g.classes
    ensures Enumerate(g, pr, path, id, visited, depth, parent, index) != [] <==>
      Derivable(g, path, id, visited, depth, parent, index)
  {
    var all := Enumerate(g, pr, path, id, visited, depth, parent, index);
    if all != [] {
      ListingIsExact(g, pr, path, all[0], id, visited, depth, parent, index);
      assert all[0] in all;
    }
    if t :| Derives(g, path, t, id, visited, depth, parent, index) {
      assert Prints(g, pr, path, TreeText(pr, t), id, visited, depth, parent, index);
      ListingIsExact(g, pr, path, TreeText(pr, t), id, visited, depth, parent, index);
    }
  }

  /** One derivation per child, where every child has one. */
  lemma {:induction false} ChildTrees(g: EGraph, path: Path, n: ENode, visited: set<Id>, depth: nat, from: nat)
      returns (kids: seq<Tree>)
    requires Sound(g, path) && Closed(g, n) && from <= |n.Children()|
    requires forall k :: from <= k < |n.Children()| ==>
      Derivable(g, path, n.Children()[k], visited, depth + 1, Some(n), k)
    ensures |kids| == |n.Children()| - from
    ensures forall k :: 0 <= k < |kids| ==>
      Derives(g, path, kids[k], n.Children()[from + k], visited, depth + 1, Some(n), from + k)
    decreases |n.Children()| - from
  {
    kids := [];
    if from < |n.Children()| {
      assert Derivable(g, path, n.Children()[from], visited, depth + 1, Some(n), from);
      var t :| Derives(g, path, t, n.Children()[from], visited, depth + 1, Some(n), from);
      var rest := ChildTrees(g, path, n, visited, depth, from + 1);
      kids := [t] + rest;
      forall k | 0 <= k < |kids|
        ensures Derives(g, path, kids[k], n.Children()[from + k], visited, depth + 1, Some(n), from + k)
      {
        if k > 0 { assert kids[k] == rest[k - 1]; }
      }
    }
  }

  ghost predicate KidsUndeleted(g: EGraph, n: ENode, kids: seq<Tree>)
    requires |kids| == |n.Children()|
  {
    forall k :: 0 <= k < |kids| ==> !PicksDeleted(g, kids[k], n.Children()[k])
  }

  /** No derivable way to fill in the children uses a deleted node. */
  ghost predicate NodeUndeleted(g: EGraph, path: Path, n: ENode, visited: set<Id>, depth: nat)
    requires Sound(g, path) && Closed(g, n)
  {
    forall kids :: KidsDerive(g, path, n, visited, depth, kids) ==> KidsUndeleted(g, n, kids)
  }

  ghost predicate NodeDerivable(g: EGraph, path: Path, n: ENode, visited: set<Id>, depth: nat)
    requires Sound(g, path) && Closed(g, n)
  {
    exists kids :: KidsDerive(g, path, n, visited, depth, kids)
  }

  lemma NodeDerivableIff(g: EGraph, path: Path, n: ENode, visited: set<Id>, depth: nat)
    requires Sound(g, path) && Closed(g, n)
    ensures NodeDerivable(g, path, n, visited, depth) <==>
      forall k :: 0 <= k < |n.Children()| ==> Derivable(g, path, n.Children()[k], visited, depth + 1, Some(n), k)
  {
    if forall k :: 0 <= k < |n.Children()| ==> Derivable(g, path, n.Children()[k], visited, depth + 1, Some(n), k) {
      var kids := ChildTrees(g, path, n, visited, depth, 0);
      assert forall k :: 0 <= k < |kids| ==>
        Derives(g, path, kids[k], n.Children()[0 + k], visited, depth + 1, Some(n), 0 + k);
      assert KidsDerive(g, path, n, visited, depth, kids);
    }
    if kids :| KidsDerive(g, path, n, visited, depth, kids) {
      forall k | 0 <= k < |n.Children()| ensures Derivable(g, path, n.Children()[k], visited, depth + 1, Some(n), k) {
        assert Derives(g, path, kids[k], n.Children()[k], visited, depth + 1, Some(n), k);
      }
    }
  }

  /** A node's programs avoid deleted nodes exactly when it has none or every child's do. */
  lemma NodeUndeletedIff(g: EGraph, path: Path, n: ENode, visited: set<Id>, depth: nat)
    requires Sound(g, path) && Closed(g, n)
    ensures NodeUndeleted(g, path, n, visited, depth) <==>
            !NodeDerivable(g, path, n, visited, depth) || forall k :: 0 <= k < |n.Children()| ==>
              Undeleted(g, path, n.Children()[k], visited, depth + 1, Some(n), k)
  {
    var ids := n.Children();
    if (forall k :: 0 <= k < |ids| ==> Undeleted(g, path, ids[k], visited, depth + 1, Some(n), k)) {
      forall kids | KidsDerive(g, path, n, visited, depth, kids) ensures KidsUndeleted(g, n, kids) {
        forall k | 0 <= k < |kids| ensures !PicksDeleted(g, kids[k], ids[k]) {
          assert Derives(g, path, kids[k], ids[k], visited, depth + 1, Some(n), k);
        }
      }
    }
    if NodeUndeleted(g, path, n, visited, depth) && NodeDerivable(g, path, n, visited, depth) {
      var kids :| KidsDerive(g, path, n, visited, depth, kids);
      forall k, t | 0 <= k < |ids| && Derives(g, path, t, ids[k], visited, depth + 1, Some(n), k)
        ensures !PicksDeleted(g, t, ids[k])
      {
        var other := kids[k := t];
        assert KidsDerive(g, path, n, visited, depth, other);
        assert KidsUndeleted(g, n, other) && other[k] == t;
      }
    }
  }

  lemma {:induction false} ChildrenCountExact(g: EGraph, pr: Printer, path: Path, n: ENode, visited: set<Id>,
      depth: nat)
    requires Sound(g, path) && depth <= MAX_DEPTH && Closed(g, n)
    ensures 0 !in Sizes(g, pr, path, n, visited, depth) <==>
      forall k :: 0 <= k < |n.Children()| ==> Derivable(g, path, n.Children()[k], visited, depth + 1, Some(n), k)
    ensures Counts(g, path, n, visited, depth) == Sizes(g, pr, path, n, visited, depth)
            <==> forall k :: 0 <= k < |n.Children()| ==>
              Undeleted(g, path, n.Children()[k], visited, depth + 1, Some(n), k)
    decreases MAX_DEPTH + 1 - depth, 0, 0
  {
    var ids := n.Children();
    forall k | 0 <= k < |ids|
      ensures Sizes(g, pr, path, n, visited, depth)[k] == 0 <==>
        !Derivable(g, path, ids[k], visited, depth + 1, Some(n), k)
      ensures Counts(g, path, n, visited, depth)[k] == Sizes(g, pr, path, n, visited, depth)[k] <==>
        Undeleted(g, path, ids[k], visited, depth + 1, Some(n), k)
    {
      ListedIffDerivable(g, pr, path, ids[k], visited, depth + 1, Some(n), k);
      CountIsExact(g, pr, path, ids[k], visited, depth + 1, Some(n), k);
    }
    SeqFacts(Counts(g, path, n, visited, depth), Sizes(g, pr, path, n, visited, depth));
  }

  lemma SeqFacts(cs: seq<nat>, ls: seq<nat>)
    requires |cs| == |ls|
    ensures 0 in ls <==> exists k :: 0 <= k < |ls| && ls[k] == 0
    ensures cs == ls <==> forall k :: 0 <= k < |cs| ==> cs[k] == ls[k]
  {
  }

  /** The children's counts and listings decide whether a node is counted as it is listed. */
  lemma {:induction false} NodeCountExact(g: EGraph, pr: Printer, path: Path, n: ENode, visited: set<Id>, depth: nat)
    requires Sound(g, path) && depth <= MAX_DEPTH && Closed(g, n)
    ensures |EnumerateNode(g, pr, path, n, visited, depth)| == 0 <==> !NodeDerivable(g, path, n, visited, depth)
    ensures CountNode(g, path, n, visited, depth) == |EnumerateNode(g, pr, path, n, visited, depth)| <==>
      NodeUndeleted(g, path, n, visited, depth)
    decreases MAX_DEPTH + 1 - depth, 1, 0
  {
    NodeAtMost(g, pr, path, n, visited, depth);
    ProductAtMost(Counts(g, path, n, visited, depth), Sizes(g, pr, path, n, visited, depth));
    ChildrenCountExact(g, pr, path, n, visited, depth);
    NodeDerivableIff(g, path, n, visited, depth);
    NodeUndeletedIff(g, path, n, visited, depth);
  }

  /** A node of the class contributes to the count what it contributes to the listing exactly when no
      program that picks it uses a deleted node. */
  ghost predicate PickUndeleted(g: EGraph, path: Path, id: Id, n: ENode, visited: set<Id>, depth: nat,
      parent: Option<ENode>,
      index: nat)
    requires Sound(g, path) && id in g.classes && Closed(g, n)
  {
    !Filtered(g, id, n, parent, index) ==>
      if g.IsDeleted(id, n) then !NodeDerivable(g, path, n, visited, depth)
        else NodeUndeleted(g, path, n, visited, depth)
  }

  lemma UndeletedIff(g: EGraph, path: Path, id: Id, visited: set<Id>, depth: nat, parent: Option<ENode>, index: nat)
    requires Sound(g, path) && id in g.classes && id !in visited && depth <= MAX_DEPTH
    ensures Undeleted(g, path, id, visited, depth, parent, index) <==>
            forall n :: n in Explored(g, path, id) ==>
              PickUndeleted(g, path, id, n, visited + {id}, depth, parent, index)
  {
    if Undeleted(g, path, id, visited, depth, parent, index) {
      forall n | n in Explored(g, path, id)
        ensures PickUndeleted(g, path, id, n, visited + {id}, depth, parent, index)
      {
        if !Filtered(g, id, n, parent, index) {
          forall kids | KidsDerive(g, path, n, visited + {id}, depth, kids)
            ensures !g.IsDeleted(id, n) && KidsUndeleted(g, n, kids)
          {
            assert Derives(g, path, Pick(n, kids), id, visited, depth, parent, index);
            assert !PicksDeleted(g, Pick(n, kids), id);
          }
        }
      }
    }
    if forall n :: n in Explored(g, path, id) ==> PickUndeleted(g, path, id, n, visited + {id}, depth, parent, index) {
      forall t | Derives(g, path, t, id, visited, depth, parent, index) ensures !PicksDeleted(g, t, id) {
        if t.Pick? {
          assert PickUndeleted(g, path, id, t.node, visited + {id}, depth, parent, index);
          assert KidsDerive(g, path, t.node, visited + {id}, depth, t.kids);
        }
      }
    }
  }

  /** The count is the length of the listing exactly when no derivable
      program uses a node marked as deleted. */
  lemma {:induction false} CountIsExact(g: EGraph, pr: Printer, path: Path, id: Id, visited: set<Id>, depth: nat,
      parent: Option<ENode>, index: nat)
    requires Sound(g, path) && id in g.classes
    ensures var listed := |Enumerate(g, pr, path, id, visited, depth, parent, index)|;
      Count(g, path, id, visited, depth, parent, index) == listed <==>
        Undeleted(g, path, id, visited, depth, parent, index)
    decreases if depth > MAX_DEPTH then 0 else MAX_DEPTH + 1 - depth, 3, 0
  {
    if id in visited {
      assert forall t :: Derives(g, path, t, id, visited, depth, parent, index) ==> t.Cut?;
    } else if depth > MAX_DEPTH {
      assert forall t :: Derives(g, path, t, id, visited, depth, parent, index) ==> t.Deep?;
    } else {
      var nodes, inside := Explored(g, path, id), visited + {id};
      NodesCountExact(g, pr, path, id, nodes, inside, depth, parent, index);
      UndeletedIff(g, path, id, visited, depth, parent, index);
    }
  }

  lemma {:induction false} PickCountExact(g: EGraph, pr: Printer, path: Path, id: Id, n: ENode, visited: set<Id>,
      depth: nat, parent: Option<ENode>, index: nat)
    requires Sound(g, path) && id in g.classes && depth <= MAX_DEPTH && Closed(g, n)
    ensures var counted, listed :=
      CountUnfiltered(g, path, id, n, visited, depth, parent, index),
      |Unfiltered(g, pr, path, id, n, visited, depth, parent, index)|;
            counted <= listed && (counted == listed <==> PickUndeleted(g, path, id, n, visited, depth, parent, index))
    decreases MAX_DEPTH + 1 - depth, 1, 1
  {
    NodeAtMost(g, pr, path, n, visited, depth);
    NodeCountExact(g, pr, path, n, visited, depth);
  }

  lemma {:induction false} NodesCountExact(g: EGraph, pr: Printer, path: Path, id: Id, nodes: seq<ENode>,
      visited: set<Id>, depth: nat, parent: Option<ENode>, index: nat)
    requires Sound(g, path) && id in g.classes && depth <= MAX_DEPTH
    requires forall n :: n in nodes ==> Closed(g, n)
    ensures var listed := |EnumerateNodes(g, pr, path, id, nodes, visited, depth, parent, index)|;
      CountNodes(g, path, id, nodes, visited, depth, parent, index) == listed <==>
        forall n :: n in nodes ==> PickUndeleted(g, path, id, n, visited, depth, parent, index)
    decreases MAX_DEPTH + 1 - depth, 2, |nodes|
  {
    if nodes != [] {
      var n, rest := nodes[0], nodes[1..];
      assert n in nodes;
      PickCountExact(g, pr, path, id, n, visited, depth, parent, index);
      CountNodesAtMost(g, pr, path, id, rest, visited, depth, parent, index);
      NodesCountExact(g, pr, path, id, rest, visited, depth, parent, index);
      assert forall m :: m in nodes <==> m == n || m in rest;
    }
  }

  // ---------------------------------------------------------------------------------------------
  // Listings without a program

  /** The node is filtered out, or one of its children has an empty listing. */
  ghost predicate Barren(g: EGraph, pr: Printer, path: Path, id: Id, n: ENode, visited: set<Id>, depth: nat,
      parent: Option<ENode>, index: nat)
    requires Sound(g, path) && id in g.classes && Closed(g, n)
  {
    || Filtered(g, id, n, parent, index)
    || exists k ::
      0 <= k < |n.Children()| && Enumerate(g, pr, path, n.Children()[k], visited, depth + 1, Some(n), k) == []
  }

  lemma BarrenIff(g: EGraph, pr: Printer, path: Path, id: Id, n: ENode, visited: set<Id>, depth: nat,
      parent: Option<ENode>, index: nat)
    requires Sound(g, path) && id in g.classes && Closed(g, n) && depth <= MAX_DEPTH
    ensures Unfiltered(g, pr, path, id, n, visited, depth, parent, index) == [] <==>
      Barren(g, pr, path, id, n, visited, depth, parent, index)
  {
    if n.Children() != [] {
      var lists := EnumerateChildren(g, pr, path, n, n.Children(), visited, depth, 0);
      CartesianLength(lists);
      ProductAtMost(Lengths(lists), Lengths(lists));
      assert |FormatAll(pr, n, Cartesian(lists))| == Product(Lengths(lists));
      assert forall k :: 0 <= k < |lists| ==>
        lists[k] == Enumerate(g, pr, path, n.Children()[k], visited, depth + 1, Some(n), 0 + k);
      assert 0 in Lengths(lists) <==> exists k :: 0 <= k < |lists| && Lengths(lists)[k] == 0;
      assert forall k :: 0 <= k < |lists| ==> (Lengths(lists)[k] == 0 <==> lists[k] == []);
    }
  }

  lemma {:induction false} NodesBarrenIff(g: EGraph, pr: Printer, path: Path, id: Id, nodes: seq<ENode>,
      visited: set<Id>, depth: nat, parent: Option<ENode>, index: nat)
    requires Sound(g, path) && id in g.classes && depth <= MAX_DEPTH && forall n :: n in nodes ==> Closed(g, n)
    ensures EnumerateNodes(g, pr, path, id, nodes, visited, depth, parent, index) == [] <==>
      forall n :: n in nodes ==> Barren(g, pr, path, id, n, visited, depth, parent, index)
  {
    if nodes != [] {
      BarrenIff(g, pr, path, id, nodes[0], visited, depth, parent, index);
      NodesBarrenIff(g, pr, path, id, nodes[1..], visited, depth, parent, index);
      assert forall n :: n in nodes <==> n == nodes[0] || n in nodes[1..];
    }
  }

  /** A class has an empty listing exactly when every node the path leaves to it is filtered out or has a
      child with an empty listing. */
  lemma ListingEmptyIff(g: EGraph, pr: Printer, path: Path, id: Id, visited: set<Id>, depth: nat, parent: Option<ENode>,
      index: nat)
    requires Sound(g, path) && id in g.classes
    ensures Enumerate(g, pr, path, id, visited, depth, parent, index) == [] <==>
      id !in visited && depth <= MAX_DEPTH && forall n :: n in Explored(g, path, id) ==>
        Barren(g, pr, path, id, n, visited + {id}, depth, parent, index)
  {
    if id !in visited && depth <= MAX_DEPTH {
      NodesBarrenIff(g, pr, path, id, Explored(g, path, id), visited + {id}, depth, parent, index);
    }
  }

  /** Two steps in both orders. */
  function TwoOrders(): EGraph {
    EGraph(map[0 := [OpNode("a", [])], 1 := [OpNode("b", [])], 2 := [SeqNode(0, 1), SeqNode(1, 0)]], map[])
  }

  lemma TwoOrdersSound(path: Path)
    requires path == map[] || path == map[2 := SeqNode(1, 0)]
    ensures Sound(TwoOrders(), path)
  {
    assert SeqNode(1, 0).Children() == [1, 0] && SeqNode(0, 1).Children() == [0, 1];
  }

  /** The filter skips the second order and keeps the first. */
  lemma OneOrderSkipped()
    requires TwoOrders().Valid() && Closed(TwoOrders(), SeqNode(1, 0)) && Closed(TwoOrders(), SeqNode(0, 1))
    ensures Skipped(TwoOrders(), 2, SeqNode(1, 0)) && !Skipped(TwoOrders(), 2, SeqNode(0, 1))
  {
    var g, n, m := TwoOrders(), SeqNode(1, 0), SeqNode(0, 1);
    assert g.classes[2][0] == m && n.Children()[1] == 0 && m.Children()[1] == 1;
    assert SwappedBy(n, m) && SkippedFor(g, 2, n, m);
  }

  /** A class of one leaf lists it. */
  lemma LeafListed(g: EGraph, pr: Printer, path: Path, id: Id, op: string, visited: set<Id>, depth: nat,
      parent: Option<ENode>, index: nat)
    requires Sound(g, path) && id in g.classes && id !in visited && Explored(g, path, id) == [OpNode(op, [])]
    ensures Enumerate(g, pr, path, id, visited, depth, parent, index) != []
  {
    ListingEmptyIff(g, pr, path, id, visited, depth, parent, index);
    var kid := OpNode(op, []);
    assert kid in Explored(g, path, id) && kid.Children() == [];
  }

  lemma FirstOrderListed(pr: Printer)
    requires Sound(TwoOrders(), map[])
    ensures Closed(TwoOrders(), SeqNode(0, 1)) && !Barren(TwoOrders(), pr, map[], 2, SeqNode(0, 1), {2}, 0, None, 0)
  {
    var g, m := TwoOrders(), SeqNode(0, 1);
    assert m.Children() == [0, 1] && SeqNode(1, 0).Children() == [1, 0];
    OneOrderSkipped();
    LeafListed(g, pr, map[], 0, "a", {2}, 1, Some(m), 0);
    LeafListed(g, pr, map[], 1, "b", {2}, 1, Some(m), 1);
  }

  /** A path that picks the order the filter skips lists nothing, though the class has a program. */
  lemma SkippedPathInput(pr: Printer)
    ensures Sound(TwoOrders(), map[2 := SeqNode(1, 0)]) && Sound(TwoOrders(), map[])
    ensures Enumerate(TwoOrders(), pr, map[2 := SeqNode(1, 0)], 2, {}, 0, None, 0) == []
    ensures Enumerate(TwoOrders(), pr, map[], 2, {}, 0, None, 0) != []
  {
    TwoOrdersSound(map[2 := SeqNode(1, 0)]);
    TwoOrdersSound(map[]);
    FirstOrderListed(pr);
    SecondOrderUnlisted(pr);
    assert {} + {2} == {2};
    assert SeqNode(0, 1) in Explored(TwoOrders(), map[], 2);
    ListingEmptyIff(TwoOrders(), pr, map[], 2, {}, 0, None, 0);
  }

  lemma SecondOrderUnlisted(pr: Printer)
    requires Sound(TwoOrders(), map[2 := SeqNode(1, 0)])
    ensures Enumerate(TwoOrders(), pr, map[2 := SeqNode(1, 0)], 2, {}, 0, None, 0) == []
  {
    assert SeqNode(1, 0).Children() == [1, 0] && SeqNode(0, 1).Children() == [0, 1];
    OneOrderSkipped();
    ListingEmptyIff(TwoOrders(), pr, map[2 := SeqNode(1, 0)], 2, {}, 0, None, 0);
  }

  // ---------------------------------------------------------------------------------------------
  // The listing by its trees alone

  /** The class has the same two steps in the other order with a smaller head: as (b a) for (a b), or as
      (b (a rest)) for (a (b rest)). */
  ghost predicate Witnessed(g: EGraph, id: Id, a: Id, tail: Id)
    requires id in g.classes && tail in g.classes
  {
    || (tail < a && SeqNode(tail, a) in g.classes[id])
    || exists b, rest, other :: WitnessedBy(g, id, a, tail, b, rest, other)
  }

  predicate WitnessedBy(g: EGraph, id: Id, a: Id, tail: Id, b: Id, rest: Id, other: Id)
    requires id in g.classes && tail in g.classes
  {
    b < a && SeqNode(b, rest) in g.classes[tail] && SeqNode(b, other) in g.classes[id] && other in g.classes &&
      SeqNode(a, rest) in g.classes[other]
  }

  lemma WitnessedIff(g: EGraph, id: Id, n: ENode)
    requires g.Valid() && id in g.classes && Closed(g, n) && n.SeqNode? && n.right in g.classes
    ensures Skipped(g, id, n) <==> Witnessed(g, id, n.left, n.right)
  {
    assert n.right in n.Children();
    if SeqNode(n.right, n.left) in g.classes[id] && n.right < n.left {
      var other := SeqNode(n.right, n.left);
      assert other.right in other.Children() && SwappedBy(n, other) && SkippedFor(g, id, n, other);
    }
    if b, rest, o :| WitnessedBy(g, id, n.left, n.right, b, rest, o) {
      var other := SeqNode(b, o);
      assert other.right in other.Children() && RotatedBy(g, n, SeqNode(b, rest), other, SeqNode(n.left, rest));
      assert SkippedFor(g, id, n, other);
    }
    if other :| SkippedFor(g, id, n, other) {
      assert other == SeqNode(other.left, other.right);
      if !(SwappedBy(n, other) && n.left > n.right) {
        var nested, on :| RotatedBy(g, n, nested, other, on) && n.left > nested.left;
        assert nested == SeqNode(nested.left, nested.right) && on == SeqNode(n.left, nested.right);
        assert WitnessedBy(g, id, n.left, n.right, nested.left, nested.right, other.right);
      }
    }
  }

  /** The nodes of the tree are in the classes they stand for, or are those the path picks; at depth 101 the tree
      ends. */
  ghost predicate InClasses(g: EGraph, path: Path, t: Tree, id: Id, visited: set<Id>, depth: nat)
    requires Sound(g, path) && id in g.classes
    decreases t
  {
    match t
    case Cut(c) => c == id && id in visited
    case Deep => id !in visited && depth > 100
    case Pick(n, kids) =>
      && id !in visited && depth <= 100 && (if id in path then n == path[id] else n in g.classes[id]) &&
        |kids| == |n.Children()|
      && forall k :: 0 <= k < |kids| ==>
        n.Children()[k] in g.classes && InClasses(g, path, kids[k], n.Children()[k], visited + {id}, depth + 1)
  }

  predicate PicksSeq(t: Tree) { t.Pick? && t.node.SeqNode? }

  /** No sequence stands as the first child of a sequence. */
  predicate RightNested(t: Tree) {
    t.Pick? ==>
      && (PicksSeq(t) && |t.kids| > 0 ==> !PicksSeq(t.kids[0]))
      && forall k :: 0 <= k < |t.kids| ==> RightNested(t.kids[k])
  }

  predicate NoTLoop(t: Tree) { t.Pick? ==> !t.node.TLoopNode? && forall k :: 0 <= k < |t.kids| ==> NoTLoop(t.kids[k]) }

  /** No sequence of the tree has its two steps in the other order in its class, with a smaller head. */
  ghost predicate SmallestFirst(g: EGraph, t: Tree, id: Id)
    requires id in g.classes
  {
    match t
    case Cut(_) => true
    case Deep => true
    case Pick(n, kids) =>
      && (n.SeqNode? && n.right in g.classes ==> !Witnessed(g, id, n.left, n.right))
      && forall k :: 0 <= k < |kids| && k < |n.Children()| && n.Children()[k] in g.classes ==>
        SmallestFirst(g, kids[k], n.Children()[k])
  }

  /** The nodes are in their classes, no sequence is the first child of a sequence, there is no tiled loop, and
      no sequence has its steps in the other order with a smaller head. */
  ghost predicate WellPicked(g: EGraph, path: Path, t: Tree, id: Id, visited: set<Id>, depth: nat)
    requires Sound(g, path) && id in g.classes
  {
    InClasses(g, path, t, id, visited, depth) && RightNested(t) && NoTLoop(t) && SmallestFirst(g, t, id)
  }

  predicate SeqOnLeft(t: Tree, parent: Option<ENode>, index: nat) {
    PicksSeq(t) && parent.Some? && parent.value.SeqNode? && index == 0
  }

  ghost predicate KidsWellPicked(g: EGraph, path: Path, n: ENode, kids: seq<Tree>, visited: set<Id>, depth: nat)
    requires Sound(g, path) && Closed(g, n) && |kids| == |n.Children()|
  {
    forall k :: 0 <= k < |kids| ==>
      WellPicked(g, path, kids[k], n.Children()[k], visited, depth + 1) && !SeqOnLeft(kids[k], Some(n), k)
  }

  lemma PickIff(g: EGraph, path: Path, n: ENode, kids: seq<Tree>, id: Id, visited: set<Id>, depth: nat)
    requires Sound(g, path) && id in g.classes && id !in visited && depth <= 100
    requires n in Explored(g, path, id) && |kids| == |n.Children()| && Closed(g, n)
    ensures WellPicked(g, path, Pick(n, kids), id, visited, depth) <==>
      && !n.TLoopNode? && (n.SeqNode? && n.right in g.classes ==> !Witnessed(g, id, n.left, n.right))
      && KidsWellPicked(g, path, n, kids, visited + {id}, depth)
  {
    assert forall k :: 0 <= k < |kids| ==> n.Children()[k] in g.classes;
    assert n.SeqNode? <==> PicksSeq(Pick(n, kids));
    assert n.SeqNode? ==> |n.Children()| == 2;
  }

  lemma {:induction false} DerivesIff(g: EGraph, path: Path, t: Tree, id: Id, visited: set<Id>, depth: nat,
      parent: Option<ENode>, index: nat)
    requires Sound(g, path) && id in g.classes
    ensures Derives(g, path, t, id, visited, depth, parent, index) <==>
      WellPicked(g, path, t, id, visited, depth) && !SeqOnLeft(t, parent, index)
    decreases t
  {
    match t
    case Cut(_) =>
    case Deep =>
    case Pick(n, kids) =>
      if id !in visited && depth <= MAX_DEPTH && n in Explored(g, path, id) && |kids| == |n.Children()| {
        assert Closed(g, n);
        if n.SeqNode? {
          assert n.right in n.Children();
          WitnessedIff(g, id, n);
        }
        forall k | 0 <= k < |kids|
          ensures Derives(g, path, kids[k], n.Children()[k], visited + {id}, depth + 1, Some(n), k) <==>
            WellPicked(g, path, kids[k], n.Children()[k], visited + {id}, depth + 1) &&
              !SeqOnLeft(kids[k], Some(n), k)
        {
          DerivesIff(g, path, kids[k], n.Children()[k], visited + {id}, depth + 1, Some(n), k);
        }
        PickIff(g, path, n, kids, id, visited, depth);
      }
  }

  /** A text is listed exactly when it is that of a tree of nodes in their
      classes, on the path where that picks, with no sequence as first child of a sequence, no tiled loop, no
      sequence whose steps its class has in the other order with a smaller head. */
  lemma ListedIff(g: EGraph, pr: Printer, path: Path, e: string, id: Id)
    requires Sound(g, path) && id in g.classes
    ensures e in Enumerate(g, pr, path, id, {}, 0, None, 0) <==>
      exists t :: WellPicked(g, path, t, id, {}, 0) && TreeText(pr, t) == e
  {
    ListingIsExact(g, pr, path, e, id, {}, 0, None, 0);
    forall t ensures Derives(g, path, t, id, {}, 0, None, 0) <==> WellPicked(g, path, t, id, {}, 0) {
      DerivesIff(g, path, t, id, {}, 0, None, 0);
    }
  }

  /** A step that is one operator without operands. */
  predicate Step(t: Tree) { t.Pick? && t.node.OpNode? && t.kids == [] }

  /** Steps nested to the right, as sequencing a block builds them. */
  predicate StepChain(t: Tree) {
    Step(t) || (PicksSeq(t) && |t.kids| == 2 && Step(t.kids[0]) && StepChain(t.kids[1]))
  }

  lemma {:induction false} ChainShape(t: Tree)
    requires StepChain(t)
    ensures RightNested(t) && NoTLoop(t)
  {
    if !Step(t) { ChainShape(t.kids[1]); }
  }

  /** A chain of steps of any length is listed when no sequence of it is skipped. */
  lemma ChainListed(g: EGraph, pr: Printer, path: Path, t: Tree, id: Id)
    requires Sound(g, path) && id in g.classes
    requires StepChain(t) && InClasses(g, path, t, id, {}, 0) && SmallestFirst(g, t, id)
    ensures TreeText(pr, t) in Enumerate(g, pr, path, id, {}, 0, None, 0)
  {
    ChainShape(t);
    assert WellPicked(g, path, t, id, {}, 0);
    ListedIff(g, pr, path, TreeText(pr, t), id);
  }
}
