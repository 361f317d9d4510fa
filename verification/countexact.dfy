/** How many programs the listing and the count find (optimizer/src/extract.rs): as many as there are trees of nodes,
    each counted once. */
module CountExact {
  import opened Ast
  import opened Extraction

  // ---------------------------------------------------------------------------------------------
  // Picking one tree from each of several sets

  function Pairs(ts: set<Tree>, rs: set<seq<Tree>>): set<seq<Tree>> { set t, r | t in ts && r in rs :: [t] + r }

  lemma {:induction false} PairsSize(ts: set<Tree>, rs: set<seq<Tree>>)
    ensures |Pairs(ts, rs)| == |ts| * |rs|
    decreases |ts|
  {
    if ts == {} {
      assert Pairs(ts, rs) == {};
    } else {
      var t :| t in ts;
      PairsSize(ts - {t}, rs);
      OnePair(t, rs);
      SplitPairs(t, ts - {t}, rs);
      assert ts == {t} + (ts - {t});
      Multiply(|ts - {t}|, |rs|);
    }
  }

  lemma Multiply(m: nat, n: nat)
    ensures n + m * n == (m + 1) * n
  {
  }

  lemma SplitPairs(t: Tree, ts: set<Tree>, rs: set<seq<Tree>>)
    requires t !in ts
    ensures Pairs({t} + ts, rs) == Pairs({t}, rs) + Pairs(ts, rs) && Pairs({t}, rs) !! Pairs(ts, rs)
  {
    forall p | p in Pairs({t}, rs) ensures p[0] == t { }
    forall p | p in Pairs(ts, rs) ensures p != [] && p[0] in ts { }
    forall p ensures p in Pairs({t} + ts, rs) <==> p in Pairs({t}, rs) || p in Pairs(ts, rs) {
      if p in Pairs({t} + ts, rs) {
        var x, r :| x in {t} + ts && r in rs && p == [x] + r;
        if x == t { assert x in {t}; }
      }
    }
  }

  lemma {:induction false} OnePair(t: Tree, rs: set<seq<Tree>>)
    ensures |Pairs({t}, rs)| == |rs|
    decreases |rs|
  {
    if rs == {} {
      assert Pairs({t}, rs) == {};
    } else {
      var r :| r in rs;
      OnePair(t, rs - {r});
      forall p ensures p in Pairs({t}, rs) <==> p in Pairs({t}, rs - {r}) || p == [t] + r {
        if p in Pairs({t}, rs) {
          var x, q :| x in {t} && q in rs && p == [x] + q;
          if q != r { assert q in rs - {r}; }
        }
        if p == [t] + r { assert t in {t} && r in rs; }
      }
      assert Pairs({t}, rs) == Pairs({t}, rs - {r}) + {[t] + r};
      forall q | q in rs - {r} ensures [t] + q != [t] + r { assert ([t] + q)[1..] == q && ([t] + r)[1..] == r; }
    }
  }

  function Tuples(sets: seq<set<Tree>>): set<seq<Tree>> {
    if sets == [] then {[]} else Pairs(sets[0], Tuples(sets[1..]))
  }

  function SizesOf(sets: seq<set<Tree>>): (r: seq<nat>)
    ensures |r| == |sets|
  {
    seq(|sets|, k requires 0 <= k < |sets| => |sets[k]|)
  }

  lemma {:induction false} TuplesSize(sets: seq<set<Tree>>)
    ensures |Tuples(sets)| == Product(SizesOf(sets))
  {
    if sets != [] {
      TuplesSize(sets[1..]);
      PairsSize(sets[0], Tuples(sets[1..]));
      assert SizesOf(sets)[1..] == SizesOf(sets[1..]);
    }
  }

  lemma {:induction false} TuplesIff(sets: seq<set<Tree>>, kids: seq<Tree>)
    ensures kids in Tuples(sets) <==> |kids| == |sets| && forall k :: 0 <= k < |kids| ==> kids[k] in sets[k]
  {
    if sets != [] {
      if kids != [] {
        TuplesIff(sets[1..], kids[1..]);
        assert kids == [kids[0]] + kids[1..];
      }
      if t, r :| t in sets[0] && r in Tuples(sets[1..]) && kids == [t] + r { TuplesIff(sets[1..], r); }
    }
  }

  // ---------------------------------------------------------------------------------------------
  // The trees that are counted

  /** No class holds a node twice. */
  predicate DistinctNodes(g: EGraph) { forall id :: id in g.classes ==> Distinct(g.classes[id]) }

  predicate Distinct(nodes: seq<ENode>) { forall i, j :: 0 <= i < j < |nodes| ==> nodes[i] != nodes[j] }

  /** A tree of the class; for the count, one without deleted nodes. */
  ghost predicate Found(live: bool, g: EGraph, path: Path, t: Tree, id: Id, visited: set<Id>, depth: nat,
      parent: Option<ENode>, index: nat)
    requires Sound(g, path) && id in g.classes
  {
    Derives(g, path, t, id, visited, depth, parent, index) && (live ==> !PicksDeleted(g, t, id))
  }

  ghost function Size(live: bool, g: EGraph, pr: Printer, path: Path, id: Id, visited: set<Id>, depth: nat,
      parent: Option<ENode>, index: nat): nat
    requires Sound(g, path) && id in g.classes
  {
    if live then Count(g, path, id, visited, depth, parent, index)
    else |Enumerate(g, pr, path, id, visited, depth, parent, index)|
  }

  ghost predicate KidsFound(live: bool, g: EGraph, path: Path, n: ENode, kids: seq<Tree>, visited: set<Id>, depth: nat)
    requires Sound(g, path) && Closed(g, n)
  {
    |kids| == |n.Children()| && forall k :: 0 <= k < |kids| ==>
      Found(live, g, path, kids[k], n.Children()[k], visited, depth + 1, Some(n), k)
  }

  /** All trees of the class, and as many as the count, or the listing, says. */
  ghost predicate AllFound(live: bool, g: EGraph, pr: Printer, path: Path, trees: set<Tree>, id: Id, visited: set<Id>,
      depth: nat, parent: Option<ENode>, index: nat)
    requires Sound(g, path) && id in g.classes
  {
    && |trees| == Size(live, g, pr, path, id, visited, depth, parent, index)
    && forall t :: t in trees <==> Found(live, g, path, t, id, visited, depth, parent, index)
  }

  lemma {:induction false} TreesOf(live: bool, g: EGraph, pr: Printer, path: Path, id: Id, visited: set<Id>, depth: nat,
      parent: Option<ENode>, index: nat) returns (trees: set<Tree>)
    requires Sound(g, path) && id in g.classes && DistinctNodes(g)
    ensures AllFound(live, g, pr, path, trees, id, visited, depth, parent, index)
    decreases if depth > MAX_DEPTH then 0 else MAX_DEPTH + 1 - depth, 3, 0
  {
    if id in visited {
      trees := {Cut(id)};
    } else if depth > MAX_DEPTH {
      trees := {Deep};
    } else {
      trees := NodesTrees(live, g, pr, path, id, Explored(g, path, id), visited + {id}, depth, parent, index);
      forall t ensures t in trees <==> Found(live, g, path, t, id, visited, depth, parent, index) {
        FoundIff(live, g, path, t, id, visited, depth, parent, index);
      }
    }
  }

  /** A tree that picks one of the nodes. */
  ghost predicate PickFound(live: bool, g: EGraph, path: Path, t: Tree, id: Id, nodes: seq<ENode>, visited: set<Id>,
      depth: nat, parent: Option<ENode>, index: nat)
    requires Sound(g, path) && id in g.classes
  {
    t.Pick? && t.node in nodes && Closed(g, t.node) && !Filtered(g, id, t.node, parent, index) &&
    (live ==> !g.IsDeleted(id, t.node)) && KidsFound(live, g, path, t.node, t.kids, visited, depth)
  }

  lemma FoundIff(live: bool, g: EGraph, path: Path, t: Tree, id: Id, visited: set<Id>, depth: nat,
      parent: Option<ENode>, index: nat)
    requires Sound(g, path) && id in g.classes && id !in visited && depth <= MAX_DEPTH
    ensures Found(live, g, path, t, id, visited, depth, parent, index) <==>
      PickFound(live, g, path, t, id, Explored(g, path, id), visited + {id}, depth, parent, index)
  {
  }

  lemma {:induction false} NodesTrees(live: bool, g: EGraph, pr: Printer, path: Path, id: Id, nodes: seq<ENode>,
      visited: set<Id>, depth: nat, parent: Option<ENode>, index: nat) returns (trees: set<Tree>)
    requires Sound(g, path) && id in g.classes && DistinctNodes(g) && depth <= MAX_DEPTH
    requires Distinct(nodes) && forall n :: n in nodes ==> Closed(g, n)
    ensures |trees| == if live then CountNodes(g, path, id, nodes, visited, depth, parent, index)
      else |EnumerateNodes(g, pr, path, id, nodes, visited, depth, parent, index)|
    ensures forall t :: t in trees <==> PickFound(live, g, path, t, id, nodes, visited, depth, parent, index)
    decreases MAX_DEPTH + 1 - depth, 2, |nodes|
  {
    trees := {};
    if nodes != [] {
      assert nodes[0] in nodes && forall m :: m in nodes[1..] ==> m in nodes;
      var here := NodeTrees(live, g, pr, path, id, nodes[0], visited, depth, parent, index);
      var later := NodesTrees(live, g, pr, path, id, nodes[1..], visited, depth, parent, index);
      trees := here + later;
      assert nodes[0] !in nodes[1..];
      assert here !! later;
      forall t ensures t in trees <==> PickFound(live, g, path, t, id, nodes, visited, depth, parent, index) {
        FirstOrLater(live, g, path, t, id, nodes, visited, depth, parent, index);
      }
    }
  }

  lemma FirstOrLater(live: bool, g: EGraph, path: Path, t: Tree, id: Id, nodes: seq<ENode>, visited: set<Id>,
      depth: nat, parent: Option<ENode>, index: nat)
    requires Sound(g, path) && id in g.classes && nodes != []
    ensures PickFound(live, g, path, t, id, nodes, visited, depth, parent, index) <==>
      (PickFound(live, g, path, t, id, [nodes[0]], visited, depth, parent, index)
       || PickFound(live, g, path, t, id, nodes[1..], visited, depth, parent, index))
  {
    assert nodes == [nodes[0]] + nodes[1..];
  }

  lemma {:induction false} NodeTrees(live: bool, g: EGraph, pr: Printer, path: Path, id: Id, n: ENode, visited: set<Id>,
      depth: nat, parent: Option<ENode>, index: nat) returns (trees: set<Tree>)
    requires Sound(g, path) && id in g.classes && DistinctNodes(g) && depth <= MAX_DEPTH && Closed(g, n)
    ensures |trees| == if live then CountUnfiltered(g, path, id, n, visited, depth, parent, index)
      else |Unfiltered(g, pr, path, id, n, visited, depth, parent, index)|
    ensures forall t :: t in trees <==> PickFound(live, g, path, t, id, [n], visited, depth, parent, index)
    decreases MAX_DEPTH + 1 - depth, 1, 1
  {
    trees := {};
    if !Filtered(g, id, n, parent, index) && (live ==> !g.IsDeleted(id, n)) {
      var kids := NodeKids(live, g, pr, path, n, visited, depth);
      trees := Picks(n, kids);
    }
  }

  function Trees(n: ENode, kids: set<seq<Tree>>): set<Tree> { set ks | ks in kids :: Pick(n, ks) }

  lemma {:induction false} PicksSize(n: ENode, kids: set<seq<Tree>>)
    ensures |Trees(n, kids)| == |kids|
    decreases |kids|
  {
    if kids != {} {
      var ks :| ks in kids;
      PicksSize(n, kids - {ks});
      assert Trees(n, kids) == Trees(n, kids - {ks}) + {Pick(n, ks)};
    }
  }

  lemma Picks(n: ENode, kids: set<seq<Tree>>) returns (trees: set<Tree>)
    ensures |trees| == |kids| && forall t :: t in trees <==> t.Pick? && t.node == n && t.kids in kids
  {
    trees := Trees(n, kids);
    PicksSize(n, kids);
    forall t: Tree | t.Pick? && t.node == n && t.kids in kids ensures t in trees { assert t == Pick(n, t.kids); }
  }

  lemma {:induction false} NodeKids(live: bool, g: EGraph, pr: Printer, path: Path, n: ENode, visited: set<Id>,
      depth: nat) returns (kids: set<seq<Tree>>)
    requires Sound(g, path) && DistinctNodes(g) && depth <= MAX_DEPTH && Closed(g, n)
    ensures |kids| == if live then CountNode(g, path, n, visited, depth)
      else |EnumerateNode(g, pr, path, n, visited, depth)|
    ensures forall ks :: ks in kids <==> KidsFound(live, g, path, n, ks, visited, depth)
    decreases MAX_DEPTH + 1 - depth, 1, 0
  {
    var sets := KidSets(live, g, pr, path, n, visited, depth, 0);
    kids := Tuples(sets);
    TuplesSize(sets);
    NodeAtMost(g, pr, path, n, visited, depth);
    KidSizes(live, g, pr, path, n, visited, depth, sets);
    forall ks ensures ks in kids <==> KidsFound(live, g, path, n, ks, visited, depth) {
      TuplesIff(sets, ks);
      assert forall k :: 0 <= k < |sets| ==>
        AllFound(live, g, pr, path, sets[k], n.Children()[0 + k], visited, depth + 1, Some(n), 0 + k);
    }
  }

  lemma KidSizes(live: bool, g: EGraph, pr: Printer, path: Path, n: ENode, visited: set<Id>, depth: nat,
      sets: seq<set<Tree>>)
    requires Sound(g, path) && depth <= MAX_DEPTH && Closed(g, n) && |sets| == |n.Children()|
    requires forall k :: 0 <= k < |sets| ==>
      AllFound(live, g, pr, path, sets[k], n.Children()[0 + k], visited, depth + 1, Some(n), 0 + k)
    ensures SizesOf(sets) == if live then Counts(g, path, n, visited, depth) else Sizes(g, pr, path, n, visited, depth)
  {
    forall k | 0 <= k < |sets|
      ensures |sets[k]| == Size(live, g, pr, path, n.Children()[k], visited, depth + 1, Some(n), k)
    {
      assert AllFound(live, g, pr, path, sets[k], n.Children()[0 + k], visited, depth + 1, Some(n), 0 + k);
    }
  }

  /** The trees of every child from `from` on. */
  lemma {:induction false} KidSets(live: bool, g: EGraph, pr: Printer, path: Path, n: ENode, visited: set<Id>,
      depth: nat,
      from: nat) returns (sets: seq<set<Tree>>)
    requires Sound(g, path) && DistinctNodes(g) && depth <= MAX_DEPTH && Closed(g, n) && from <= |n.Children()|
    ensures |sets| == |n.Children()| - from
    ensures forall k :: 0 <= k < |sets| ==>
      AllFound(live, g, pr, path, sets[k], n.Children()[from + k], visited, depth + 1, Some(n), from + k)
    decreases MAX_DEPTH + 1 - depth, 0, |n.Children()| - from
  {
    sets := [];
    if from < |n.Children()| {
      var first := TreesOf(live, g, pr, path, n.Children()[from], visited, depth + 1, Some(n), from);
      var rest := KidSets(live, g, pr, path, n, visited, depth, from + 1);
      sets := [first] + rest;
      forall k | 0 <= k < |sets|
        ensures AllFound(live, g, pr, path, sets[k], n.Children()[from + k], visited, depth + 1, Some(n), from + k)
      {
        if k > 0 { assert sets[k] == rest[k - 1] && from + k == from + 1 + (k - 1); }
      }
    }
  }

  // ---------------------------------------------------------------------------------------------
  // The main results

  /** The count is the number of trees of nodes in their classes, with no sequence on the left of a sequence, no tiled
      loop, the smallest head first, and no deleted node. */
  lemma CountIsNumberOfTrees(g: EGraph, pr: Printer, path: Path, id: Id) returns (trees: set<Tree>)
    requires Sound(g, path) && id in g.classes && DistinctNodes(g)
    ensures |trees| == Count(g, path, id, {}, 0, None, 0)
    ensures forall t :: t in trees <==> WellPicked(g, path, t, id, {}, 0) && !PicksDeleted(g, t, id)
  {
    trees := TreesOf(true, g, pr, path, id, {}, 0, None, 0);
    forall t ensures t in trees <==> WellPicked(g, path, t, id, {}, 0) && !PicksDeleted(g, t, id) {
      DerivesIff(g, path, t, id, {}, 0, None, 0);
    }
  }

  /** The listing has as many entries as there are such trees, deleted nodes or not. */
  lemma ListingIsNumberOfTrees(g: EGraph, pr: Printer, path: Path, id: Id) returns (trees: set<Tree>)
    requires Sound(g, path) && id in g.classes && DistinctNodes(g)
    ensures |trees| == |Enumerate(g, pr, path, id, {}, 0, None, 0)|
    ensures forall t :: t in trees <==> WellPicked(g, path, t, id, {}, 0)
  {
    trees := TreesOf(false, g, pr, path, id, {}, 0, None, 0);
    forall t ensures t in trees <==> WellPicked(g, path, t, id, {}, 0) { DerivesIff(g, path, t, id, {}, 0, None, 0); }
  }
}
