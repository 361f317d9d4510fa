/** Dead-call and dead-store elimination. */
module DeadCode {
  import opened Ast
  import opened Machines

  // ---------------------------------------------------------------------------------------------
  // Dead calls (`eliminate_dead_calls`)

  predicate IsLive(c: Call, live: set<Name>, inputs: set<Name>) {
    c.out in live || StmtStores(c.root) * inputs != {}
  }

  function LiveBefore(c: Call, live: set<Name>, inputs: set<Name>): set<Name> {
    (live - {c.out}) + StmtLoads(c.root) + (StmtStores(c.root) * inputs)
  }

  /** The kept calls, scanning from the last one with the tensors that are live after it. */
  function KeptCalls(calls: seq<Call>, live: set<Name>, inputs: set<Name>): seq<Call> {
    if calls == [] then []
    else
      var front, last := calls[..|calls| - 1], calls[|calls| - 1];
      if IsLive(last, live, inputs) then KeptCalls(front, LiveBefore(last, live, inputs), inputs) + [last]
      else KeptCalls(front, live, inputs)
  }

  method EliminateDeadCalls(calls: seq<Call>, outputs: set<Name>, inputs: set<Name>) returns (kept: seq<Call>)
    ensures kept == KeptCalls(calls, outputs, inputs)
  {
    var live := outputs;
    var keptRev: seq<Call> := [];
    var i := |calls|;
    assert calls[..i] == calls;
    while i > 0
      invariant 0 <= i <= |calls|
      invariant KeptCalls(calls[..i], live, inputs) + Reverse(keptRev) == KeptCalls(calls, outputs, inputs)
    {
      i := i - 1;
      var call := calls[i];
      assert calls[..i + 1][..i] == calls[..i];
      var storeNames, loadNames := StmtStores(call.root), StmtLoads(call.root);
      var writesInput := storeNames * inputs != {};
      if !(call.out in live || writesInput) { continue; }
      ReverseAppend(keptRev, call);
      keptRev := keptRev + [call];
      live := live - {call.out};
      live := live + loadNames;
      live := live + (storeNames * inputs);
    }
    kept := Reverse(keptRev);
  }

  function Reverse<T>(s: seq<T>): seq<T> {
    if s == [] then [] else Reverse(s[1..]) + [s[0]]
  }

  lemma {:induction false} ReverseAppend<T>(s: seq<T>, x: T)
    ensures Reverse(s + [x]) == [x] + Reverse(s)
  {
    if s != [] {
      assert (s + [x])[1..] == s[1..] + [x];
      ReverseAppend(s[1..], x);
    }
  }

  /** A call's output depends on nothing but what the call loads. */
  ghost predicate Determined<C(!new), V>(M: Machine<C, V>, c: Call) {
    forall m1: Mem<C>, m2: Mem<C> :: (forall t :: t in StmtLoads(c.root) ==> Get(M, m1, t) == Get(M, m2, t)) ==>
      Get(M, Exec(M, c.root, map[], m1), c.out) == Get(M, Exec(M, c.root, map[], m2), c.out)
  }

  function Scratch(c: Call, inputs: set<Name>): set<Name> {
    StmtStores(c.root) - {c.out} - inputs
  }

  /** What a call stores besides its output and the inputs is neither live at the end nor loaded by a
      later call. */
  ghost predicate PrivateScratch(calls: seq<Call>, live: set<Name>, inputs: set<Name>) {
    forall i :: 0 <= i < |calls| ==>
      Scratch(calls[i], inputs) !! live && forall j :: i < j < |calls| ==>
        Scratch(calls[i], inputs) !! StmtLoads(calls[j].root)
  }

  ghost function Observed(live: set<Name>, inputs: set<Name>): iset<Name> {
    iset t: Name | t in live + inputs
  }

  lemma KeptCallAgrees<C(!new), V>(M: Machine<C, V>, c: Call, live: set<Name>, inputs: set<Name>, m1: Mem<C>,
      m2: Mem<C>)
    requires Determined(M, c) && Agree(M, Observed(LiveBefore(c, live, inputs), inputs), m1, m2)
    ensures Agree(M, Observed(live, inputs), Exec(M, c.root, map[], m1), Exec(M, c.root, map[], m2))
  {
    var S := Observed(LiveBefore(c, live, inputs), inputs);
    ExecAgree(M, c.root, map[], S, m1, m2);
    forall t | t in Observed(live, inputs)
      ensures Get(M, Exec(M, c.root, map[], m1), t) == Get(M, Exec(M, c.root, map[], m2), t)
    {
      if t == c.out {
        assert forall n :: n in StmtLoads(c.root) ==> n in S;
      } else {
        assert t in S;
      }
    }
  }

  lemma DroppedCallAgrees<C, V>(M: Machine<C, V>, c: Call, live: set<Name>, inputs: set<Name>, m1: Mem<C>, m2: Mem<C>)
    requires !IsLive(c, live, inputs) && Scratch(c, inputs) !! live && Agree(M, Observed(live, inputs), m1, m2)
    ensures Agree(M, Observed(live, inputs), m1, Exec(M, c.root, map[], m2))
  {
    assert forall t :: t in StmtStores(c.root) && t in inputs ==> t in StmtStores(c.root) * inputs;
    assert forall t :: t in StmtStores(c.root) && t !in inputs && t != c.out ==> t in Scratch(c, inputs);
    forall t | t in Observed(live, inputs) ensures Get(M, m2, t) == Get(M, Exec(M, c.root, map[], m2), t) {
      ExecFrame(M, c.root, map[], m2, t);
    }
  }

  /** Scratch stays private for the calls before the last, whether that one is kept or dropped. */
  lemma PrivateBefore(calls: seq<Call>, live: set<Name>, inputs: set<Name>)
    requires calls != [] && PrivateScratch(calls, live, inputs)
    ensures var front, last := calls[..|calls| - 1], calls[|calls| - 1];
      Scratch(last, inputs) !! live &&
      PrivateScratch(front, if IsLive(last, live, inputs) then LiveBefore(last, live, inputs) else live, inputs)
  {
    var n := |calls| - 1;
    assert forall i :: 0 <= i < n ==> Scratch(calls[i], inputs) !! StmtLoads(calls[n].root);
    assert forall i :: 0 <= i < n ==> calls[..n][i] == calls[i];
  }

  lemma RunLast<C, V>(M: Machine<C, V>, front: seq<Call>, last: Call, mem: Mem<C>)
    ensures RunCalls(M, front + [last], mem) == Exec(M, last.root, map[], RunCalls(M, front, mem))
  {
    RunCallsAppend(M, front, [last], mem);
    var mid := RunCalls(M, front, mem);
    assert RunCalls(M, [last], mid) == RunCalls(M, [last][1..], Exec(M, last.root, map[], mid));
  }

  /** The kept calls leave the outputs and all input buffers as the whole program does: the live set
      is a simulation relation, followed from the last call back to the first. */
  lemma {:induction false} DeadCallsPreserve<C(!new), V>(M: Machine<C, V>, calls: seq<Call>, live: set<Name>,
      inputs: set<Name>, mem: Mem<C>)
    requires (forall c :: c in calls ==> Determined(M, c)) && PrivateScratch(calls, live, inputs)
    ensures Agree(M, Observed(live, inputs), RunCalls(M, KeptCalls(calls, live, inputs), mem), RunCalls(M, calls, mem))
    decreases |calls|
  {
    if calls != [] {
      var n := |calls| - 1;
      var front, last := calls[..n], calls[n];
      assert calls == front + [last] && last in calls;
      PrivateBefore(calls, live, inputs);
      RunLast(M, front, last, mem);
      var mid := RunCalls(M, front, mem);
      if IsLive(last, live, inputs) {
        var live' := LiveBefore(last, live, inputs);
        DeadCallsPreserve(M, front, live', inputs, mem);
        var kept := KeptCalls(front, live', inputs);
        RunLast(M, kept, last, mem);
        KeptCallAgrees(M, last, live, inputs, RunCalls(M, kept, mem), mid);
      } else {
        DeadCallsPreserve(M, front, live, inputs, mem);
        DroppedCallAgrees(M, last, live, inputs, RunCalls(M, KeptCalls(front, live, inputs), mem), mid);
      }
    }
  }

  // Exactly the calls that are needed are kept.

  /** The calls that are marked. */
  function Selected(calls: seq<Call>, marks: seq<bool>): seq<Call>
    requires |marks| == |calls|
  {
    if calls == [] then []
    else
      var n := |calls| - 1;
      Selected(calls[..n], marks[..n]) + if marks[n] then [calls[n]] else []
  }

  /** The call loads the tensor, or writes it back to an input buffer. */
  predicate Uses(c: Call, t: Name, inputs: set<Name>) {
    t in StmtLoads(c.root) || (t in inputs && t in StmtStores(c.root))
  }

  /** No marked call from i up to j produces the tensor. */
  predicate NoProducer(calls: seq<Call>, marks: seq<bool>, i: nat, j: nat, t: Name)
    requires i <= j <= |calls| == |marks|
  {
    forall k :: i <= k < j && marks[k] ==> calls[k].out != t
  }

  /** The call writes an input buffer, or its output is wanted at the end or used by a marked call, with no
      marked producer of it in between. */
  ghost predicate Needed(calls: seq<Call>, marks: seq<bool>, i: nat, outputs: set<Name>, inputs: set<Name>)
    requires i < |calls| == |marks|
  {
    || (exists t :: t in inputs && t in StmtStores(calls[i].root))
    || (calls[i].out in outputs && NoProducer(calls, marks, i + 1, |calls|, calls[i].out))
    || exists j :: UsedAt(calls, marks, i, j, inputs)
  }

  predicate UsedAt(calls: seq<Call>, marks: seq<bool>, i: nat, j: int, inputs: set<Name>)
    requires i < |calls| == |marks|
  {
    i < j < |calls| && marks[j] && Uses(calls[j], calls[i].out, inputs) &&
      NoProducer(calls, marks, i + 1, j, calls[i].out)
  }

  /** Which calls the scan keeps. */
  ghost function Marks(calls: seq<Call>, live: set<Name>, inputs: set<Name>): (marks: seq<bool>)
    ensures |marks| == |calls|
  {
    if calls == [] then []
    else
      var front, last := calls[..|calls| - 1], calls[|calls| - 1];
      if IsLive(last, live, inputs) then Marks(front, LiveBefore(last, live, inputs), inputs) + [true]
      else Marks(front, live, inputs) + [false]
  }

  lemma {:induction false} MarksSelect(calls: seq<Call>, live: set<Name>, inputs: set<Name>)
    ensures KeptCalls(calls, live, inputs) == Selected(calls, Marks(calls, live, inputs))
  {
    if calls != [] {
      var n := |calls| - 1;
      var front, last, marks := calls[..n], calls[n], Marks(calls, live, inputs);
      var live' := if IsLive(last, live, inputs) then LiveBefore(last, live, inputs) else live;
      MarksSelect(front, live', inputs);
      assert marks[..n] == Marks(front, live', inputs);
    }
  }

  lemma ProducersBefore(calls: seq<Call>, marks: seq<bool>, i: nat, j: nat, t: Name)
    requires i < j < |calls| == |marks|
    ensures var n := |calls| - 1;
      NoProducer(calls, marks, i + 1, j, t) <==> NoProducer(calls[..n], marks[..n], i + 1, j, t)
  {
    var n := |calls| - 1;
    assert forall k :: i + 1 <= k < j ==> calls[..n][k] == calls[k] && marks[..n][k] == marks[k];
  }

  lemma NeededBefore(calls: seq<Call>, marks: seq<bool>, i: nat, live: set<Name>, inputs: set<Name>)
    requires i < |calls| - 1 && |marks| == |calls|
    ensures var n := |calls| - 1;
      Needed(calls, marks, i, live, inputs) <==>
        Needed(calls[..n], marks[..n], i, if marks[n] then LiveBefore(calls[n], live, inputs) else live, inputs)
  {
    var n, t := |calls| - 1, calls[i].out;
    var front, before := calls[..n], marks[..n];
    ProducersBefore(calls, marks, i, n, t);
    assert NoProducer(calls, marks, i + 1, n + 1, t) <==>
      NoProducer(front, before, i + 1, n, t) && !(marks[n] && calls[n].out == t);
    forall j: int ensures j < n ==> (UsedAt(calls, marks, i, j, inputs) <==> UsedAt(front, before, i, j, inputs)) {
      if i < j < n { ProducersBefore(calls, marks, i, j, t); }
    }
    if j :| UsedAt(calls, marks, i, j, inputs) && j < n { assert UsedAt(front, before, i, j, inputs); }
    if j :| UsedAt(front, before, i, j, inputs) { assert UsedAt(calls, marks, i, j, inputs); }
    assert (exists j :: UsedAt(calls, marks, i, j, inputs)) <==>
      (exists j :: UsedAt(front, before, i, j, inputs)) || UsedAt(calls, marks, i, n, inputs);
  }

  lemma NeededLast(calls: seq<Call>, marks: seq<bool>, live: set<Name>, inputs: set<Name>)
    requires calls != [] && |marks| == |calls|
    ensures Needed(calls, marks, |calls| - 1, live, inputs) <==> IsLive(calls[|calls| - 1], live, inputs)
  {
    var n := |calls| - 1;
    assert NoProducer(calls, marks, n + 1, n + 1, calls[n].out);
    assert forall j :: !UsedAt(calls, marks, n, j, inputs);
    var stored := StmtStores(calls[n].root) * inputs;
    assert (exists t :: t in inputs && t in StmtStores(calls[n].root)) <==> stored != {} by {
      if t :| t in inputs && t in StmtStores(calls[n].root) { assert t in stored; }
      if stored != {} { var t :| t in stored; }
    }
  }

  lemma {:induction false} MarksNeeded(calls: seq<Call>, live: set<Name>, inputs: set<Name>)
    ensures var marks := Marks(calls, live, inputs);
      forall i :: 0 <= i < |calls| ==> (marks[i] <==> Needed(calls, marks, i, live, inputs))
  {
    if calls != [] {
      var n, marks := |calls| - 1, Marks(calls, live, inputs);
      var live' := if marks[n] then LiveBefore(calls[n], live, inputs) else live;
      assert marks[..n] == Marks(calls[..n], live', inputs);
      MarksNeeded(calls[..n], live', inputs);
      forall i | 0 <= i < |calls| ensures marks[i] <==> Needed(calls, marks, i, live, inputs) {
        if i < n {
          NeededBefore(calls, marks, i, live, inputs);
          assert marks[i] == marks[..n][i];
        } else {
          NeededLast(calls, marks, live, inputs);
        }
      }
    }
  }

  /** Marks that agree with what is needed are the marks of the scan: from the last call back, each is
      settled by the later ones. */
  lemma {:induction false} NeededMarks(calls: seq<Call>, marks: seq<bool>, live: set<Name>, inputs: set<Name>)
    requires |marks| == |calls|
    requires forall i :: 0 <= i < |calls| ==> (marks[i] <==> Needed(calls, marks, i, live, inputs))
    ensures marks == Marks(calls, live, inputs)
  {
    if calls != [] {
      var n := |calls| - 1;
      var live' := if marks[n] then LiveBefore(calls[n], live, inputs) else live;
      NeededLast(calls, marks, live, inputs);
      forall i | 0 <= i < n ensures marks[..n][i] <==> Needed(calls[..n], marks[..n], i, live', inputs) {
        NeededBefore(calls, marks, i, live, inputs);
      }
      NeededMarks(calls[..n], marks[..n], live', inputs);
      assert marks == marks[..n] + [marks[n]];
    }
  }

  /** The kept calls are those that are marked as needed, and only one marking fits: a call is kept exactly
      when it writes an input buffer, when its output is an output of the program that no later kept call
      produces, or when a later kept call uses its output and no kept call in between produces it. */
  lemma KeptIffNeeded(calls: seq<Call>, marks: seq<bool>, outputs: set<Name>, inputs: set<Name>)
    requires |marks| == |calls|
    requires forall i :: 0 <= i < |calls| ==> (marks[i] <==> Needed(calls, marks, i, outputs, inputs))
    ensures KeptCalls(calls, outputs, inputs) == Selected(calls, marks)
  {
    NeededMarks(calls, marks, outputs, inputs);
    MarksSelect(calls, outputs, inputs);
  }

  /** There is such a marking. */
  lemma NeededMarking(calls: seq<Call>, outputs: set<Name>, inputs: set<Name>) returns (marks: seq<bool>)
    ensures |marks| == |calls| && KeptCalls(calls, outputs, inputs) == Selected(calls, marks)
    ensures forall i :: 0 <= i < |calls| ==> (marks[i] <==> Needed(calls, marks, i, outputs, inputs))
  {
    marks := Marks(calls, outputs, inputs);
    MarksNeeded(calls, outputs, inputs);
    MarksSelect(calls, outputs, inputs);
  }

  /** Eliminating dead calls a second time changes nothing. */
  lemma {:induction false} KeptTwice(calls: seq<Call>, live: set<Name>, inputs: set<Name>)
    ensures KeptCalls(KeptCalls(calls, live, inputs), live, inputs) == KeptCalls(calls, live, inputs)
  {
    if calls != [] {
      var front, last := calls[..|calls| - 1], calls[|calls| - 1];
      if IsLive(last, live, inputs) {
        var live' := LiveBefore(last, live, inputs);
        KeptTwice(front, live', inputs);
        assert (KeptCalls(front, live', inputs) + [last])[..|KeptCalls(front, live', inputs)|] ==
          KeptCalls(front, live', inputs);
      } else {
        KeptTwice(front, live, inputs);
      }
    }
  }

  // ---------------------------------------------------------------------------------------------
  // Dead stores (`_eliminate_dead_stores_in_stmt`)

  /** The pruned statement, if anything is left, and the tensors live before it. */
  function Prune(s: Stmt, live: set<Name>, preserved: set<Name>): (Option<Stmt>, set<Name>)
    decreases s, 1
  {
    match s
    case Store(t, v, _) =>
      if t !in live && t !in preserved then (None, live) else (Some(s), (live - {t}) + Loads(v))
    case Seq(l, r) =>
      var (r', liveR) := Prune(r, live, preserved);
      var (l', liveL) := Prune(l, liveR, preserved);
      (if l'.None? then r' else if r'.None? then l' else Some(Seq(l'.value, r'.value)), liveL)
    case Block(ss) =>
      var (kept, liveB) := PruneAll(ss, live, preserved);
      (if kept == [] then None else if |kept| == 1 then Some(kept[0]) else Some(Block(kept)), liveB)
    case Loop(lo, hi, tile, x, b) =>
      var (b', liveB) := Prune(b, live, preserved);
      if b'.None? then (None, live) else (Some(Loop(lo, hi, tile, x, b'.value)), liveB)
  }

  function PruneAll(ss: seq<Stmt>, live: set<Name>, preserved: set<Name>): (seq<Stmt>, set<Name>)
    decreases ss, 0
  {
    if ss == [] then ([], live)
    else
      var (rest, liveR) := PruneAll(ss[1..], live, preserved);
      var (s', liveS) := Prune(ss[0], liveR, preserved);
      (if s'.Some? then [s'.value] + rest else rest, liveS)
  }

  /** `_eliminate_dead_stores_in_node`. */
  function EliminateDeadStores(root: Stmt, preserved: set<Name>): Stmt {
    match Prune(root, {}, preserved).0
    case Some(s) => s
    case None => Block([])
  }

  /** The store nodes in textual order. */
  function StoreNodes(s: Stmt): (r: seq<Stmt>)
    ensures forall k :: 0 <= k < |r| ==> r[k].Store?
    decreases s, 1
  {
    match s
    case Store(_, _, _) => [s]
    case Seq(l, r) => StoreNodes(l) + StoreNodes(r)
    case Block(ss) => AllStoreNodes(ss)
    case Loop(_, _, _, _, b) => StoreNodes(b)
  }

  function AllStoreNodes(ss: seq<Stmt>): (r: seq<Stmt>)
    ensures forall k :: 0 <= k < |r| ==> r[k].Store?
    decreases ss, 0
  {
    if ss == [] then [] else StoreNodes(ss[0]) + AllStoreNodes(ss[1..])
  }

  predicate AllAreStores(nodes: seq<Stmt>) {
    forall k :: 0 <= k < |nodes| ==> nodes[k].Store?
  }

  /** Liveness over the flat list of stores. */
  function FlatLive(nodes: seq<Stmt>, live: set<Name>, preserved: set<Name>): set<Name>
    requires AllAreStores(nodes)
  {
    if nodes == [] then live
    else
      var after := FlatLive(nodes[1..], live, preserved);
      if Dead(nodes[0], after, preserved) then after else (after - {nodes[0].tensor}) + Loads(nodes[0].value)
  }

  predicate Dead(node: Stmt, live: set<Name>, preserved: set<Name>)
    requires node.Store?
  {
    node.tensor !in live && node.tensor !in preserved
  }

  lemma {:induction false} FlatLiveAppend(a: seq<Stmt>, b: seq<Stmt>, live: set<Name>, preserved: set<Name>)
    requires AllAreStores(a) && AllAreStores(b)
    ensures FlatLive(a + b, live, preserved) == FlatLive(a, FlatLive(b, live, preserved), preserved)
  {
    if a == [] {
      assert a + b == b;
    } else {
      assert (a + b)[1..] == a[1..] + b;
      FlatLiveAppend(a[1..], b, live, preserved);
    }
  }

  /** The set D names exactly the stores the liveness scan finds dead. */
  ghost predicate Names(nodes: seq<Stmt>, live: set<Name>, preserved: set<Name>, D: set<Name>)
    requires AllAreStores(nodes)
  {
    forall k :: 0 <= k < |nodes| ==> NamedAt(nodes, live, preserved, D, k)
  }

  predicate NamedAt(nodes: seq<Stmt>, live: set<Name>, preserved: set<Name>, D: set<Name>, k: nat)
    requires AllAreStores(nodes) && k < |nodes|
  {
    nodes[k].tensor in D <==> Dead(nodes[k], FlatLive(nodes[k + 1..], live, preserved), preserved)
  }

  lemma NamedInTail(a: seq<Stmt>, b: seq<Stmt>, live: set<Name>, preserved: set<Name>, D: set<Name>, k: nat)
    requires AllAreStores(a) && AllAreStores(b) && k < |b|
    ensures NamedAt(a + b, live, preserved, D, |a| + k) <==> NamedAt(b, live, preserved, D, k)
  {
    assert (a + b)[|a| + k] == b[k] && (a + b)[|a| + k + 1..] == b[k + 1..];
  }

  lemma NamedInFront(a: seq<Stmt>, b: seq<Stmt>, live: set<Name>, preserved: set<Name>, D: set<Name>, k: nat)
    requires AllAreStores(a) && AllAreStores(b) && k < |a|
    ensures NamedAt(a + b, live, preserved, D, k) <==> NamedAt(a, FlatLive(b, live, preserved), preserved, D, k)
  {
    assert (a + b)[k] == a[k] && (a + b)[k + 1..] == a[k + 1..] + b;
    FlatLiveAppend(a[k + 1..], b, live, preserved);
  }

  lemma NamesAppend(a: seq<Stmt>, b: seq<Stmt>, live: set<Name>, preserved: set<Name>, D: set<Name>)
    requires AllAreStores(a) && AllAreStores(b) && Names(a + b, live, preserved, D)
    ensures Names(b, live, preserved, D) && Names(a, FlatLive(b, live, preserved), preserved, D)
  {
    forall k | 0 <= k < |b| ensures NamedAt(b, live, preserved, D, k) {
      assert NamedAt(a + b, live, preserved, D, |a| + k);
      NamedInTail(a, b, live, preserved, D, k);
    }
    forall k | 0 <= k < |a| ensures NamedAt(a, FlatLive(b, live, preserved), preserved, D, k) {
      assert NamedAt(a + b, live, preserved, D, k);
      NamedInFront(a, b, live, preserved, D, k);
    }
  }

  /** Acts that store outside D. */
  function Outside(tr: seq<Act>, D: set<Name>): seq<Act> {
    if tr == [] then [] else (if tr[0].tensor in D then [] else [tr[0]]) + Outside(tr[1..], D)
  }

  lemma {:induction false} OutsideAppend(x: seq<Act>, y: seq<Act>, D: set<Name>)
    ensures Outside(x + y, D) == Outside(x, D) + Outside(y, D)
  {
    if x == [] {
      assert x + y == y;
    } else {
      assert (x + y)[1..] == x[1..] + y;
      OutsideAppend(x[1..], y, D);
    }
  }

  function TraceOf(size: string -> pos, s: Option<Stmt>, env: Env): seq<Act> {
    match s
    case None => []
    case Some(x) => Trace(size, x, env)
  }

  lemma PruneStoreFilters(size: string -> pos, s: Stmt, env: Env, live: set<Name>, preserved: set<Name>, D: set<Name>)
    requires s.Store? && Names(StoreNodes(s), live, preserved, D)
    ensures Prune(s, live, preserved).1 == FlatLive(StoreNodes(s), live, preserved)
    ensures TraceOf(size, Prune(s, live, preserved).0, env) == Outside(Trace(size, s, env), D)
  {
    assert NamedAt(StoreNodes(s), live, preserved, D, 0);
    assert StoreNodes(s)[0] == s && StoreNodes(s)[1..] == [];
    assert Trace(size, s, env)[1..] == [];
  }

  lemma PruneSeqFilters(size: string -> pos, l: Stmt, r: Stmt, env: Env, live: set<Name>, preserved: set<Name>,
      D: set<Name>)
    requires Prune(r, live, preserved).1 == FlatLive(StoreNodes(r), live, preserved)
    requires TraceOf(size, Prune(r, live, preserved).0, env) == Outside(Trace(size, r, env), D)
    requires var liveR := FlatLive(StoreNodes(r), live, preserved);
      && Prune(l, liveR, preserved).1 == FlatLive(StoreNodes(l), liveR, preserved)
      && TraceOf(size, Prune(l, liveR, preserved).0, env) == Outside(Trace(size, l, env), D)
    ensures Prune(Seq(l, r), live, preserved).1 == FlatLive(StoreNodes(Seq(l, r)), live, preserved)
    ensures TraceOf(size, Prune(Seq(l, r), live, preserved).0, env) == Outside(Trace(size, Seq(l, r), env), D)
  {
    FlatLiveAppend(StoreNodes(l), StoreNodes(r), live, preserved);
    OutsideAppend(Trace(size, l, env), Trace(size, r, env), D);
  }

  /** Pruning follows the flat scan, and removes from every run exactly the stores to D. */
  lemma {:induction false} PruneFilters(size: string -> pos, s: Stmt, env: Env, live: set<Name>, preserved: set<Name>,
      D: set<Name>)
    requires Names(StoreNodes(s), live, preserved, D)
    ensures Prune(s, live, preserved).1 == FlatLive(StoreNodes(s), live, preserved)
    ensures TraceOf(size, Prune(s, live, preserved).0, env) == Outside(Trace(size, s, env), D)
    decreases s, 1, 0
  {
    match s
    case Store(_, _, _) => PruneStoreFilters(size, s, env, live, preserved, D);
    case Seq(l, r) =>
      NamesAppend(StoreNodes(l), StoreNodes(r), live, preserved, D);
      PruneFilters(size, r, env, live, preserved, D);
      PruneFilters(size, l, env, FlatLive(StoreNodes(r), live, preserved), preserved, D);
      PruneSeqFilters(size, l, r, env, live, preserved, D);
    case Block(ss) =>
      PruneAllFilters(size, ss, env, live, preserved, D);
      var kept := PruneAll(ss, live, preserved).0;
      if |kept| == 1 {
        assert TraceAll(size, kept, env) == Trace(size, kept[0], env) + TraceAll(size, kept[1..], env);
      }
    case Loop(lo, hi, tile, x, b) =>
      PruneFilters(size, b, env, live, preserved, D);
      PruneLoopFilters(size, b, x, size(tile), BoundValue(lo, env), BoundValue(hi, env), env, live, preserved, D);
      if Prune(b, live, preserved).0.None? {
        NothingLeft(b, live, preserved);
      }
  }

  lemma {:induction false} PruneLoopFilters(size: string -> pos, b: Stmt, x: Name, step: pos, lo: int, hi: int,
      env: Env, live: set<Name>, preserved: set<Name>, D: set<Name>)
    requires Names(StoreNodes(b), live, preserved, D)
    ensures var b' := Prune(b, live, preserved).0;
      Outside(LoopTrace(size, b, x, step, lo, hi, env), D) ==
        if b'.None? then [] else LoopTrace(size, b'.value, x, step, lo, hi, env)
    decreases b, 2, if lo < hi then hi - lo else 0
  {
    if lo < hi {
      var env' := Bind(env, x, lo, step);
      PruneFilters(size, b, env', live, preserved, D);
      PruneLoopFilters(size, b, x, step, lo + step, hi, env, live, preserved, D);
      OutsideAppend(Trace(size, b, env'), LoopTrace(size, b, x, step, lo + step, hi, env), D);
    }
  }

  lemma {:induction false} PruneAllFilters(size: string -> pos, ss: seq<Stmt>, env: Env, live: set<Name>,
      preserved: set<Name>, D: set<Name>)
    requires Names(AllStoreNodes(ss), live, preserved, D)
    ensures PruneAll(ss, live, preserved).1 == FlatLive(AllStoreNodes(ss), live, preserved)
    ensures TraceAll(size, PruneAll(ss, live, preserved).0, env) == Outside(TraceAll(size, ss, env), D)
    decreases ss, 0, 0
  {
    if ss != [] {
      var liveR := FlatLive(AllStoreNodes(ss[1..]), live, preserved);
      NamesAppend(StoreNodes(ss[0]), AllStoreNodes(ss[1..]), live, preserved, D);
      FlatLiveAppend(StoreNodes(ss[0]), AllStoreNodes(ss[1..]), live, preserved);
      PruneAllFilters(size, ss[1..], env, live, preserved, D);
      PruneFilters(size, ss[0], env, liveR, preserved, D);
      OutsideAppend(Trace(size, ss[0], env), TraceAll(size, ss[1..], env), D);
    }
  }

  /** When nothing is left of a statement, it does not change liveness either. */
  lemma {:induction false} NothingLeft(s: Stmt, live: set<Name>, preserved: set<Name>)
    ensures Prune(s, live, preserved).0.None? ==> Prune(s, live, preserved).1 == live
    decreases s, 1
  {
    match s
    case Store(_, _, _) =>
    case Seq(l, r) =>
      NothingLeft(r, live, preserved);
      NothingLeft(l, Prune(r, live, preserved).1, preserved);
    case Block(ss) => NothingLeftAll(ss, live, preserved);
    case Loop(_, _, _, _, _) =>
  }

  lemma {:induction false} NothingLeftAll(ss: seq<Stmt>, live: set<Name>, preserved: set<Name>)
    ensures PruneAll(ss, live, preserved).0 == [] ==> PruneAll(ss, live, preserved).1 == live
    decreases ss, 0
  {
    if ss != [] {
      NothingLeftAll(ss[1..], live, preserved);
      NothingLeft(ss[0], PruneAll(ss[1..], live, preserved).1, preserved);
    }
  }

  /** Temporaries have one store node, and are loaded textually after it or by it. */
  ghost predicate TemporariesOk(nodes: seq<Stmt>, preserved: set<Name>)
    requires AllAreStores(nodes)
  {
    forall i, j :: 0 <= i < |nodes| && 0 <= j < |nodes| && i != j && nodes[i].tensor !in preserved ==>
      nodes[j].tensor != nodes[i].tensor && (j < i ==> nodes[i].tensor !in Loads(nodes[j].value))
  }

  function DeadNames(nodes: seq<Stmt>, live: set<Name>, preserved: set<Name>): set<Name>
    requires AllAreStores(nodes)
  {
    if nodes == [] then {}
    else
      (if Dead(nodes[0], FlatLive(nodes[1..], live, preserved), preserved) then {nodes[0].tensor} else {})
        + DeadNames(nodes[1..], live, preserved)
  }

  lemma {:induction false} DeadNamesAre(nodes: seq<Stmt>, live: set<Name>, preserved: set<Name>)
    requires AllAreStores(nodes)
    ensures forall t :: t in DeadNames(nodes, live, preserved) <==>
      exists k ::
        0 <= k < |nodes| && nodes[k].tensor == t && Dead(nodes[k], FlatLive(nodes[k + 1..], live, preserved), preserved)
  {
    if nodes != [] {
      var rest := nodes[1..];
      DeadNamesAre(rest, live, preserved);
      forall t ensures t in DeadNames(nodes, live, preserved) <==>
        exists k ::
          0 <= k < |nodes| && nodes[k].tensor == t &&
          Dead(nodes[k], FlatLive(nodes[k + 1..], live, preserved), preserved)
      {
        if t in DeadNames(rest, live, preserved) {
          var k :| 0 <= k < |rest| && rest[k].tensor == t &&
            Dead(rest[k], FlatLive(rest[k + 1..], live, preserved), preserved);
          assert nodes[k + 1] == rest[k] && nodes[k + 2..] == rest[k + 1..];
        }
        if k :|
          0 < k < |nodes| && nodes[k].tensor == t &&
          Dead(nodes[k], FlatLive(nodes[k + 1..], live, preserved), preserved) {
          assert nodes[k] == rest[k - 1] && nodes[k + 1..] == rest[k..];
        }
      }
    }
  }

  /** What a kept store loads is live before it, and stays live back to the last store of it. */
  lemma {:induction false} LoadsStayLive(nodes: seq<Stmt>, live: set<Name>, preserved: set<Name>, j: nat, t: Name)
    requires AllAreStores(nodes) && j < |nodes| && t in Loads(nodes[j].value)
    requires !Dead(nodes[j], FlatLive(nodes[j + 1..], live, preserved), preserved)
    requires forall k :: 0 <= k < j ==> nodes[k].tensor != t
    ensures t in FlatLive(nodes, live, preserved)
  {
    if j > 0 {
      assert nodes[1..][j..] == nodes[j + 1..];
      LoadsStayLive(nodes[1..], live, preserved, j - 1, t);
    }
  }

  /** No kept store loads a dropped temporary. */
  lemma KeptLoadNoDead(nodes: seq<Stmt>, preserved: set<Name>, j: nat)
    requires AllAreStores(nodes) && TemporariesOk(nodes, preserved) && j < |nodes|
    requires nodes[j].tensor !in DeadNames(nodes, {}, preserved)
    ensures Loads(nodes[j].value) !! DeadNames(nodes, {}, preserved)
  {
    DeadNamesAre(nodes, {}, preserved);
    forall t | t in Loads(nodes[j].value) ensures t !in DeadNames(nodes, {}, preserved) {
      if i :|
        0 <= i < |nodes| && nodes[i].tensor == t && Dead(nodes[i], FlatLive(nodes[i + 1..], {}, preserved), preserved) {
        if i < j {
          var rest := nodes[i + 1..];
          assert rest[j - i - 1] == nodes[j] && rest[j - i..] == nodes[j + 1..];
          LoadsStayLive(rest, {}, preserved, j - i - 1, t);
        }
      }
    }
  }

  lemma DeadNamesName(nodes: seq<Stmt>, preserved: set<Name>)
    requires AllAreStores(nodes) && TemporariesOk(nodes, preserved)
    ensures Names(nodes, {}, preserved, DeadNames(nodes, {}, preserved))
  {
    DeadNamesAre(nodes, {}, preserved);
    forall k | 0 <= k < |nodes| ensures NamedAt(nodes, {}, preserved, DeadNames(nodes, {}, preserved), k) {
      if i :|
        0 <= i < |nodes| && nodes[i].tensor == nodes[k].tensor &&
        Dead(nodes[i], FlatLive(nodes[i + 1..], {}, preserved), preserved) {
      }
    }
  }

  /** Every executed store comes from a store node. */
  ghost predicate FromNodes(tr: seq<Act>, nodes: seq<Stmt>) {
    forall a :: a in tr ==> Store(a.tensor, a.value, a.index) in nodes
  }

  lemma {:induction false} TraceFromNodes(size: string -> pos, s: Stmt, env: Env)
    ensures FromNodes(Trace(size, s, env), StoreNodes(s))
    decreases s, 1, 0
  {
    match s
    case Store(_, _, _) =>
    case Seq(l, r) =>
      TraceFromNodes(size, l, env);
      TraceFromNodes(size, r, env);
    case Block(ss) => AllFromNodes(size, ss, env);
    case Loop(lo, hi, tile, x, b) =>
      LoopFromNodes(size, b, x, size(tile), BoundValue(lo, env), BoundValue(hi, env), env);
  }

  lemma {:induction false} LoopFromNodes(size: string -> pos, b: Stmt, x: Name, step: pos, lo: int, hi: int, env: Env)
    ensures FromNodes(LoopTrace(size, b, x, step, lo, hi, env), StoreNodes(b))
    decreases b, 2, if lo < hi then hi - lo else 0
  {
    if lo < hi {
      TraceFromNodes(size, b, Bind(env, x, lo, step));
      LoopFromNodes(size, b, x, step, lo + step, hi, env);
    }
  }

  lemma {:induction false} AllFromNodes(size: string -> pos, ss: seq<Stmt>, env: Env)
    ensures FromNodes(TraceAll(size, ss, env), AllStoreNodes(ss))
    decreases ss, 0, 0
  {
    if ss != [] {
      TraceFromNodes(size, ss[0], env);
      AllFromNodes(size, ss[1..], env);
    }
  }

  /** Leaving out the stores to D changes only D, if no other store loads D. */
  lemma {:induction false} RunOutside<C, V>(M: Machine<C, V>, tr: seq<Act>, D: set<Name>, m1: Mem<C>, m2: Mem<C>)
    requires Agree(M, AllBut(D), m1, m2)
    requires forall a :: a in tr && a.tensor !in D ==> Loads(a.value) !! D
    ensures Agree(M, AllBut(D), Run(M, Outside(tr, D), m1), Run(M, tr, m2))
  {
    if tr != [] {
      var a := tr[0];
      assert a in tr;
      if a.tensor in D {
        RunOutside(M, tr[1..], D, m1, Step(M, a, m2));
        assert Outside(tr, D) == Outside(tr[1..], D);
      } else {
        EvalAgree(M, a.value, a.env, AllBut(D), m1, m2);
        RunOutside(M, tr[1..], D, Step(M, a, m1), Step(M, a, m2));
        assert Outside(tr, D)[1..] == Outside(tr[1..], D);
      }
    }
  }

  /** Dead-store elimination changes nothing but the dropped temporaries: the call's output, its input
      buffers and every tensor still stored keep their contents, cascades included. */
  lemma DeadStoresPreserve<C, V>(M: Machine<C, V>, root: Stmt, preserved: set<Name>, env: Env, mem: Mem<C>)
    requires TemporariesOk(StoreNodes(root), preserved)
    ensures var D := DeadNames(StoreNodes(root), {}, preserved);
      && D !! preserved
      && Agree(M, AllBut(D), Exec(M, EliminateDeadStores(root, preserved), env, mem), Exec(M, root, env, mem))
  {
    var nodes := StoreNodes(root);
    var D := DeadNames(nodes, {}, preserved);
    var tr := Trace(M.tileSize, root, env);
    DeadNamesAre(nodes, {}, preserved);
    DeadNamesName(nodes, preserved);
    PruneFilters(M.tileSize, root, env, {}, preserved, D);
    TraceFromNodes(M.tileSize, root, env);
    forall a | a in tr && a.tensor !in D ensures Loads(a.value) !! D {
      var j :| 0 <= j < |nodes| && nodes[j] == Store(a.tensor, a.value, a.index);
      KeptLoadNoDead(nodes, preserved, j);
    }
    RunOutside(M, tr, D, mem, mem);
    var pruned := EliminateDeadStores(root, preserved);
    ExecIsRun(M, root, env, mem);
    ExecIsRun(M, pruned, env, mem);
    assert Trace(M.tileSize, pruned, env) == Outside(tr, D);
  }

  /** A store survives exactly when its tensor is preserved or live where it stands. */
  lemma SurvivorsAreNeeded(nodes: seq<Stmt>, preserved: set<Name>, k: nat)
    requires AllAreStores(nodes) && TemporariesOk(nodes, preserved) && k < |nodes|
    ensures nodes[k].tensor !in DeadNames(nodes, {}, preserved) <==>
      nodes[k].tensor in preserved || nodes[k].tensor in FlatLive(nodes[k + 1..], {}, preserved)
  {
    DeadNamesName(nodes, preserved);
    assert NamedAt(nodes, {}, preserved, DeadNames(nodes, {}, preserved), k);
  }

  // ---------------------------------------------------------------------------------------------
  // Exactly the stores that are needed survive

  /** Each store taken for a call that produces its tensor. */
  function StoreCalls(nodes: seq<Stmt>): (r: seq<Call>)
    requires AllAreStores(nodes)
    ensures |r| == |nodes|
  {
    seq(|nodes|, k requires 0 <= k < |nodes| => Call(nodes[k], nodes[k].tensor))
  }

  function LeftNodes(s: Option<Stmt>): (r: seq<Stmt>)
    ensures AllAreStores(r)
  {
    match s
    case None => []
    case Some(x) => StoreNodes(x)
  }

  /** What is live before the scanned calls. */
  function LiveAt(calls: seq<Call>, live: set<Name>, inputs: set<Name>): set<Name> {
    if calls == [] then live
    else
      var front, last := calls[..|calls| - 1], calls[|calls| - 1];
      LiveAt(front, if IsLive(last, live, inputs) then LiveBefore(last, live, inputs) else live, inputs)
  }

  lemma {:induction false} KeptAppend(a: seq<Call>, b: seq<Call>, live: set<Name>, inputs: set<Name>)
    ensures KeptCalls(a + b, live, inputs) == KeptCalls(a, LiveAt(b, live, inputs), inputs) + KeptCalls(b, live, inputs)
    ensures LiveAt(a + b, live, inputs) == LiveAt(a, LiveAt(b, live, inputs), inputs)
  {
    if b == [] {
      assert a + b == a;
    } else {
      var n := |b| - 1;
      assert (a + b)[..|a| + n] == a + b[..n];
      KeptAppend(a, b[..n], if IsLive(b[n], live, inputs) then LiveBefore(b[n], live, inputs) else live, inputs);
    }
  }

  lemma StoreCallsAppend(a: seq<Stmt>, b: seq<Stmt>)
    requires AllAreStores(a) && AllAreStores(b)
    ensures StoreCalls(a + b) == StoreCalls(a) + StoreCalls(b)
  {
  }

  /** The scan over a statement keeps what the scan over its stores as calls keeps; what is preserved is
      live in any case. */
  ghost predicate KeepsAlike(s: Stmt, live: set<Name>, L: set<Name>, preserved: set<Name>) {
    var left := Prune(s, live, preserved);
    Alike(StoreCalls(StoreNodes(s)), StoreCalls(LeftNodes(left.0)), left.1, L, preserved)
  }

  lemma StoreKeepsAlike(s: Stmt, live: set<Name>, L: set<Name>, preserved: set<Name>)
    requires s.Store? && L - preserved == live - preserved
    ensures KeepsAlike(s, live, L, preserved)
  {
    var c := Call(s, s.tensor);
    assert StoreNodes(s) == [s] && StoreCalls([s]) == [c] && [c][..0] == [];
    assert StmtStores(s) * preserved != {} <==> s.tensor in preserved by {
      if s.tensor in preserved { assert s.tensor in StmtStores(s) * preserved; }
    }
    assert s.tensor !in preserved ==> (s.tensor in L <==> s.tensor in live) by {
      assert s.tensor !in preserved ==> (s.tensor in L - preserved <==> s.tensor in L);
    }
    var left := Prune(s, live, preserved);
    assert forall n :: n !in preserved ==> (n in L <==> n in live) by {
      assert forall n :: n !in preserved ==> (n in L <==> n in L - preserved) && (n in live <==> n in live - preserved);
    }
    if IsLive(c, L, preserved) {
      assert LiveBefore(c, L, preserved) - preserved == left.1 - preserved;
    }
  }

  function Joined(l: Option<Stmt>, r: Option<Stmt>): Option<Stmt> {
    if l.None? then r else if r.None? then l else Some(Seq(l.value, r.value))
  }

  lemma JoinedNodes(l: Option<Stmt>, r: Option<Stmt>)
    ensures StoreCalls(LeftNodes(Joined(l, r))) == StoreCalls(LeftNodes(l)) + StoreCalls(LeftNodes(r))
  {
    StoreCallsAppend(LeftNodes(l), LeftNodes(r));
    assert LeftNodes(Joined(l, r)) == LeftNodes(l) + LeftNodes(r);
  }

  /** What the scan does over a list of stores. */
  ghost predicate Alike(calls: seq<Call>, left: seq<Call>, live: set<Name>, L: set<Name>, preserved: set<Name>) {
    left == KeptCalls(calls, L, preserved) && LiveAt(calls, L, preserved) - preserved == live - preserved
  }

  lemma AlikeAppend(a: seq<Call>, b: seq<Call>, leftA: seq<Call>, leftB: seq<Call>, liveA: set<Name>, liveB: set<Name>,
      L: set<Name>, preserved: set<Name>)
    requires Alike(b, leftB, liveB, L, preserved) && Alike(a, leftA, liveA, LiveAt(b, L, preserved), preserved)
    ensures Alike(a + b, leftA + leftB, liveA, L, preserved)
  {
    KeptAppend(a, b, L, preserved);
  }

  lemma SeqKeepsAlike(l: Stmt, r: Stmt, live: set<Name>, L: set<Name>, preserved: set<Name>)
    requires KeepsAlike(r, live, L, preserved)
    requires KeepsAlike(l, Prune(r, live, preserved).1, LiveAt(StoreCalls(StoreNodes(r)), L, preserved), preserved)
    ensures KeepsAlike(Seq(l, r), live, L, preserved)
  {
    var right := Prune(r, live, preserved);
    var left := Prune(l, right.1, preserved);
    StoreCallsAppend(StoreNodes(l), StoreNodes(r));
    JoinedNodes(left.0, right.0);
    AlikeAppend(StoreCalls(StoreNodes(l)), StoreCalls(StoreNodes(r)), StoreCalls(LeftNodes(left.0)),
      StoreCalls(LeftNodes(right.0)), left.1, right.1, L, preserved);
    assert Prune(Seq(l, r), live, preserved) == (Joined(left.0, right.0), left.1);
  }

  lemma {:induction false} PruneKeepsAlike(s: Stmt, live: set<Name>, L: set<Name>, preserved: set<Name>)
    requires L - preserved == live - preserved
    ensures KeepsAlike(s, live, L, preserved)
    decreases s, 1
  {
    match s
    case Store(_, _, _) => StoreKeepsAlike(s, live, L, preserved);
    case Seq(l, r) =>
      PruneKeepsAlike(r, live, L, preserved);
      PruneKeepsAlike(l, Prune(r, live, preserved).1, LiveAt(StoreCalls(StoreNodes(r)), L, preserved), preserved);
      SeqKeepsAlike(l, r, live, L, preserved);
    case Block(ss) =>
      PruneAllKeepsAlike(ss, live, L, preserved);
      var kept := PruneAll(ss, live, preserved).0;
      if |kept| == 1 { assert AllStoreNodes(kept[1..]) == [] && AllStoreNodes(kept) == StoreNodes(kept[0]) + []; }
    case Loop(_, _, _, _, b) =>
      PruneKeepsAlike(b, live, L, preserved);
      NothingLeft(b, live, preserved);
  }

  lemma {:induction false} PruneAllKeepsAlike(ss: seq<Stmt>, live: set<Name>, L: set<Name>, preserved: set<Name>)
    requires L - preserved == live - preserved
    ensures var left := PruneAll(ss, live, preserved);
      Alike(StoreCalls(AllStoreNodes(ss)), StoreCalls(AllStoreNodes(left.0)), left.1, L, preserved)
    decreases ss, 0
  {
    if ss != [] {
      var rest := PruneAll(ss[1..], live, preserved);
      var L' := LiveAt(StoreCalls(AllStoreNodes(ss[1..])), L, preserved);
      PruneAllKeepsAlike(ss[1..], live, L, preserved);
      PruneKeepsAlike(ss[0], rest.1, L', preserved);
      StoreCallsAppend(StoreNodes(ss[0]), AllStoreNodes(ss[1..]));
      var first := Prune(ss[0], rest.1, preserved);
      StoreCallsAppend(LeftNodes(first.0), AllStoreNodes(rest.0));
      AlikeAppend(StoreCalls(StoreNodes(ss[0])), StoreCalls(AllStoreNodes(ss[1..])), StoreCalls(LeftNodes(first.0)),
        StoreCalls(AllStoreNodes(rest.0)), first.1, rest.1, L, preserved);
      if first.0.Some? { assert ([first.0.value] + rest.0)[1..] == rest.0; }
    }
  }

  /** For every statement, the stores that are left are those marked as needed, and only one marking fits: a
      store survives exactly when its tensor is preserved, or a later surviving store loads it and no
      surviving store in between writes it. */
  lemma SurvivorsExactly(root: Stmt, preserved: set<Name>, marks: seq<bool>)
    requires |marks| == |StoreNodes(root)|
    requires forall k :: 0 <= k < |marks| ==>
      (marks[k] <==> Needed(StoreCalls(StoreNodes(root)), marks, k, {}, preserved))
    ensures StoreCalls(StoreNodes(EliminateDeadStores(root, preserved))) ==
      Selected(StoreCalls(StoreNodes(root)), marks)
  {
    PruneKeepsAlike(root, {}, {}, preserved);
    KeptIffNeeded(StoreCalls(StoreNodes(root)), marks, {}, preserved);
    assert StoreNodes(EliminateDeadStores(root, preserved)) == LeftNodes(Prune(root, {}, preserved).0);
  }

  // ---------------------------------------------------------------------------------------------
  // One scan is enough

  /** What is left of a statement is left whole by a second scan, with the same liveness before it. */
  lemma {:induction false} PruneTwice(s: Stmt, live: set<Name>, preserved: set<Name>)
    ensures var once := Prune(s, live, preserved);
      once.0.Some? ==> Prune(once.0.value, live, preserved) == once
    decreases s, 1
  {
    match s
    case Store(_, _, _) =>
    case Seq(l, r) =>
      var mid := Prune(r, live, preserved).1;
      PruneTwice(r, live, preserved);
      PruneTwice(l, mid, preserved);
      NothingLeft(r, live, preserved);
      NothingLeft(l, mid, preserved);
    case Block(ss) => PruneAllTwice(ss, live, preserved);
    case Loop(_, _, _, _, b) => PruneTwice(b, live, preserved);
  }

  lemma {:induction false} PruneAllTwice(ss: seq<Stmt>, live: set<Name>, preserved: set<Name>)
    ensures var once := PruneAll(ss, live, preserved);
      PruneAll(once.0, live, preserved) == once &&
        (|once.0| == 1 ==> Prune(once.0[0], live, preserved) == (Some(once.0[0]), once.1))
    decreases ss, 0
  {
    if ss != [] {
      var rest := PruneAll(ss[1..], live, preserved);
      PruneAllTwice(ss[1..], live, preserved);
      PruneTwice(ss[0], rest.1, preserved);
      NothingLeft(ss[0], rest.1, preserved);
      NothingLeftAll(ss[1..], live, preserved);
      var first := Prune(ss[0], rest.1, preserved);
      if first.0.Some? { assert ([first.0.value] + rest.0)[1..] == rest.0; }
    }
  }

  /** Eliminating dead stores again changes nothing, for every statement. */
  lemma EliminationIdempotent(root: Stmt, preserved: set<Name>)
    ensures EliminateDeadStores(EliminateDeadStores(root, preserved), preserved) == EliminateDeadStores(root, preserved)
  {
    PruneTwice(root, {}, preserved);
  }
}
