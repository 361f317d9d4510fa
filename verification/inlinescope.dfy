/** Which calls elementwise inlining takes, and that it leaves none it could take. */
module InlineScope {
  import opened Ast
  import opened Machines
  import opened Inlining

  // A call is offered for inlining exactly when it is one store of its own output, which the program does not
  // put out, of a pointwise expression without exp whose loads are at the store's index (OfferedIff).  The
  // pass drops no other calls (DroppedAreOffered), and when it ends no later call loads the output of a call
  // that is offered, unless that call loads its own output (NothingLeftToInline).

  // ---------------------------------------------------------------------------------------------
  // What is offered

  /** Loops around one store, with no sequence and no longer block between. */
  predicate NestOf(s: Stmt, store: Stmt) {
    match s
    case Store(_, _, _) => s == store
    case Loop(_, _, _, _, b) => NestOf(b, store)
    case Seq(_, _) => false
    case Block(ss) => |ss| == 1 && NestOf(ss[0], store)
  }

  predicate Binary(op: Oper) { op in {Add, Sub, Mul, Div, Max, Min} || op.GenericBinary? }

  predicate Unary(op: Oper) { op in {Sqr, Sqrt, Sigmoid, GenericCall("erf"), GenericCall("abs")} || op.Cast? }

  /** Pointwise operators other than exp on constants and on loads at the index. */
  predicate PointwiseAt(e: Expr, ix: Index) {
    match e
    case Load(_, jx) => jx == ix
    case Const(_) => true
    case Arange(_) => false
    case Op(op, args) =>
      ((|args| == 2 && Binary(op)) || (|args| == 1 && Unary(op))) && forall a :: a in args ==> PointwiseAt(a, ix)
  }

  /** The call may be inlined. */
  ghost predicate Inlinable(c: Call, outputs: set<Name>) {
    c.out !in outputs &&
    exists v, ix :: NestOf(c.root, Store(c.out, v, ix)) && PointwiseAt(v, ix)
  }

  lemma {:induction false} NestIsSingle(s: Stmt, store: Stmt)
    requires store.Store?
    ensures NestOf(s, store) <==> SingleStore(s) == Some(store)
  {
    match s
    case Store(_, _, _) =>
    case Loop(_, _, _, _, b) => NestIsSingle(b, store);
    case Seq(_, _) =>
    case Block(ss) => if |ss| == 1 { NestIsSingle(ss[0], store); }
  }

  lemma {:induction false} ExtractedIff(e: Expr, ix: Index)
    ensures PointwiseAt(e, ix) <==> !ContainsExp(e) && Extract(e, ix).Some?
  {
    match e
    case Load(_, _) =>
    case Const(_) =>
    case Arange(_) =>
    case Op(op, args) =>
      forall a | a in args
        ensures PointwiseAt(a, ix) <==> !ContainsExp(a) && Extract(a, ix).Some?
      {
        ExtractedIff(a, ix);
      }
      OpExtractedIff(op, args, ix);
  }

  lemma OpExtractedIff(op: Oper, args: seq<Expr>, ix: Index)
    requires forall a :: a in args ==> (PointwiseAt(a, ix) <==> !ContainsExp(a) && Extract(a, ix).Some?)
    ensures PointwiseAt(Op(op, args), ix) <==> !ContainsExp(Op(op, args)) && Extract(Op(op, args), ix).Some?
  {
    var e := Op(op, args);
    assert op.Exp? ==> ContainsExp(e);
    assert ExtractAll(args, ix).Some? <==> forall a :: a in args ==> Extract(a, ix).Some?;
    assert !op.Exp? ==> (ContainsExp(e) <==> exists a :: a in args && ContainsExp(a));
  }

  /** A template is offered exactly by calls that may be inlined. */
  lemma OfferedIff(c: Call, outputs: set<Name>)
    ensures Producer(c, outputs).Some? <==> Inlinable(c, outputs)
  {
    match SingleStore(c.root)
    case None =>
      if Inlinable(c, outputs) {
        var v, ix :| NestOf(c.root, Store(c.out, v, ix)) && PointwiseAt(v, ix);
        NestIsSingle(c.root, Store(c.out, v, ix));
      }
    case Some(store) =>
      NestIsSingle(c.root, store);
      ExtractedIff(store.value, store.index);
      if Inlinable(c, outputs) {
        var v, ix :| NestOf(c.root, Store(c.out, v, ix)) && PointwiseAt(v, ix);
        NestIsSingle(c.root, Store(c.out, v, ix));
      }
      if Producer(c, outputs).Some? {
        assert store == Store(c.out, store.value, store.index);
      }
  }

  // ---------------------------------------------------------------------------------------------
  // Nothing else is dropped

  /** Pointwise operators other than exp, whatever the loads. */
  predicate PointwiseOps(e: Expr) {
    match e
    case Load(_, _) => true
    case Const(_) => true
    case Arange(_) => false
    case Op(op, args) =>
      ((|args| == 2 && Binary(op)) || (|args| == 1 && Unary(op))) && forall a :: a in args ==> PointwiseOps(a)
  }

  /** One store of the call's own output, which is no output of the program, of pointwise operators other
      than exp. */
  ghost predicate Droppable(c: Call, outputs: set<Name>) {
    c.out !in outputs && exists v, ix :: NestOf(c.root, Store(c.out, v, ix)) && PointwiseOps(v)
  }

  lemma {:induction false} PointwiseAnywhere(e: Expr, ix: Index)
    requires PointwiseAt(e, ix)
    ensures PointwiseOps(e)
  {
    if e.Op? {
      forall a | a in e.args ensures PointwiseOps(a) { PointwiseAnywhere(a, ix); }
    }
  }

  lemma {:induction false} InlinedOps(e: Expr, out: Name, t: Template)
    requires PointwiseOps(InlineExpr(e, out, t))
    ensures PointwiseOps(e)
  {
    match e
    case Op(op, args) =>
      forall a | a in args ensures PointwiseOps(a) {
        var k :| 0 <= k < |args| && args[k] == a;
        assert InlineExpr(e, out, t).args[k] == InlineExpr(a, out, t);
        assert InlineExpr(a, out, t) in InlineExpr(e, out, t).args;
        InlinedOps(a, out, t);
      }
    case _ =>
  }

  lemma {:induction false} InlinedNest(s: Stmt, out: Name, t: Template, n: Name, v: Expr, ix: Index) returns (w: Expr)
    requires NestOf(InlineStmt(s, out, t), Store(n, v, ix))
    ensures NestOf(s, Store(n, w, ix)) && v == InlineExpr(w, out, t)
  {
    match s
    case Store(_, value, _) => w := value;
    case Loop(_, _, _, _, b) => w := InlinedNest(b, out, t, n, v, ix);
    case Block(ss) => w := InlinedNest(ss[0], out, t, n, v, ix);
  }

  lemma InlinedDroppable(c: Call, out: Name, t: Template, outputs: set<Name>)
    requires Droppable(Call(InlineStmt(c.root, out, t), c.out), outputs)
    ensures Droppable(c, outputs)
  {
    var v, ix :| NestOf(InlineStmt(c.root, out, t), Store(c.out, v, ix)) && PointwiseOps(v);
    var w := InlinedNest(c.root, out, t, c.out, v, ix);
    InlinedOps(w, out, t);
  }

  /** The second list is the first without some calls that may be dropped, each left call for its output. */
  ghost predicate Thinned(calls: seq<Call>, left: seq<Call>, outputs: set<Name>) {
    if calls == [] then left == []
    else
      || (left != [] && left[0].out == calls[0].out && Thinned(calls[1..], left[1..], outputs))
      || (Droppable(calls[0], outputs) && Thinned(calls[1..], left, outputs))
  }

  lemma {:induction false} ThinnedItself(calls: seq<Call>, outputs: set<Name>)
    ensures Thinned(calls, calls, outputs)
  {
    if calls != [] { ThinnedItself(calls[1..], outputs); }
  }

  /** The same outputs, and no call became droppable. */
  ghost predicate NoMoreDroppable(calls: seq<Call>, later: seq<Call>, outputs: set<Name>) {
    |calls| == |later| && forall k :: 0 <= k < |calls| ==>
      later[k].out == calls[k].out && (Droppable(later[k], outputs) ==> Droppable(calls[k], outputs))
  }

  lemma {:induction false} ThinnedBefore(calls: seq<Call>, later: seq<Call>, left: seq<Call>, outputs: set<Name>)
    requires NoMoreDroppable(calls, later, outputs) && Thinned(later, left, outputs)
    ensures Thinned(calls, left, outputs)
  {
    if calls != [] {
      assert later[0].out == calls[0].out;
      assert NoMoreDroppable(calls[1..], later[1..], outputs) by {
        assert forall k :: 0 <= k < |calls[1..]| ==> calls[1..][k] == calls[k + 1] && later[1..][k] == later[k + 1];
      }
      if left != [] && left[0].out == later[0].out && Thinned(later[1..], left[1..], outputs) {
        ThinnedBefore(calls[1..], later[1..], left[1..], outputs);
      } else {
        ThinnedBefore(calls[1..], later[1..], left, outputs);
      }
    }
  }

  lemma {:induction false} ThinnedWithout(calls: seq<Call>, i: nat, left: seq<Call>, outputs: set<Name>)
    requires i < |calls| && Droppable(calls[i], outputs) && Thinned(Without(calls, i), left, outputs)
    ensures Thinned(calls, left, outputs)
    decreases i
  {
    if i == 0 {
      assert Without(calls, 0) == calls[1..];
    } else {
      assert Without(calls, i)[0] == calls[0] && Without(calls, i)[1..] == Without(calls[1..], i - 1);
      if left != [] && left[0].out == calls[0].out && Thinned(Without(calls, i)[1..], left[1..], outputs) {
        ThinnedWithout(calls[1..], i - 1, left[1..], outputs);
      } else {
        ThinnedWithout(calls[1..], i - 1, left, outputs);
      }
    }
  }

  lemma ReplacedNoMore(calls: seq<Call>, i: nat, t: Template, outputs: set<Name>)
    requires i < |calls|
    ensures NoMoreDroppable(calls, Replaced(calls, i, t), outputs)
  {
    var later := Replaced(calls, i, t);
    forall k | 0 <= k < |calls| ensures Droppable(later[k], outputs) ==> Droppable(calls[k], outputs) {
      if later[k] != calls[k] && Droppable(later[k], outputs) { InlinedDroppable(calls[k], calls[i].out, t, outputs); }
    }
  }

  lemma ProducerDroppable(c: Call, outputs: set<Name>)
    requires Producer(c, outputs).Some?
    ensures Droppable(c, outputs)
  {
    OfferedIff(c, outputs);
    var v, ix :| NestOf(c.root, Store(c.out, v, ix)) && PointwiseAt(v, ix);
    PointwiseAnywhere(v, ix);
  }

  /** The pass leaves every call that is not droppable, in order: outputs, calls with exp, ranges or other
      operators, and nests of several stores stay. */
  lemma {:induction false} DroppedAreOffered(calls: seq<Call>, i: nat, outputs: set<Name>)
    ensures InlineFrom(calls, i, outputs).Inlined? ==> Thinned(calls, InlineFrom(calls, i, outputs).calls, outputs)
    decreases |calls| - i
  {
    if i + 1 >= |calls| {
      ThinnedItself(calls, outputs);
    } else {
      match Producer(calls[i], outputs)
      case None => DroppedAreOffered(calls, i + 1, outputs);
      case Some(t) =>
        if !LoadedAfter(calls, i, calls[i].out) {
          DroppedAreOffered(calls, i + 1, outputs);
        } else if !Fails(calls, i, |calls|) {
          var later := Replaced(calls, i, t);
          ReplacedNoMore(calls, i, t, outputs);
          if later != calls && !LoadedAfter(later, i, calls[i].out) {
            DroppedAreOffered(Without(later, i), i, outputs);
            ProducerDroppable(calls[i], outputs);
            assert later[i] == calls[i];
            if InlineFrom(Without(later, i), i, outputs).Inlined? {
              ThinnedWithout(later, i, InlineFrom(Without(later, i), i, outputs).calls, outputs);
              ThinnedBefore(calls, later, InlineFrom(Without(later, i), i, outputs).calls, outputs);
            }
          } else {
            DroppedAreOffered(later, i + 1, outputs);
            if InlineFrom(later, i + 1, outputs).Inlined? {
              ThinnedBefore(calls, later, InlineFrom(later, i + 1, outputs).calls, outputs);
            }
          }
        }
    }
  }

  // ---------------------------------------------------------------------------------------------
  // Nothing is left to inline

  lemma {:induction false} LoadsReplaced(e: Expr, out: Name, t: Template)
    ensures out in Loads(InlineExpr(e, out, t)) ==> out in TLoads(t)
  {
    match e
    case Load(_, jx) => BuildLoads(t, jx);
    case Op(op, args) =>
      if out in Loads(InlineExpr(e, out, t)) {
        var a :| a in InlineExpr(e, out, t).args && out in Loads(a);
        var k :| 0 <= k < |args| && InlineExpr(e, out, t).args[k] == a;
        LoadsReplaced(args[k], out, t);
      }
    case _ =>
  }

  lemma {:induction false} StmtLoadsReplaced(s: Stmt, out: Name, t: Template)
    ensures out in StmtLoads(InlineStmt(s, out, t)) ==> out in TLoads(t)
  {
    match s
    case Store(_, v, _) => LoadsReplaced(v, out, t);
    case Loop(_, _, _, _, b) => StmtLoadsReplaced(b, out, t);
    case Seq(l, r) =>
      StmtLoadsReplaced(l, out, t);
      StmtLoadsReplaced(r, out, t);
    case Block(ss) =>
      if out in StmtLoads(InlineStmt(s, out, t)) {
        var c :| c in InlineStmt(s, out, t).stmts && out in StmtLoads(c);
        var k :| 0 <= k < |ss| && InlineStmt(s, out, t).stmts[k] == c;
        StmtLoadsReplaced(ss[k], out, t);
      }
  }

  /** A template loads what its call loads. */
  lemma ProducerLoads(c: Call, outputs: set<Name>)
    requires Producer(c, outputs).Some?
    ensures TLoads(Producer(c, outputs).value) <= StmtLoads(c.root)
  {
    var store := SingleStore(c.root).value;
    ExtractBuilds(store.value, store.index);
    NestLoads(c.root);
  }

  lemma {:induction false} NestLoads(s: Stmt)
    requires SingleStore(s).Some?
    ensures StmtLoads(s) == Loads(SingleStore(s).value.value)
  {
    match s
    case Store(_, _, _) =>
    case Loop(_, _, _, _, b) => NestLoads(b);
    case Block(ss) => NestLoads(ss[0]);
  }

  /** No call before i is offered and loaded by a later one, but for those that load themselves. */
  ghost predicate Settled(calls: seq<Call>, i: nat, outputs: set<Name>) {
    forall k :: 0 <= k < i && k < |calls| && Producer(calls[k], outputs).Some? ==>
      !LoadedAfter(calls, k, calls[k].out) || calls[k].out in StmtLoads(calls[k].root)
  }

  lemma ReplacedSettled(calls: seq<Call>, i: nat, t: Template, outputs: set<Name>)
    requires i < |calls| && Settled(calls, i, outputs) && Producer(calls[i], outputs) == Some(t)
    ensures Settled(Replaced(calls, i, t), i, outputs)
  {
    var later := Replaced(calls, i, t);
    ProducerLoads(calls[i], outputs);
    forall k | 0 <= k < i && Producer(later[k], outputs).Some? && later[k].out !in StmtLoads(later[k].root)
      ensures !LoadedAfter(later, k, later[k].out)
    {
      assert later[k] == calls[k];
      forall j | k < j < |later| ensures later[k].out !in StmtLoads(later[j].root) {
        assert calls[k].out !in StmtLoads(calls[j].root) && calls[k].out !in StmtLoads(calls[i].root);
        StmtLoadsInlined(calls[j].root, calls[i].out, t);
      }
    }
  }

  lemma WithoutSettled(calls: seq<Call>, i: nat, outputs: set<Name>)
    requires i < |calls| && Settled(calls, i, outputs)
    ensures Settled(Without(calls, i), i, outputs)
  {
    var rest := Without(calls, i);
    forall k | 0 <= k < i && k < |rest| && Producer(rest[k], outputs).Some? && rest[k].out !in StmtLoads(rest[k].root)
      ensures !LoadedAfter(rest, k, rest[k].out)
    {
      assert rest[k] == calls[k] && !LoadedAfter(calls, k, calls[k].out);
      forall j | k < j < |rest| ensures rest[k].out !in StmtLoads(rest[j].root) {
        assert rest[j] == calls[if j < i then j else j + 1];
      }
    }
  }

  /** What stays loaded after the replacement is loaded by the template. */
  lemma StillLoaded(calls: seq<Call>, i: nat, t: Template, outputs: set<Name>)
    requires i < |calls| && Producer(calls[i], outputs) == Some(t) &&
      LoadedAfter(Replaced(calls, i, t), i, calls[i].out)
    ensures calls[i].out in StmtLoads(calls[i].root)
  {
    var later := Replaced(calls, i, t);
    var j :| i < j < |later| && calls[i].out in StmtLoads(later[j].root);
    ProducerLoads(calls[i], outputs);
    StmtLoadsReplaced(calls[j].root, calls[i].out, t);
  }

  lemma StepSettled(calls: seq<Call>, i: nat, t: Template, outputs: set<Name>)
    requires i < |calls| && Settled(calls, i, outputs) && Producer(calls[i], outputs) == Some(t)
    ensures Settled(Without(Replaced(calls, i, t), i), i, outputs) && Settled(Replaced(calls, i, t), i + 1, outputs)
  {
    var later := Replaced(calls, i, t);
    ReplacedSettled(calls, i, t, outputs);
    WithoutSettled(later, i, outputs);
    if LoadedAfter(later, i, calls[i].out) { StillLoaded(calls, i, t, outputs); }
    assert later[i] == calls[i];
  }

  lemma {:induction false} PassSettles(calls: seq<Call>, i: nat, outputs: set<Name>)
    requires Settled(calls, i, outputs) && i <= |calls|
    ensures InlineFrom(calls, i, outputs).Inlined? ==>
      var left := InlineFrom(calls, i, outputs).calls; Settled(left, |left|, outputs)
    decreases |calls| - i
  {
    if i + 1 < |calls| {
      match Producer(calls[i], outputs)
      case None => PassSettles(calls, i + 1, outputs);
      case Some(t) =>
        if !LoadedAfter(calls, i, calls[i].out) {
          PassSettles(calls, i + 1, outputs);
        } else if !Fails(calls, i, |calls|) {
          var later := Replaced(calls, i, t);
          StepSettled(calls, i, t, outputs);
          if later != calls && !LoadedAfter(later, i, calls[i].out) {
            PassSettles(Without(later, i), i, outputs);
          } else {
            PassSettles(later, i + 1, outputs);
          }
        }
    }
  }

  /** When the pass ends, no later call loads the output of a call that could be inlined, unless that call
      loads its own output. */
  lemma NothingLeftToInline(calls: seq<Call>, outputs: set<Name>, i: nat, j: nat)
    requires InlineFrom(calls, 0, outputs).Inlined?
    requires var left := InlineFrom(calls, 0, outputs).calls;
      i < j < |left| && Inlinable(left[i], outputs) && left[i].out in StmtLoads(left[j].root)
    ensures var left := InlineFrom(calls, 0, outputs).calls; left[i].out in StmtLoads(left[i].root)
  {
    var left := InlineFrom(calls, 0, outputs).calls;
    PassSettles(calls, 0, outputs);
    OfferedIff(left[i], outputs);
    assert LoadedAfter(left, i, left[i].out);
  }
}
