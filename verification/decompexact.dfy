/** What splitting into temporaries does to each expression (frontend/utils/ir_utils.py, decompose_operations), told
    by the places in the expression: which operators are candidates, that exactly the chosen ones become
    temporaries, and that putting the temporaries back gives the expression as it was. */
module DecompositionExact {
  import opened Ast
  import opened Elements
  import opened Decomposition

  // ---------------------------------------------------------------------------------------------
  // Places and candidates

  /** The path of operand numbers that leads to a place. */
  type Path = seq<nat>

  predicate Within(e: Expr, p: Path) { p == [] || (e.Op? && p[0] < |e.args| && Within(e.args[p[0]], p[1..])) }

  function At(e: Expr, p: Path): Expr
    requires Within(e, p)
  {
    if p == [] then e else At(e.args[p[0]], p[1..])
  }

  /** Nothing on the way stops the pass: no reduction, no maximum or minimum, and of a transpose only the first
      operand. */
  predicate Open(e: Expr, p: Path)
    requires Within(e, p)
  {
    p == [] ||
    (!(e.op.ReduceSum? || e.op.ReduceMax? || e.op.ReduceMin? || e.op.Max? || e.op.Min?) &&
     (e.op == GenericCall("transpose") ==> p[0] == 0) && Open(e.args[p[0]], p[1..]))
  }

  predicate Candidate(e: Expr) {
    e.Op? && e.op in {Add, Sub, Mul, Div, Exp, Sqr, Sqrt, Sigmoid, Matmul}
  }

  predicate CandidateAt(e: Expr, p: Path) { Within(e, p) && Open(e, p) && Candidate(At(e, p)) }

  function Under(k: nat, ps: seq<Path>): (r: seq<Path>)
    ensures |r| == |ps| && forall i :: 0 <= i < |ps| ==> r[i] == [k] + ps[i]
  {
    seq(|ps|, i requires 0 <= i < |ps| => [k] + ps[i])
  }

  /** The candidates of an expression in reading order. */
  function Candidates(e: Expr): seq<Path>
    decreases e, 1
  {
    if !e.Op? then []
    else
      (if IsCandidate(e.op) then [[]] else []) +
      if IsReduce(e.op) then [] else CandidatesOf(e.args, Visited(e.op, e.args), 0)
  }

  function CandidatesOf(args: seq<Expr>, n: nat, first: nat): seq<Path>
    decreases args, 0
  {
    if n == 0 || args == [] then []
    else Under(first, Candidates(args[0])) + CandidatesOf(args[1..], n - 1, first + 1)
  }

  /** Reading order: an operator before its operands, and those from left to right. */
  predicate Before(p: Path, q: Path) {
    q != [] && (p == [] || p[0] < q[0] || (p[0] == q[0] && Before(p[1..], q[1..])))
  }

  predicate InOrder(ps: seq<Path>) { forall i, j :: 0 <= i < j < |ps| ==> Before(ps[i], ps[j]) }

  lemma UnderAt(k: nat, ps: seq<Path>, p: Path)
    ensures p in Under(k, ps) <==> p != [] && p[0] == k && p[1..] in ps
  {
    if p != [] && p[0] == k && p[1..] in ps {
      var i :| 0 <= i < |ps| && ps[i] == p[1..];
      assert Under(k, ps)[i] == [k] + p[1..] == p;
    }
  }

  /** The list holds exactly the candidates. */
  lemma {:induction false} CandidatesIff(e: Expr, p: Path)
    ensures p in Candidates(e) <==> CandidateAt(e, p)
    decreases e, 1
  {
    if e.Op? {
      assert IsCandidate(e.op) <==> Candidate(e);
      if !IsReduce(e.op) {
        CandidatesOfIff(e.args, Visited(e.op, e.args), 0, p);
      }
    }
  }

  lemma {:induction false} CandidatesOfIff(args: seq<Expr>, n: nat, first: nat, p: Path)
    ensures p in CandidatesOf(args, n, first) <==>
      p != [] && first <= p[0] < first + |args| && p[0] < first + n && CandidateAt(args[p[0] - first], p[1..])
    decreases args, 0
  {
    if n != 0 && args != [] {
      if p != [] { CandidatesIff(args[0], p[1..]); }
      UnderAt(first, Candidates(args[0]), p);
      CandidatesOfIff(args[1..], n - 1, first + 1, p);
    }
  }

  lemma OrderUnder(k: nat, ps: seq<Path>)
    requires InOrder(ps)
    ensures InOrder(Under(k, ps))
  {
    forall i, j | 0 <= i < j < |ps| ensures Before(Under(k, ps)[i], Under(k, ps)[j]) {
      assert ([k] + ps[i])[1..] == ps[i] && ([k] + ps[j])[1..] == ps[j];
    }
  }

  lemma OrderBoth(ps: seq<Path>, qs: seq<Path>)
    requires InOrder(ps) && InOrder(qs) && forall p, q :: p in ps && q in qs ==> Before(p, q)
    ensures InOrder(ps + qs)
  {
    forall i, j | 0 <= i < j < |ps + qs| ensures Before((ps + qs)[i], (ps + qs)[j]) {
      if i < |ps| <= j { assert ps[i] in ps && qs[j - |ps|] in qs; }
    }
  }

  /** Each candidate is listed once, in reading order, and the pass counts them. */
  lemma {:induction false} CandidatesInOrder(e: Expr)
    ensures InOrder(Candidates(e)) && |Candidates(e)| == CountExpr(e, true)
    decreases e, 1
  {
    if e.Op? {
      var rest := if IsReduce(e.op) then [] else CandidatesOf(e.args, Visited(e.op, e.args), 0);
      if IsReduce(e.op) {
        CountNone(e.args, Visited(e.op, e.args));
      } else {
        CandidatesOfInOrder(e.args, Visited(e.op, e.args), 0);
        forall q | q in rest ensures Before([], q) { CandidatesOfIff(e.args, Visited(e.op, e.args), 0, q); }
      }
      OrderBoth(if IsCandidate(e.op) then [[]] else [], rest);
    }
  }

  lemma {:induction false} CandidatesOfInOrder(args: seq<Expr>, n: nat, first: nat)
    ensures InOrder(CandidatesOf(args, n, first)) && |CandidatesOf(args, n, first)| == CountArgs(args, n, true)
    decreases args, 0
  {
    if n != 0 && args != [] {
      var here, rest := Under(first, Candidates(args[0])), CandidatesOf(args[1..], n - 1, first + 1);
      CandidatesInOrder(args[0]);
      OrderUnder(first, Candidates(args[0]));
      CandidatesOfInOrder(args[1..], n - 1, first + 1);
      forall p, q | p in here && q in rest ensures Before(p, q) {
        UnderAt(first, Candidates(args[0]), p);
        CandidatesOfIff(args[1..], n - 1, first + 1, q);
      }
      OrderBoth(here, rest);
    }
  }

  // ---------------------------------------------------------------------------------------------
  // Looking through temporaries

  /** What each temporary holds: the store that fills it. */
  type Defs = map<Name, Stmt>

  predicate IsTemp(ds: Defs, e: Expr) {
    e.Load? && e.tensor in ds && ds[e.tensor].Store? && ds[e.tensor].index == e.index
  }

  /** A load of a temporary stands for what was stored there. */
  function Through(ds: Defs, e: Expr): Expr { if IsTemp(ds, e) then ds[e.tensor].value else e }

  /** Putting the temporaries back gives the expression. */
  predicate Restores(ds: Defs, e': Expr, e: Expr)
    decreases e
  {
    var seen := Through(ds, e');
    match e
    case Op(op, args) =>
      seen.Op? && seen.op == op && |seen.args| == |args| &&
      forall k :: 0 <= k < |args| ==> Restores(ds, seen.args[k], args[k])
    case _ => e' == e && seen == e
  }

  /** The expression at a place, looking through the temporaries above it. */
  function Follow(ds: Defs, e: Expr, p: Path): Option<Expr>
    decreases |p|
  {
    if p == [] then Some(e)
    else
      var seen := Through(ds, e);
      if seen.Op? && p[0] < |seen.args| then Follow(ds, seen.args[p[0]], p[1..]) else None
  }

  function IndexOf(e: Expr, ix: Index, p: Path): Index
    requires Within(e, p)
  {
    if p == [] then ix
    else IndexOf(e.args[p[0]], if Candidate(e) then ix else ChildIndex(e.op, e.args, ix), p[1..])
  }

  /** There is a temporary at the place, and it is stored and loaded at the index of that place. */
  predicate TempAt(ds: Defs, e': Expr, e: Expr, ix: Index, p: Path)
    requires Within(e, p)
  {
    var x := Follow(ds, e', p);
    x.Some? && IsTemp(ds, x.value) && x.value.index == IndexOf(e, ix, p)
  }

  predicate PlainAt(ds: Defs, e': Expr, p: Path) {
    var x := Follow(ds, e', p);
    x.Some? && !IsTemp(ds, x.value)
  }

  /** The definitions are those of the prelude, and the expression itself loads no temporary. */
  predicate Defines(ds: Defs, prelude: seq<Stmt>) {
    forall c :: c in prelude ==> c.Store? && c.tensor in ds && ds[c.tensor] == c
  }

  predicate Foreign(ds: Defs, e: Expr) { ds.Keys !! Loads(e) }

  predicate AllForeign(ds: Defs, args: seq<Expr>) { forall a :: a in args ==> Foreign(ds, a) }

  lemma {:induction false} RestoresItself(ds: Defs, e: Expr)
    requires Foreign(ds, e)
    ensures Restores(ds, e, e)
  {
    match e
    case Op(op, args) =>
      forall k | 0 <= k < |args| ensures Restores(ds, args[k], args[k]) {
        assert args[k] in args;
        RestoresItself(ds, args[k]);
      }
    case _ =>
  }

  predicate Chosen(ch: Choice, number: nat) {
    match ch
    case Never => false
    case Always => true
    case Chosen(places) => number in places
  }

  lemma OperandsForeign(ds: Defs, op: Oper, args: seq<Expr>)
    requires Foreign(ds, Op(op, args))
    ensures AllForeign(ds, args)
  {
    forall a | a in args ensures Foreign(ds, a) { assert Loads(a) <= Loads(Op(op, args)); }
  }

  /** Putting the temporaries back undoes the rewriting of an expression, whatever was chosen. */
  lemma {:induction false} ExpressionRestored(ds: Defs, ch: Choice, e: Expr, ix: Index, dest: Dims, allow: bool,
      st: State)
    requires Foreign(ds, e) && Defines(ds, Decompose(ch, e, ix, dest, allow, st).prelude)
    ensures Restores(ds, Decompose(ch, e, ix, dest, allow, st).expr, e)
    decreases e, 1
  {
    if !allow {
      NotAllowed(ch, e, ix, dest, st);
      RestoresItself(ds, e);
    } else {
      match e
      case Op(op, args) =>
        OperandsForeign(ds, op, args);
        if IsCandidate(op) {
          var r := DecomposeArgs(ch, args, |args|, ix, dest, true, Meet(ch, st));
          CandidateDefines(ds, ch, op, args, ix, dest, st);
          OperandsRestored(ds, ch, args, |args|, ix, dest, true, Meet(ch, st));
        } else if IsReduce(op) {
          NotAllowedArgs(ch, args, Visited(op, args), ChildIndex(op, args, ix), dest, st);
          RestoresItself(ds, e);
        } else {
          OperandsRestored(ds, ch, args, Visited(op, args), ChildIndex(op, args, ix), dest, true, st);
        }
      case _ => RestoresItself(ds, e);
    }
  }

  /** The temporary of a candidate holds the rewritten operator. */
  lemma CandidateDefines(ds: Defs, ch: Choice, op: Oper, args: seq<Expr>, ix: Index, dest: Dims, st: State)
    requires IsCandidate(op) && Defines(ds, Decompose(ch, Op(op, args), ix, dest, true, st).prelude)
    ensures var r := DecomposeArgs(ch, args, |args|, ix, dest, true, Meet(ch, st));
      var e' := Decompose(ch, Op(op, args), ix, dest, true, st).expr;
      Defines(ds, r.prelude) && Through(ds, e') == Op(op, r.exprs) && (IsTemp(ds, e') <==> Takes(ch, st)) &&
      (e'.Load? ==> e'.index == ix)
  {
    var r := DecomposeArgs(ch, args, |args|, ix, dest, true, Meet(ch, st));
    var d := Decompose(ch, Op(op, args), ix, dest, true, st);
    if Takes(ch, st) {
      assert d.prelude[|r.prelude|] in d.prelude;
      forall c | c in r.prelude ensures c in d.prelude { }
    }
  }

  lemma {:induction false} OperandsRestored(ds: Defs, ch: Choice, args: seq<Expr>, n: nat, ix: Index, dest: Dims,
      allow: bool, st: State)
    requires AllForeign(ds, args) && Defines(ds, DecomposeArgs(ch, args, n, ix, dest, allow, st).prelude)
    ensures var r := DecomposeArgs(ch, args, n, ix, dest, allow, st);
      forall k :: 0 <= k < |args| ==> Restores(ds, r.exprs[k], args[k])
    decreases args, 0
  {
    if n == 0 || args == [] {
      forall k | 0 <= k < |args| ensures Restores(ds, args[k], args[k]) { RestoresItself(ds, args[k]); }
    } else {
      var first := Decompose(ch, args[0], ix, dest, allow, st);
      var rest := DecomposeArgs(ch, args[1..], n - 1, ix, dest, allow, first.state);
      BothDefine(ds, first.prelude, rest.prelude);
      ExpressionRestored(ds, ch, args[0], ix, dest, allow, st);
      OperandsRestored(ds, ch, args[1..], n - 1, ix, dest, allow, first.state);
    }
  }

  lemma BothDefine(ds: Defs, a: seq<Stmt>, b: seq<Stmt>)
    requires Defines(ds, a + b)
    ensures Defines(ds, a) && Defines(ds, b)
  {
    assert forall c :: c in a || c in b ==> c in a + b;
  }

  // ---------------------------------------------------------------------------------------------
  // Which candidates become temporaries

  /** The k-th candidate in reading order is a temporary exactly when it is chosen. */
  predicate Cut(ds: Defs, ch: Choice, e': Expr, e: Expr, ix: Index, p: Path, number: nat) {
    Within(e, p) && if Chosen(ch, number) then TempAt(ds, e', e, ix, p) else PlainAt(ds, e', p)
  }

  function Number(ch: Choice, met: nat, k: nat): nat { if ch.Chosen? then met + k else 0 }

  predicate AllCut(ds: Defs, ch: Choice, e': Expr, e: Expr, ix: Index, ps: seq<Path>, met: nat) {
    forall k :: 0 <= k < |ps| ==> Cut(ds, ch, e', e, ix, ps[k], Number(ch, met, k))
  }

  predicate OperandCut(ds: Defs, ch: Choice, exprs: seq<Expr>, args: seq<Expr>, first: nat, ix: Index, p: Path,
      number: nat)
  {
    p != [] && first <= p[0] < first + |args| && |exprs| == |args| &&
    Cut(ds, ch, exprs[p[0] - first], args[p[0] - first], ix, p[1..], number)
  }

  predicate OperandsAllCut(ds: Defs, ch: Choice, exprs: seq<Expr>, args: seq<Expr>, first: nat, ix: Index,
      ps: seq<Path>, met: nat)
  {
    forall k :: 0 <= k < |ps| ==> OperandCut(ds, ch, exprs, args, first, ix, ps[k], Number(ch, met, k))
  }

  lemma UnderCut(ds: Defs, ch: Choice, e': Expr, es: seq<Expr>, args: seq<Expr>, first: nat, ix: Index, ps: seq<Path>,
      met: nat)
    requires args != [] && |es| == |args| - 1 && AllCut(ds, ch, e', args[0], ix, ps, met)
    ensures OperandsAllCut(ds, ch, [e'] + es, args, first, ix, Under(first, ps), met)
  {
    forall k | 0 <= k < |ps|
      ensures OperandCut(ds, ch, [e'] + es, args, first, ix, Under(first, ps)[k], Number(ch, met, k))
    {
      assert Under(first, ps)[k][0] == first && Under(first, ps)[k][1..] == ps[k];
    }
  }

  lemma RestCut(ds: Defs, ch: Choice, e': Expr, es: seq<Expr>, args: seq<Expr>, first: nat, ix: Index, ps: seq<Path>,
      met: nat)
    requires args != [] && OperandsAllCut(ds, ch, es, args[1..], first + 1, ix, ps, met)
    ensures OperandsAllCut(ds, ch, [e'] + es, args, first, ix, ps, met)
  {
    forall k | 0 <= k < |ps| ensures OperandCut(ds, ch, [e'] + es, args, first, ix, ps[k], Number(ch, met, k)) {
      assert OperandCut(ds, ch, es, args[1..], first + 1, ix, ps[k], Number(ch, met, k));
      assert ([e'] + es)[ps[k][0] - first] == es[ps[k][0] - (first + 1)];
    }
  }

  lemma JoinCut(ds: Defs, ch: Choice, es: seq<Expr>, args: seq<Expr>, first: nat, ix: Index, ps: seq<Path>,
      qs: seq<Path>, met: nat, later: nat)
    requires OperandsAllCut(ds, ch, es, args, first, ix, ps, met) &&
      OperandsAllCut(ds, ch, es, args, first, ix, qs, later)
    requires ch.Chosen? ==> later == met + |ps|
    ensures OperandsAllCut(ds, ch, es, args, first, ix, ps + qs, met)
  {
    forall k | 0 <= k < |ps + qs| ensures OperandCut(ds, ch, es, args, first, ix, (ps + qs)[k], Number(ch, met, k)) {
      if k < |ps| {
        assert OperandCut(ds, ch, es, args, first, ix, ps[k], Number(ch, met, k));
      } else {
        assert Number(ch, met, k) == Number(ch, later, k - |ps|);
        assert OperandCut(ds, ch, es, args, first, ix, qs[k - |ps|], Number(ch, later, k - |ps|));
      }
    }
  }

  /** What holds of the operands holds below the operator. */
  lemma BelowCut(ds: Defs, ch: Choice, e': Expr, e: Expr, exprs: seq<Expr>, ix: Index, ps: seq<Path>, met: nat)
    requires e.Op? && Through(ds, e') == Op(e.op, exprs)
    requires OperandsAllCut(ds, ch, exprs, e.args, 0, if Candidate(e) then ix else ChildIndex(e.op, e.args, ix), ps,
      met)
    ensures AllCut(ds, ch, e', e, ix, ps, met)
  {
    forall k | 0 <= k < |ps| ensures Cut(ds, ch, e', e, ix, ps[k], Number(ch, met, k)) {
      assert OperandCut(ds, ch, exprs, e.args, 0, if Candidate(e) then ix else ChildIndex(e.op, e.args, ix), ps[k],
        Number(ch, met, k));
    }
  }

  lemma RootCut(ds: Defs, ch: Choice, e': Expr, e: Expr, ix: Index, ps: seq<Path>, met: nat, later: nat)
    requires Cut(ds, ch, e', e, ix, [], Number(ch, met, 0)) && AllCut(ds, ch, e', e, ix, ps, later)
    requires ch.Chosen? ==> later == met + 1
    ensures AllCut(ds, ch, e', e, ix, [[]] + ps, met)
  {
    forall k | 0 <= k < |[[]] + ps| ensures Cut(ds, ch, e', e, ix, ([[]] + ps)[k], Number(ch, met, k)) {
      if k > 0 {
        assert Number(ch, met, k) == Number(ch, later, k - 1) && ([[]] + ps)[k] == ps[k - 1];
      }
    }
  }

  /** An operator that is no candidate stays, over the rewritten operands. */
  lemma OtherDefines(ds: Defs, ch: Choice, op: Oper, args: seq<Expr>, ix: Index, dest: Dims, st: State)
    requires !IsCandidate(op) && !IsReduce(op)
    requires Defines(ds, Decompose(ch, Op(op, args), ix, dest, true, st).prelude)
    ensures var r := DecomposeArgs(ch, args, Visited(op, args), ChildIndex(op, args, ix), dest, true, st);
      Defines(ds, r.prelude) && Decompose(ch, Op(op, args), ix, dest, true, st).expr == Op(op, r.exprs)
  {
  }

  /** The k-th candidate in reading order becomes a temporary exactly when number k counted from those met before is
      chosen, and is stored and loaded at the index of its place. */
  lemma {:induction false} ExpressionCut(ds: Defs, ch: Choice, e: Expr, ix: Index, dest: Dims, st: State)
    requires Defines(ds, Decompose(ch, e, ix, dest, true, st).prelude)
    ensures AllCut(ds, ch, Decompose(ch, e, ix, dest, true, st).expr, e, ix, Candidates(e), st.met)
    decreases e, 1
  {
    if e.Op? && IsCandidate(e.op) {
      CandidateDefines(ds, ch, e.op, e.args, ix, dest, st);
      OperandsCut(ds, ch, e.args, |e.args|, 0, ix, dest, Meet(ch, st));
      CandidateCut(ds, ch, Decompose(ch, e, ix, dest, true, st).expr, e,
        DecomposeArgs(ch, e.args, |e.args|, ix, dest, true, Meet(ch, st)).exprs, ix, st);
    } else if e.Op? && !IsReduce(e.op) {
      OtherDefines(ds, ch, e.op, e.args, ix, dest, st);
      OperandsCut(ds, ch, e.args, Visited(e.op, e.args), 0, ChildIndex(e.op, e.args, ix), dest, st);
      OtherCut(ds, ch, Decompose(ch, e, ix, dest, true, st).expr, e,
        DecomposeArgs(ch, e.args, Visited(e.op, e.args), ChildIndex(e.op, e.args, ix), dest, true, st).exprs, ix,
          st.met);
    }
  }

  lemma CandidateCut(ds: Defs, ch: Choice, e': Expr, e: Expr, exprs: seq<Expr>, ix: Index, st: State)
    requires e.Op? && IsCandidate(e.op) && Through(ds, e') == Op(e.op, exprs) && (e'.Load? ==> e'.index == ix)
    requires IsTemp(ds, e') <==> Takes(ch, st)
    requires OperandsAllCut(ds, ch, exprs, e.args, 0, ix, CandidatesOf(e.args, |e.args|, 0), Meet(ch, st).met)
    ensures AllCut(ds, ch, e', e, ix, Candidates(e), st.met)
  {
    var below := CandidatesOf(e.args, |e.args|, 0);
    BelowCut(ds, ch, e', e, exprs, ix, below, Meet(ch, st).met);
    RootCut(ds, ch, e', e, ix, below, st.met, Meet(ch, st).met);
    assert Candidates(e) == [[]] + below;
  }

  lemma OtherCut(ds: Defs, ch: Choice, e': Expr, e: Expr, exprs: seq<Expr>, ix: Index, met: nat)
    requires e.Op? && !IsCandidate(e.op) && !IsReduce(e.op) && e' == Op(e.op, exprs)
    requires OperandsAllCut(ds, ch, exprs, e.args, 0, ChildIndex(e.op, e.args, ix),
      CandidatesOf(e.args, Visited(e.op, e.args), 0), met)
    ensures AllCut(ds, ch, e', e, ix, Candidates(e), met)
  {
    BelowCut(ds, ch, e', e, exprs, ix, CandidatesOf(e.args, Visited(e.op, e.args), 0), met);
    assert Candidates(e) == CandidatesOf(e.args, Visited(e.op, e.args), 0);
  }

  lemma {:induction false} OperandsCut(ds: Defs, ch: Choice, args: seq<Expr>, n: nat, first: nat, ix: Index, dest: Dims,
      st: State)
    requires Defines(ds, DecomposeArgs(ch, args, n, ix, dest, true, st).prelude)
    ensures OperandsAllCut(ds, ch, DecomposeArgs(ch, args, n, ix, dest, true, st).exprs, args, first, ix,
      CandidatesOf(args, n, first), st.met)
    decreases args, 0
  {
    if n != 0 && args != [] {
      var one := Decompose(ch, args[0], ix, dest, true, st);
      var rest := DecomposeArgs(ch, args[1..], n - 1, ix, dest, true, one.state);
      OperandsAre(ch, args, n, ix, dest, true, st, one, rest);
      BothDefine(ds, one.prelude, rest.prelude);
      ExpressionCut(ds, ch, args[0], ix, dest, st);
      OperandsCut(ds, ch, args[1..], n - 1, first + 1, ix, dest, one.state);
      MetAfter(ch, args[0], ix, dest, st);
      UnderCut(ds, ch, one.expr, rest.exprs, args, first, ix, Candidates(args[0]), st.met);
      RestCut(ds, ch, one.expr, rest.exprs, args, first, ix, CandidatesOf(args[1..], n - 1, first + 1), one.state.met);
      JoinCut(ds, ch, [one.expr] + rest.exprs, args, first, ix, Under(first, Candidates(args[0])),
        CandidatesOf(args[1..], n - 1, first + 1), st.met, one.state.met);
    }
  }

  lemma MetAfter(ch: Choice, e: Expr, ix: Index, dest: Dims, st: State)
    ensures ch.Chosen? ==> Decompose(ch, e, ix, dest, true, st).state.met == st.met + |Candidates(e)|
  {
    CandidatesInOrder(e);
    ExprAdvances(ch, e, ix, dest, true, st);
  }

  // ---------------------------------------------------------------------------------------------
  // The prelude fills the new temporaries, one store each

  predicate Fills(prelude: seq<Stmt>, st: State, now: State) {
    && st.temps <= now.temps && |now.temps| == |st.temps| + |prelude|
    && forall i :: 0 <= i < |prelude| ==> prelude[i].Store? && prelude[i].tensor == now.temps[|st.temps| + i]
  }

  lemma FillsOn(a: seq<Stmt>, b: seq<Stmt>, st: State, mid: State, now: State)
    requires Fills(a, st, mid) && Fills(b, mid, now)
    ensures Fills(a + b, st, now)
  {
    forall i | 0 <= i < |a + b| ensures (a + b)[i].Store? && (a + b)[i].tensor == now.temps[|st.temps| + i] {
      if i < |a| { assert now.temps[|st.temps| + i] == mid.temps[|st.temps| + i]; }
    }
  }

  lemma {:induction false} ExpressionFills(ch: Choice, e: Expr, ix: Index, dest: Dims, allow: bool, st: State)
    ensures var r := Decompose(ch, e, ix, dest, allow, st); Fills(r.prelude, st, r.state)
    decreases e, 1
  {
    if !allow {
      NotAllowed(ch, e, ix, dest, st);
    } else if e.Op? && IsCandidate(e.op) {
      OperandsFill(ch, e.args, |e.args|, ix, dest, true, Meet(ch, st));
      CandidateFills(ch, e.op, e.args, ix, dest, st);
    } else if e.Op? {
      if IsReduce(e.op) {
        NotAllowedArgs(ch, e.args, Visited(e.op, e.args), ChildIndex(e.op, e.args, ix), dest, st);
      } else {
        OperandsFill(ch, e.args, Visited(e.op, e.args), ChildIndex(e.op, e.args, ix), dest, true, st);
      }
    }
  }

  lemma TempFills(st: State, shape: Dims, e: Expr, ix: Index)
    ensures Fills([Store(Tmp(AddTemp(st, shape).counter), e, ix)], st, AddTemp(st, shape))
  {
  }

  lemma CandidateFills(ch: Choice, op: Oper, args: seq<Expr>, ix: Index, dest: Dims, st: State)
    requires IsCandidate(op)
    requires var r := DecomposeArgs(ch, args, |args|, ix, dest, true, Meet(ch, st));
      Fills(r.prelude, Meet(ch, st), r.state)
    ensures var d := Decompose(ch, Op(op, args), ix, dest, true, st); Fills(d.prelude, st, d.state)
  {
    var r := DecomposeArgs(ch, args, |args|, ix, dest, true, Meet(ch, st));
    if Takes(ch, st) {
      var shape := InferShape(Op(op, r.exprs), r.state.shapes, dest);
      var now := AddTemp(r.state, shape);
      TempFills(r.state, shape, Op(op, r.exprs), ix);
      FillsOn(r.prelude, [Store(Tmp(now.counter), Op(op, r.exprs), ix)], Meet(ch, st), r.state, now);
    }
  }

  lemma {:induction false} OperandsFill(ch: Choice, args: seq<Expr>, n: nat, ix: Index, dest: Dims, allow: bool,
      st: State)
    ensures var r := DecomposeArgs(ch, args, n, ix, dest, allow, st); Fills(r.prelude, st, r.state)
    decreases args, 0
  {
    if n != 0 && args != [] {
      var one := Decompose(ch, args[0], ix, dest, allow, st);
      var rest := DecomposeArgs(ch, args[1..], n - 1, ix, dest, allow, one.state);
      OperandsAre(ch, args, n, ix, dest, allow, st, one, rest);
      ExpressionFills(ch, args[0], ix, dest, allow, st);
      OperandsFill(ch, args[1..], n - 1, ix, dest, allow, one.state);
      FillsOn(one.prelude, rest.prelude, st, one.state, rest.state);
    }
  }

  /** The definitions a prelude makes. */
  function DefsOf(prelude: seq<Stmt>): Defs {
    if prelude == [] then map[]
    else
      var last := prelude[|prelude| - 1];
      if last.Store? then DefsOf(prelude[..|prelude| - 1])[last.tensor := last] else DefsOf(prelude[..|prelude| - 1])
  }

  predicate Distinct(prelude: seq<Stmt>) {
    (forall i :: 0 <= i < |prelude| ==> prelude[i].Store?) &&
    forall i, j :: 0 <= i < j < |prelude| ==> prelude[i].tensor != prelude[j].tensor
  }

  lemma {:induction false} DefsDefine(prelude: seq<Stmt>)
    requires Distinct(prelude)
    ensures Defines(DefsOf(prelude), prelude)
    ensures forall t :: t in DefsOf(prelude) ==> exists i :: 0 <= i < |prelude| && prelude[i].tensor == t
  {
    if prelude != [] {
      var most, last := prelude[..|prelude| - 1], prelude[|prelude| - 1];
      DefsDefine(most);
      forall c | c in prelude ensures c.Store? && c.tensor in DefsOf(prelude) && DefsOf(prelude)[c.tensor] == c {
        var i :| 0 <= i < |prelude| && prelude[i] == c;
        if i < |most| { assert most[i] in most && c.tensor != last.tensor; }
      }
      forall t | t in DefsOf(prelude) ensures exists i :: 0 <= i < |prelude| && prelude[i].tensor == t {
        if t == last.tensor {
          assert prelude[|prelude| - 1].tensor == t;
        } else {
          var i :| 0 <= i < |most| && most[i].tensor == t;
          assert prelude[i].tensor == t;
        }
      }
    }
  }

  /** No new temporary was known before, so the loads of known tensors are foreign to the definitions. */
  lemma PreludeDefs(prelude: seq<Stmt>, st: State, now: State, e: Expr)
    requires Fills(prelude, st, now) && Grown(st, now) && Loads(e) <= st.shapes.Keys
    ensures Distinct(prelude) && Defines(DefsOf(prelude), prelude) && Foreign(DefsOf(prelude), e)
    ensures forall i :: 0 <= i < |prelude| ==> prelude[i].tensor !in st.shapes
  {
    DefsDefine(prelude);
  }

  // ---------------------------------------------------------------------------------------------
  // Statements

  /** The stores before the last one, and the last. */
  function Prelude(s: Stmt): seq<Stmt> { if s.Block? && s.stmts != [] then s.stmts[..|s.stmts| - 1] else [] }

  function Main(s: Stmt): Stmt { if s.Block? && s.stmts != [] then s.stmts[|s.stmts| - 1] else s }

  /** A store becomes a block of stores to new temporaries and the store itself, or the store alone; putting the
      temporaries back gives its value, and exactly the chosen candidates are temporaries. */
  predicate StoreRewritten(ch: Choice, s: Stmt, s': Stmt, met: nat, known: set<Name>)
    requires s.Store?
  {
    var prelude, last, ds := Prelude(s'), Main(s'), DefsOf(Prelude(s'));
    && (s'.Store? || (s'.Block? && prelude != []))
    && last.Store? && last.tensor == s.tensor && last.index == s.index
    && Distinct(prelude) && (forall i :: 0 <= i < |prelude| ==> prelude[i].tensor !in known)
    && Restores(ds, last.value, s.value)
    && AllCut(ds, ch, last.value, s.value, s.index, Candidates(s.value), met)
  }

  /** Store by store, candidates being counted through the statement; a tensor that is known is never filled. */
  predicate Rewritten(ch: Choice, s: Stmt, s': Stmt, met: nat, known: set<Name>)
    decreases s
  {
    match s
    case Store(_, _, _) => StoreRewritten(ch, s, s', met, known)
    case Loop(lo, hi, tile, x, b) =>
      s'.Loop? && s' == Loop(lo, hi, tile, x, s'.body) && Rewritten(ch, b, s'.body, met, known)
    case Seq(l, r) =>
      s'.Seq? && Rewritten(ch, l, s'.left, met, known) && Rewritten(ch, r, s'.right, met + CountStmt(l), known)
    case Block(ss) => s'.Block? && AllRewritten(ch, ss, s'.stmts, met, known)
  }

  predicate AllRewritten(ch: Choice, ss: seq<Stmt>, ss': seq<Stmt>, met: nat, known: set<Name>)
    decreases ss
  {
    |ss'| == |ss| && (ss == [] ||
      (Rewritten(ch, ss[0], ss'[0], met, known) && AllRewritten(ch, ss[1..], ss'[1..], met + CountStmt(ss[0]), known)))
  }

  lemma {:induction false} CutAnywhere(ds: Defs, ch: Choice, e': Expr, e: Expr, ix: Index, ps: seq<Path>, m: nat,
      n: nat)
    requires AllCut(ds, ch, e', e, ix, ps, m) && (ch.Chosen? ==> m == n)
    ensures AllCut(ds, ch, e', e, ix, ps, n)
  {
    forall k | 0 <= k < |ps| ensures Cut(ds, ch, e', e, ix, ps[k], Number(ch, n, k)) {
      assert Number(ch, n, k) == Number(ch, m, k);
    }
  }

  lemma StoreIsRewritten(ch: Choice, t: Name, v: Expr, ix: Index, st: State, met: nat, known: set<Name>)
    requires Loads(v) <= st.shapes.Keys && known <= st.shapes.Keys && (ch.Chosen? ==> met == st.met)
    ensures StoreRewritten(ch, Store(t, v, ix), DecomposeStmt(ch, Store(t, v, ix), st).stmt, met, known)
  {
    var dest := ShapeIn(st.shapes, t);
    var r := Decompose(ch, v, ix, dest, true, st);
    ExpressionFills(ch, v, ix, dest, true, st);
    ExprAdvances(ch, v, ix, dest, true, st);
    PreludeDefs(r.prelude, st, r.state, v);
    ExpressionRestored(DefsOf(r.prelude), ch, v, ix, dest, true, st);
    ExpressionCut(DefsOf(r.prelude), ch, v, ix, dest, st);
    CutAnywhere(DefsOf(r.prelude), ch, r.expr, v, ix, Candidates(v), st.met, met);
    var s' := DecomposeStmt(ch, Store(t, v, ix), st).stmt;
    if r.prelude != [] {
      assert s'.stmts[..|s'.stmts| - 1] == r.prelude;
    }
    assert Prelude(s') == r.prelude && Main(s') == Store(t, r.expr, ix);
  }

  /** How far the counting has come. */
  predicate Reached(ch: Choice, st: State, met: nat) { ch.Chosen? ==> met == st.met }

  lemma {:induction false} StatementRewritten(ch: Choice, s: Stmt, st: State, met: nat, known: set<Name>)
    requires StmtLoads(s) <= known <= st.shapes.Keys && Reached(ch, st, met)
    ensures Rewritten(ch, s, DecomposeStmt(ch, s, st).stmt, met, known)
    ensures known <= DecomposeStmt(ch, s, st).state.shapes.Keys &&
      Reached(ch, DecomposeStmt(ch, s, st).state, met + CountStmt(s))
    decreases s
  {
    StmtAdvances(ch, s, st);
    match s
    case Store(t, v, ix) => StoreIsRewritten(ch, t, v, ix, st, met, known);
    case Loop(_, _, _, _, b) => StatementRewritten(ch, b, st, met, known);
    case Seq(l, r) =>
      StatementRewritten(ch, l, st, met, known);
      StatementRewritten(ch, r, DecomposeStmt(ch, l, st).state, met + CountStmt(l), known);
    case Block(ss) => StatementsRewritten(ch, ss, st, met, known);
  }

  lemma {:induction false} StatementsRewritten(ch: Choice, ss: seq<Stmt>, st: State, met: nat, known: set<Name>)
    requires StmtLoads(Block(ss)) <= known <= st.shapes.Keys && Reached(ch, st, met)
    ensures AllRewritten(ch, ss, DecomposeStmts(ch, ss, st).stmts, met, known)
    decreases ss
  {
    if ss != [] {
      var a := DecomposeStmt(ch, ss[0], st);
      assert StmtLoads(ss[0]) <= StmtLoads(Block(ss)) && StmtLoads(Block(ss[1..])) <= StmtLoads(Block(ss));
      StatementRewritten(ch, ss[0], st, met, known);
      StatementsRewritten(ch, ss[1..], a.state, met + CountStmt(ss[0]), known);
      assert DecomposeStmts(ch, ss, st).stmts[1..] == DecomposeStmts(ch, ss[1..], a.state).stmts;
    }
  }

  /** The whole pass, for every ratio: store by store, putting the temporaries back gives the program as it was, and
      the temporaries are exactly the chosen candidates. */
  lemma DecomposedIff(root: Stmt, shapes: map<Name, Dims>, ratio: real)
    requires StmtLoads(root) <= shapes.Keys
    ensures Rewritten(ChoiceFor(CountStmt(root), Clamped(ratio)), root, Decomposed(root, shapes, ratio).stmt, 0,
      shapes.Keys)
  {
    StatementRewritten(ChoiceFor(CountStmt(root), Clamped(ratio)), root, State(0, shapes, [], 0), 0, shapes.Keys);
  }

  // ---------------------------------------------------------------------------------------------
  // The choice

  /** The nearest integer, and of two equally near ones the even one. */
  predicate Nearest(x: real, n: int) {
    -0.5 <= x - n as real <= 0.5 && (x - n as real == 0.5 || x - n as real == -0.5 ==> n % 2 == 0)
  }

  lemma RoundedIff(x: real, n: int)
    ensures Rounded(x) == n <==> Nearest(x, n)
  {
    var f := x.Floor;
    assert f as real <= x < f as real + 1.0;
    assert Nearest(x, Rounded(x));
    if Nearest(x, n) {
      assert n as real <= x + 0.5 && x - 0.5 <= n as real;
      assert n == f || n == f + 1;
    }
  }

  /** Candidate number i lies in the middle of the k-th of `target` equal parts. */
  predicate InMiddle(i: int, k: nat, total: nat, target: nat) {
    2 * target * i <= (2 * k + 1) * total < 2 * target * (i + 1)
  }

  lemma PlaceIff(i: int, k: nat, total: nat, target: nat)
    requires target > 0
    ensures Place(k, total, target) == i <==> InMiddle(i, k, total, target)
  {
    var step := total as real / target as real;
    var x := k as real * step + step / 2.0;
    assert step * target as real == total as real;
    assert 2.0 * target as real * x == (2 * k + 1) as real * total as real by {
      assert x == (k as real + 0.5) * step;
      assert 2.0 * target as real * x == (2.0 * k as real + 1.0) * (step * target as real);
      assert (2 * k + 1) as real == 2.0 * k as real + 1.0;
    }
    FloorIff(x, i, 2 * target, (2 * k + 1) * total);
  }

  lemma FloorIff(x: real, i: int, d: nat, m: int)
    requires d > 0 && d as real * x == m as real
    ensures x.Floor == i <==> d * i <= m < d * (i + 1)
  {
    AtMostIff(x, i, d, m);
    AtMostIff(x, i + 1, d, m);
    assert (i + 1) as real == i as real + 1.0;
  }

  lemma AtMostIff(x: real, i: int, d: nat, m: int)
    requires d > 0 && d as real * x == m as real
    ensures d * i <= m <==> i as real <= x
  {
    ProductReal(d, i);
    Scaled(d as real, x, i as real);
  }

  lemma ProductReal(d: int, i: int)
    ensures (d * i) as real == d as real * i as real
  {
  }

  lemma Scaled(d: real, x: real, y: real)
    requires d > 0.0
    ensures d * y <= d * x <==> y <= x
  {
    if y <= x { assert d * (x - y) >= 0.0; } else { assert d * (y - x) > 0.0; }
  }

  lemma {:induction false} PlacesAre(i: int, k: nat, total: nat, target: nat)
    requires target > 0
    ensures i in PlacesUpTo(k, total, target) <==> exists j: nat :: j < k && InMiddle(i, j, total, target)
  {
    if k > 0 {
      PlacesAre(i, k - 1, total, target);
      PlaceIff(i, k - 1, total, target);
      if j: nat :| j < k && InMiddle(i, j, total, target) { assert j < k - 1 || j == k - 1; }
      if i in PlacesUpTo(k, total, target) && i !in PlacesUpTo(k - 1, total, target) {
        assert InMiddle(i, k - 1, total, target);
      }
    }
  }

  /** Candidate number i of the program becomes a temporary exactly when the ratio is at least 1, or it lies in the
      middle of one of as many equal parts as the ratio of the total, rounded, says. */
  lemma ChosenIff(total: nat, ratio: real, share: real, i: nat, target: nat)
    requires i < total && 0.0 <= ratio && share == total as real * ratio && Nearest(share, target)
    ensures Chosen(ChoiceFor(total, Clamped(ratio)), i) <==>
      ratio >= 1.0 || (ratio > 0.0 && exists k: nat :: k < target && InMiddle(i, k, total, target))
  {
    if 0.0 < ratio < 1.0 {
      ShareAtMost(total as real, ratio, share);
      RoundedBelow(share, total, target);
      CountFrom(total, ratio, share, target);
      if target > 0 { PlacesAre(i, target, total, target); }
    }
  }

  lemma CountFrom(total: nat, ratio: real, share: real, target: nat)
    requires share == total as real * ratio && Rounded(share) == target && target <= total
    ensures TargetCount(total, ratio) == target
  {
  }

  lemma RoundedBelow(share: real, total: nat, target: nat)
    requires share <= total as real && Nearest(share, target)
    ensures Rounded(share) == target && target <= total
  {
    RoundedIff(share, target);
    assert target > total ==> target as real >= total as real + 1.0;
  }

  lemma ShareAtMost(t: real, r: real, share: real)
    requires t >= 0.0 && r <= 1.0 && share == t * r
    ensures share <= t
  {
    assert t * (1.0 - r) >= 0.0;
    assert t * (1.0 - r) == t - share;
  }

  // ---------------------------------------------------------------------------------------------
  // The index below an operator, beside the shape above it

  /** Coordinate k stands in dimension ds[k] below. */
  lemma PermutedIndex(ix: Index, ds: seq<int>, k: nat)
    requires |ix| == |ds| && IsPermutation(ds) && k < |ds|
    ensures 0 <= ds[k] < |PermuteInverse(ix, ds)| && PermuteInverse(ix, ds)[ds[k]] == ix[k]
  {
    assert ds[k] in ds;
    PositionHolds(ds[k], ds);
    if PositionOf(ds[k], ds) != k { PermutationDistinct(ds, PositionOf(ds[k], ds), k); }
  }

  /** The extent of dimension ds[k] is extent k above. */
  lemma PermutedShape(dims: Dims, ds: seq<int>, k: nat)
    requires |dims| == |ds| && IsPermutation(ds) && k < |ds|
    ensures 0 <= ds[k] < |dims| && |PickAxes(dims, ds)| == |dims| && PickAxes(dims, ds)[k] == dims[ds[k]]
  {
    forall i | 0 <= i < |ds| ensures 0 <= ds[i] < |dims| && Position(dims, ds[i]) == ds[i] { assert ds[i] in ds; }
    assert ds[k] in ds && Position(dims, ds[k]) == ds[k];
  }

  lemma {:induction false} PositionHolds(v: int, ds: seq<int>)
    requires v in ds
    ensures ds[PositionOf(v, ds)] == v
  {
    if ds[0] != v { PositionHolds(v, ds[1..]); }
  }

  function UpTo(n: nat): set<int> { if n == 0 then {} else UpTo(n - 1) + {n - 1} }

  function Held(xs: seq<int>): set<int> { if xs == [] then {} else {xs[0]} + Held(xs[1..]) }

  lemma {:induction false} UpToFacts(n: nat)
    ensures |UpTo(n)| == n && forall v :: v in UpTo(n) <==> 0 <= v < n
  {
    if n > 0 { UpToFacts(n - 1); }
  }

  lemma {:induction false} HeldFacts(xs: seq<int>)
    ensures |Held(xs)| <= |xs| && forall v :: v in Held(xs) <==> v in xs
  {
    if xs != [] {
      HeldFacts(xs[1..]);
      assert forall v :: v in xs <==> v == xs[0] || v in xs[1..];
    }
  }

  /** A list of n numbers that holds all of 0 to n - 1 repeats none. */
  lemma PermutationDistinct(ds: seq<int>, j: nat, k: nat)
    requires IsPermutation(ds) && j < |ds| && k < |ds| && j != k
    ensures ds[j] != ds[k]
  {
    if ds[j] == ds[k] {
      var rest := ds[..k] + ds[k + 1..];
      forall v | 0 <= v < |ds| ensures v in rest {
        assert v in ds;
        var i :| 0 <= i < |ds| && ds[i] == v;
        var i' := if i == k then j else i;
        assert ds[i'] == v && rest[if i' < k then i' else i' - 1] == v;
      }
      UpToFacts(|ds|);
      HeldFacts(rest);
      forall v | v in UpTo(|ds|) ensures v in Held(rest) { assert v in rest; }
      SubsetCardinality(UpTo(|ds|), Held(rest));
    }
  }

  lemma Without<T>(s: seq<T>, a: nat, k: nat)
    requires a < |s| && k < |s| - 1
    ensures |s[..a] + s[a + 1..]| == |s| - 1 && (s[..a] + s[a + 1..])[k] == s[if k < a then k else k + 1]
  {
  }

  lemma With<T>(s: seq<T>, a: nat, x: T, k: nat)
    requires a <= |s| && k < |s|
    ensures |s[..a] + [x] + s[a..]| == |s| + 1 && (s[..a] + [x] + s[a..])[a] == x
    ensures (s[..a] + [x] + s[a..])[if k < a then k else k + 1] == s[k]
  {
  }

  function Skip(k: nat, a: int): nat { if k < a then k else k + 1 }

  /** Below an unsqueeze the coordinate of the new axis is gone, and its extent is 1 above. */
  lemma UnsqueezedIff(ix: Index, dims: Dims, axis: int, k: nat)
    requires |ix| == |dims| + 1 && -|ix| <= axis < |ix| && k < |dims|
    ensures var a := if axis < 0 then axis + |ix| else axis;
      && |DropAxis(ix, axis)| == |dims| && DropAxis(ix, axis)[k] == ix[Skip(k, a)]
      && |InsertUnit(dims, axis)| == |ix| && InsertUnit(dims, axis)[Skip(k, a)] == dims[k]
      && InsertUnit(dims, axis)[a] == 1
  {
    var a := if axis < 0 then axis + |ix| else axis;
    Without(ix, a, k);
    With(dims, a, 1, k);
  }

  /** Below a squeeze the dropped axis is loaded whole. */
  lemma SqueezedIff(ix: Index, dims: Dims, axis: int, k: nat)
    requires |dims| == |ix| + 1 && -|dims| <= axis < |dims| && k < |ix|
    ensures var a := if axis < 0 then axis + |dims| else axis;
      && |InsertFullTile(ix, axis)| == |dims| && InsertFullTile(ix, axis)[Skip(k, a)] == ix[k]
      && InsertFullTile(ix, axis)[a] == FullTile
      && |DropExtent(dims, axis)| == |ix| && DropExtent(dims, axis)[k] == dims[Skip(k, a)]
  {
    var a := if axis < 0 then axis + |dims| else axis;
    With(ix, a, FullTile, k);
    Without(dims, a, k);
  }
}
