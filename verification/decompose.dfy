/** Splitting expressions into temporaries (frontend/utils/ir_utils.py, decompose_operations). */
module Decomposition {
  import opened Ast
  import opened Text
  import opened Machines
  import opened Reordering
  import opened Elements
  import opened Inlining

  // ---------------------------------------------------------------------------------------------
  // Candidates and their selection

  predicate IsCandidate(op: Oper) {
    op.Add? || op.Sub? || op.Mul? || op.Div? || op.Exp? || op.Sqr? || op.Sqrt? || op.Sigmoid? || op.Matmul?
  }

  predicate IsReduce(op: Oper) { op.ReduceSum? || op.ReduceMax? || op.ReduceMin? }

  /** How many operands the pass goes into. */
  function Visited(op: Oper, args: seq<Expr>): nat {
    if op.Max? || op.Min? then 0 else if op == GenericCall("transpose") then 1 else |args|
  }

  function CountExpr(e: Expr, allow: bool): nat
    decreases e, 1
  {
    match e
    case Op(op, args) =>
      if !allow then 0
      else (if IsCandidate(op) then 1 else 0) + CountArgs(args, Visited(op, args), !IsReduce(op))
    case _ => 0
  }

  function CountArgs(args: seq<Expr>, n: nat, allow: bool): nat
    decreases args, 0
  {
    if n == 0 || args == [] then 0 else CountExpr(args[0], allow) + CountArgs(args[1..], n - 1, allow)
  }

  function CountStmt(s: Stmt): nat
    decreases s
  {
    match s
    case Store(_, v, _) => CountExpr(v, true)
    case Loop(_, _, _, _, b) => CountStmt(b)
    case Seq(l, r) => CountStmt(l) + CountStmt(r)
    case Block(ss) => CountStmts(ss)
  }

  function CountStmts(ss: seq<Stmt>): nat
    decreases ss
  {
    if ss == [] then 0 else CountStmt(ss[0]) + CountStmts(ss[1..])
  }

  /** Rounding to the nearest integer, halves to even. */
  function Rounded(x: real): int {
    var f := x.Floor;
    var d := x - f as real;
    if d < 0.5 || (d == 0.5 && f % 2 == 0) then f else f + 1
  }

  function TargetCount(total: nat, ratio: real): (t: nat)
    ensures t <= total
  {
    var t := Rounded(total as real * ratio);
    if t < 0 then 0 else if t > total then total else t
  }

  /** The k-th of `target` places spread evenly over `total` candidates. */
  function Place(k: nat, total: nat, target: nat): int
    requires target > 0
  {
    var step := total as real / target as real;
    (k as real * step + step / 2.0).Floor
  }

  /** Places come strictly one after the other and stay below the total. */
  lemma PlacesIncrease(total: nat, target: nat, j: nat, k: nat)
    requires 0 < target <= total && j < k < target
    ensures 0 <= Place(j, total, target) < Place(k, total, target) < total
    decreases k
  {
    var step := total as real / target as real;
    assert step * target as real == total as real;
    assert step >= 1.0;
    PlaceBelow(k, total, target);
    PlaceBelow(j, total, target);
    var x, y := j as real * step + step / 2.0, k as real * step + step / 2.0;
    assert y - x == (k - j) as real * step;
    assert (k - j) as real >= 1.0;
    AtLeast((k - j) as real, step);
    assert y >= x + 1.0;
  }

  lemma AtLeast(a: real, b: real)
    requires a >= 1.0 && b >= 1.0
    ensures a * b >= b
  {
    assert (a - 1.0) * b >= 0.0;
  }

  lemma PlaceBelow(k: nat, total: nat, target: nat)
    requires 0 < target <= total && k < target
    ensures 0 <= Place(k, total, target) < total
  {
    var step := total as real / target as real;
    assert step * target as real == total as real;
    var x := k as real * step + step / 2.0;
    var rest := (target - 1 - k) as real;
    assert rest >= 0.0 && step > 0.0;
    assert rest * step >= 0.0;
    assert x + step / 2.0 + rest * step == (k as real + 1.0 + rest) * step;
    assert k as real + 1.0 + rest == target as real;
    assert k as real * step >= 0.0;
  }

  ghost predicate Chooses(selected: set<int>, total: nat, target: nat) {
    |selected| == target && forall i :: i in selected ==> 0 <= i < total
  }

  function PlacesUpTo(k: nat, total: nat, target: nat): set<int>
    requires target > 0
  {
    if k == 0 then {} else PlacesUpTo(k - 1, total, target) + {Place(k - 1, total, target)}
  }

  /** The places are as many as asked for, and each is free when its turn comes. */
  lemma {:induction false} PlacesDistinct(k: nat, total: nat, target: nat)
    requires 0 < target <= total && k <= target
    ensures Chooses(PlacesUpTo(k, total, target), total, k)
    ensures forall i :: i in PlacesUpTo(k, total, target) && k < target ==> i < Place(k, total, target)
  {
    if k > 0 {
      PlacesDistinct(k - 1, total, target);
      PlaceBelow(k - 1, total, target);
      if k < target { PlacesIncrease(total, target, k - 1, k); }
    }
  }

  method NextFree(start: int, selected: set<int>, total: nat) returns (idx: int)
    requires start < total
    ensures start <= idx < total && (forall i :: start <= i < idx ==> i in selected)
    ensures idx in selected ==> idx == total - 1
  {
    idx := start;
    while idx in selected && idx + 1 < total
      invariant start <= idx < total && forall i :: start <= i < idx ==> i in selected
      decreases total - idx
    {
      idx := idx + 1;
    }
  }

  /** The selection loop; its clamping and its search for a free index never act. */
  method SelectPlaces(total: nat, target: nat) returns (selected: set<int>)
    requires 0 < target <= total
    ensures selected == PlacesUpTo(target, total, target) && Chooses(selected, total, target)
  {
    selected := {};
    for k := 0 to target
      invariant selected == PlacesUpTo(k, total, target)
    {
      PlaceBelow(k, total, target);
      PlacesDistinct(k, total, target);
      var idx := Place(k, total, target);
      assert idx !in selected;
      if idx >= total { idx := total - 1; }
      idx := NextFree(idx, selected, total);
      assert idx == Place(k, total, target);
      selected := selected + {idx};
    }
    PlacesDistinct(target, total, target);
  }

  // ---------------------------------------------------------------------------------------------
  // Where a temporary is stored

  function DropAxis(ix: Index, axis: int): Index {
    var a := if axis < 0 then axis + |ix| else axis;
    if 0 <= a < |ix| then ix[..a] + ix[a + 1..] else ix
  }

  function InsertFullTile(ix: Index, axis: int): Index {
    var a := if axis < 0 then axis + |ix| + 1 else axis;
    var at := if a < 0 then 0 else if a > |ix| then |ix| else a;
    ix[..at] + [FullTile] + ix[at..]
  }

  predicate IsPermutation(ds: seq<int>) {
    (forall v :: 0 <= v < |ds| ==> v in ds) && forall d :: d in ds ==> 0 <= d < |ds|
  }

  function PositionOf(v: int, ds: seq<int>): nat
    requires v in ds
    ensures PositionOf(v, ds) < |ds|
  {
    if ds[0] == v then 0 else 1 + PositionOf(v, ds[1..])
  }

  /** The index seen through a permutation of its axes. */
  function PermuteInverse(ix: Index, ds: seq<int>): Index {
    if |ix| == |ds| && IsPermutation(ds) then
      seq(|ix|, v requires 0 <= v < |ix| => ix[PositionOf(v, ds)])
    else ix
  }

  predicate IsIntText(s: string) {
    var digits := if s != [] && s[0] == '-' then s[1..] else s;
    digits != [] && forall c :: c in digits ==> '0' <= c <= '9'
  }

  function IntOf(e: Expr): int {
    if e.Const? && e.text != [] && e.text[0] == '-' then -NatValue(e.text[1..]) else if e.Const? then NatValue(e.text)
      else 0
  }

  function TransposeIndex(args: seq<Expr>, ix: Index): Index {
    var perm := if args == [] then [] else args[1..];
    if perm != [] && forall a :: a in perm ==> a.Const? && IsIntText(a.text) then
      var ds := seq(|perm|, k requires 0 <= k < |perm| => IntOf(perm[k]));
      if |ds| == 2 || |ds| == 3 then PermuteInverse(ix, ds) else ix
    else PermuteInverse(ix, [1, 0])
  }

  function ChildIndex(op: Oper, args: seq<Expr>, ix: Index): Index {
    match op
    case Unsqueeze(axis) => DropAxis(ix, axis)
    case Squeeze(axis) => InsertFullTile(ix, axis)
    case Permute3(d0, d1, d2) => PermuteInverse(ix, [d0, d1, d2])
    case GenericCall(func) => if func == "transpose" then TransposeIndex(args, ix) else ix
    case _ => ix
  }

  // ---------------------------------------------------------------------------------------------
  // The shape a temporary gets

  /** A position as list indexing takes it: negative ones count from the end. */
  function Position(dims: Dims, i: int): int { if i < 0 then i + |dims| else i }

  /** The extents at the given positions; the shape itself if one is out of range. */
  function PickAxes(dims: Dims, ds: seq<int>): Dims {
    if forall k :: 0 <= k < |ds| ==> 0 <= Position(dims, ds[k]) < |dims| then
      seq(|ds|, k requires 0 <= k < |ds| => dims[Position(dims, ds[k])])
    else dims
  }

  function DropExtent(dims: Dims, axis: int): Dims {
    var a := if axis < 0 then axis + |dims| else axis;
    if 0 <= a < |dims| then dims[..a] + dims[a + 1..] else dims
  }

  function InsertUnit(dims: Dims, axis: int): Dims {
    var a := if axis < 0 then axis + |dims| + 1 else axis;
    var at := if a < 0 then 0 else if a > |dims| then |dims| else a;
    dims[..at] + [1] + dims[at..]
  }

  function TransposeShape(args: seq<Expr>, base: Dims): Dims {
    var perm := if args == [] then [] else args[1..];
    if perm != [] && forall a :: a in perm ==> a.Const? && IsIntText(a.text) then
      PickAxes(base, seq(|perm|, k requires 0 <= k < |perm| => IntOf(perm[k])))
    else if |base| == 2 then [base[1], base[0]]
    else base
  }

  predicate IsArithmetic(op: Oper) {
    op.Add? || op.Sub? || op.Mul? || op.Div? || op.Matmul? || op.GenericBinary?
  }

  /** The shape of an operator from those of its operands. */
  function ShapeOf(op: Oper, args: seq<Expr>, below: seq<Dims>, fallback: Dims): Dims {
    var base := if below == [] then fallback else below[0];
    match op
    case Exp => base
    case Sqr => base
    case Sqrt => base
    case Sigmoid => base
    case Cast(_) => base
    case Unsqueeze(axis) => InsertUnit(base, axis)
    case Squeeze(axis) => DropExtent(base, axis)
    case Permute3(d0, d1, d2) => if |base| == 3 then PickAxes(base, [d0, d1, d2]) else base
    case GenericCall(func) => if func == "transpose" then TransposeShape(args, base) else fallback
    case _ => if IsArithmetic(op) && |below| == 2 && below[0] == below[1] && below[0] != [] then below[0] else fallback
  }

  /** `_infer_shape`: the shape of an expression, or the destination's where none is known. */
  function InferShape(e: Expr, shapes: map<Name, Dims>, fallback: Dims): Dims {
    match e
    case Load(t, _) => if t in shapes && shapes[t] != [] then shapes[t] else fallback
    case Const(_) => fallback
    case Arange(_) => fallback
    case Op(op, args) =>
      ShapeOf(op, args, seq(|args|, k requires 0 <= k < |args| => InferShape(args[k], shapes, fallback)), fallback)
  }

  // ---------------------------------------------------------------------------------------------
  // The rewriting

  function Tmp(n: nat): Name { "tmp_" + NatText(n) }

  lemma TmpInjective(m: nat, n: nat)
    requires Tmp(m) == Tmp(n)
    ensures m == n
  {
    assert Tmp(m)[4..] == NatText(m) && Tmp(n)[4..] == NatText(n);
    NatTextInjective(m, n);
  }

  /** Which candidates become temporaries. */
  datatype Choice = Never | Always | Chosen(places: set<int>)

  /** What the rewriting updates: the name counter, the shapes of the tensors (whose names are those in
      use), the temporaries made, and the number of candidates met. */
  datatype State = State(counter: nat, shapes: map<Name, Dims>, temps: seq<Name>, met: nat)
  {
    function Used(): set<Name> { shapes.Keys }
  }

  /** The names the counter can still run into. */
  ghost function Ahead(counter: nat, used: set<Name>): set<Name> {
    set n | n in used && exists k: nat :: k > counter && n == Tmp(k)
  }

  lemma AheadShrinks(counter: nat, used: set<Name>)
    requires Tmp(counter + 1) in used
    ensures |Ahead(counter + 1, used)| < |Ahead(counter, used)|
  {
    var less, more := Ahead(counter + 1, used), Ahead(counter, used);
    var t := Tmp(counter + 1);
    assert t in more;
    if t in less {
      var k: nat :| k > counter + 1 && t == Tmp(k);
      TmpInjective(k, counter + 1);
    }
    assert less <= more - {t};
    SubsetCardinality(less, more - {t});
  }

  lemma SubsetCardinality<T>(a: set<T>, b: set<T>)
    requires a <= b
    ensures |a| <= |b|
  {
    assert b == a + (b - a);
  }

  /** The first number after the counter whose temporary is not in use. */
  function FreshNumber(counter: nat, used: set<Name>): (n: nat)
    ensures n > counter && Tmp(n) !in used
    decreases |Ahead(counter, used)|
  {
    if Tmp(counter + 1) !in used then counter + 1
    else
      AheadShrinks(counter, used);
      FreshNumber(counter + 1, used)
  }

  function AddTemp(st: State, shape: Dims): State {
    var n := FreshNumber(st.counter, st.Used());
    State(n, st.shapes[Tmp(n) := shape], st.temps + [Tmp(n)], st.met)
  }

  predicate Takes(ch: Choice, st: State) {
    match ch
    case Never => false
    case Always => true
    case Chosen(places) => st.met in places
  }

  /** Candidates are only numbered when some are chosen. */
  function Meet(ch: Choice, st: State): State {
    if ch.Chosen? then st.(met := st.met + 1) else st
  }

  datatype Done = Done(expr: Expr, prelude: seq<Stmt>, state: State)
  datatype DoneAll = DoneAll(exprs: seq<Expr>, prelude: seq<Stmt>, state: State)

  function Decompose(ch: Choice, e: Expr, ix: Index, dest: Dims, allow: bool, st: State): Done
    decreases e, 1
  {
    match e
    case Op(op, args) =>
      if allow && IsCandidate(op) then
        var r := DecomposeArgs(ch, args, |args|, ix, dest, true, Meet(ch, st));
        if Takes(ch, st) then
          var st' := AddTemp(r.state, InferShape(Op(op, r.exprs), r.state.shapes, dest));
          var t := Tmp(st'.counter);
          Done(Load(t, ix), r.prelude + [Store(t, Op(op, r.exprs), ix)], st')
        else Done(Op(op, r.exprs), r.prelude, r.state)
      else
        var r := DecomposeArgs(ch, args, Visited(op, args), ChildIndex(op, args, ix), dest, allow && !IsReduce(op), st);
        Done(Op(op, r.exprs), if IsReduce(op) then [] else r.prelude, r.state)
    case _ => Done(e, [], st)
  }

  /** The first n operands, left to right; the others stay. */
  function DecomposeArgs(ch: Choice, args: seq<Expr>, n: nat, ix: Index, dest: Dims, allow: bool,
      st: State): (r: DoneAll)
    ensures |r.exprs| == |args|
    decreases args, 0
  {
    if n == 0 || args == [] then DoneAll(args, [], st)
    else
      var first := Decompose(ch, args[0], ix, dest, allow, st);
      var rest := DecomposeArgs(ch, args[1..], n - 1, ix, dest, allow, first.state);
      DoneAll([first.expr] + rest.exprs, first.prelude + rest.prelude, rest.state)
  }

  function ShapeIn(shapes: map<Name, Dims>, t: Name): Dims { if t in shapes then shapes[t] else [] }

  datatype DoneStmt = DoneStmt(stmt: Stmt, state: State)
  datatype DoneStmts = DoneStmts(stmts: seq<Stmt>, state: State)

  function DecomposeStmt(ch: Choice, s: Stmt, st: State): DoneStmt
    decreases s
  {
    match s
    case Store(t, v, ix) =>
      var r := Decompose(ch, v, ix, ShapeIn(st.shapes, t), true, st);
      DoneStmt(if r.prelude == [] then Store(t, r.expr, ix) else Block(r.prelude + [Store(t, r.expr, ix)]), r.state)
    case Loop(lo, hi, tile, x, b) =>
      var r := DecomposeStmt(ch, b, st);
      DoneStmt(Loop(lo, hi, tile, x, r.stmt), r.state)
    case Seq(l, r) =>
      var a := DecomposeStmt(ch, l, st);
      var b := DecomposeStmt(ch, r, a.state);
      DoneStmt(Seq(a.stmt, b.stmt), b.state)
    case Block(ss) =>
      var r := DecomposeStmts(ch, ss, st);
      DoneStmt(Block(r.stmts), r.state)
  }

  function DecomposeStmts(ch: Choice, ss: seq<Stmt>, st: State): DoneStmts
    decreases ss
  {
    if ss == [] then DoneStmts([], st)
    else
      var a := DecomposeStmt(ch, ss[0], st);
      var b := DecomposeStmts(ch, ss[1..], a.state);
      DoneStmts([a.stmt] + b.stmts, b.state)
  }

  // ---------------------------------------------------------------------------------------------
  // The pass as it runs

  function Joined(exprs: seq<Expr>, prelude: seq<Stmt>, rest: DoneAll): DoneAll {
    DoneAll(exprs + rest.exprs, prelude + rest.prelude, rest.state)
  }

  /** What the operands from the k-th on still give. */
  function Remaining(ch: Choice, args: seq<Expr>, k: nat, n: nat, ix: Index, dest: Dims, allow: bool,
      st: State): DoneAll
    requires k <= n && k <= |args|
  {
    DecomposeArgs(ch, args[k..], n - k, ix, dest, allow, st)
  }

  lemma JoinedStep(ch: Choice, exprs: seq<Expr>, prelude: seq<Stmt>, args: seq<Expr>, k: nat, n: nat, ix: Index,
      dest: Dims, allow: bool, st: State, one: Done)
    requires k < n && k < |args| && one == Decompose(ch, args[k], ix, dest, allow, st)
    ensures Joined(exprs, prelude, Remaining(ch, args, k, n, ix, dest, allow, st)) ==
            Joined(exprs + [one.expr], prelude + one.prelude, Remaining(ch, args, k + 1, n, ix, dest, allow, one.state))
  {
    assert args[k..][0] == args[k] && args[k..][1..] == args[k + 1..];
    var rest := DecomposeArgs(ch, args[k + 1..], n - (k + 1), ix, dest, allow, one.state);
    assert exprs + ([one.expr] + rest.exprs) == exprs + [one.expr] + rest.exprs;
    assert prelude + (one.prelude + rest.prelude) == prelude + one.prelude + rest.prelude;
  }

  lemma JoinedEnd(ch: Choice, exprs: seq<Expr>, prelude: seq<Stmt>, rest: seq<Expr>, n: nat, ix: Index, dest: Dims,
      allow: bool, st: State)
    requires n == 0 || rest == []
    ensures Joined(exprs, prelude, DecomposeArgs(ch, rest, n, ix, dest, allow, st)) ==
      DoneAll(exprs + rest, prelude, st)
  {
    assert prelude + [] == prelude;
  }

  function Appended(done: seq<Stmt>, rest: DoneStmts): DoneStmts { DoneStmts(done + rest.stmts, rest.state) }

  lemma AppendedStep(ch: Choice, done: seq<Stmt>, ss: seq<Stmt>, k: nat, st: State)
    requires k < |ss|
    ensures var one := DecomposeStmt(ch, ss[k], st);
            Appended(done, DecomposeStmts(ch, ss[k..], st)) ==
              Appended(done + [one.stmt], DecomposeStmts(ch, ss[k + 1..], one.state))
  {
    assert ss[k..][0] == ss[k] && ss[k..][1..] == ss[k + 1..];
    var one := DecomposeStmt(ch, ss[k], st);
    var rest := DecomposeStmts(ch, ss[k + 1..], one.state);
    assert done + ([one.stmt] + rest.stmts) == done + [one.stmt] + rest.stmts;
  }

  class Decomposer {
    const choice: Choice
    var counter: nat
    var shapes: map<Name, Dims>
    var temps: seq<Name>
    var met: nat

    function Now(): State reads this { State(counter, shapes, temps, met) }

    constructor (choice: Choice, shapes: map<Name, Dims>)
      ensures this.choice == choice && Now() == State(0, shapes, [], 0)
    {
      this.choice, counter, this.shapes, temps, met := choice, 0, shapes, [], 0;
    }

    method FreshTemp(shape: Dims) returns (name: Name)
      modifies this
      ensures Now() == AddTemp(old(Now()), shape) && name == Tmp(counter)
    {
      counter := counter + 1;
      ghost var used := shapes.Keys;
      ghost var goal := FreshNumber(old(counter), used);
      AheadFacts(old(counter), used);
      while Tmp(counter) in shapes
        invariant counter > 0 && shapes == old(shapes) && temps == old(temps) && met == old(met)
        invariant FreshNumber(counter - 1, used) == goal
        decreases |Ahead(counter - 1, used)|
      {
        AheadShrinks(counter - 1, used);
        counter := counter + 1;
      }
      name := Tmp(counter);
      shapes := shapes[name := shape];
      temps := temps + [name];
    }

    method ShouldTake() returns (take: bool)
      modifies this`met
      ensures take == Takes(choice, old(Now())) && Now() == Meet(choice, old(Now()))
    {
      match choice {
        case Never => return false;
        case Always => return true;
        case Chosen(places) =>
          take := met in places;
          met := met + 1;
      }
    }

    method Expression(e: Expr, ix: Index, dest: Dims, allow: bool) returns (expr: Expr, prelude: seq<Stmt>)
      modifies this
      ensures Done(expr, prelude, Now()) == Decompose(choice, e, ix, dest, allow, old(Now()))
      decreases e, 1
    {
      if !e.Op? { return e, []; }
      if allow && IsCandidate(e.op) {
        var take := ShouldTake();
        var exprs, before := Operands(e.args, |e.args|, ix, dest, true);
        if take {
          var t := FreshTemp(InferShape(Op(e.op, exprs), shapes, dest));
          return Load(t, ix), before + [Store(t, Op(e.op, exprs), ix)];
        }
        return Op(e.op, exprs), before;
      }
      var exprs, before := Operands(e.args, Visited(e.op, e.args), ChildIndex(e.op, e.args, ix), dest,
        allow && !IsReduce(e.op));
      expr := Op(e.op, exprs);
      prelude := if IsReduce(e.op) then [] else before;
    }

    method Operands(args: seq<Expr>, n: nat, ix: Index, dest: Dims, allow: bool)
        returns (exprs: seq<Expr>, prelude: seq<Stmt>)
      modifies this
      ensures DoneAll(exprs, prelude, Now()) == DecomposeArgs(choice, args, n, ix, dest, allow, old(Now()))
      decreases args, 0
    {
      exprs, prelude := [], [];
      var k := 0;
      ghost var all := DecomposeArgs(choice, args, n, ix, dest, allow, Now());
      assert args[0..] == args && [] + all.exprs == all.exprs && [] + all.prelude == all.prelude;
      while k < n && k < |args|
        invariant k <= n && k <= |args|
        invariant all == Joined(exprs, prelude, Remaining(choice, args, k, n, ix, dest, allow, Now()))
      {
        ghost var st := Now();
        var expr, before := Expression(args[k], ix, dest, allow);
        JoinedStep(choice, exprs, prelude, args, k, n, ix, dest, allow, st, Done(expr, before, Now()));
        exprs, prelude := exprs + [expr], prelude + before;
        k := k + 1;
      }
      JoinedEnd(choice, exprs, prelude, args[k..], n - k, ix, dest, allow, Now());
      exprs := exprs + args[k..];
    }

    method Statement(s: Stmt) returns (stmt: Stmt)
      modifies this
      ensures DoneStmt(stmt, Now()) == DecomposeStmt(choice, s, old(Now()))
      decreases s
    {
      match s {
        case Store(t, v, ix) =>
          var expr, prelude := Expression(v, ix, ShapeIn(shapes, t), true);
          stmt := if prelude == [] then Store(t, expr, ix) else Block(prelude + [Store(t, expr, ix)]);
        case Loop(lo, hi, tile, x, b) =>
          var body := Statement(b);
          stmt := Loop(lo, hi, tile, x, body);
        case Seq(l, r) =>
          var a := Statement(l);
          var b := Statement(r);
          stmt := Seq(a, b);
        case Block(ss) =>
          var done := StatementList(ss);
          stmt := Block(done);
      }
    }

    method StatementList(ss: seq<Stmt>) returns (done: seq<Stmt>)
      modifies this
      ensures DoneStmts(done, Now()) == DecomposeStmts(choice, ss, old(Now()))
      decreases ss
    {
      done := [];
      ghost var all := DecomposeStmts(choice, ss, Now());
      assert ss[0..] == ss && [] + all.stmts == all.stmts;
      for k := 0 to |ss|
        invariant all == Appended(done, DecomposeStmts(choice, ss[k..], Now()))
      {
        AppendedStep(choice, done, ss, k, Now());
        var one := Statement(ss[k]);
        done := done + [one];
      }
      assert ss[|ss|..] == [];
    }
  }

  lemma AheadFacts(counter: nat, used: set<Name>)
    ensures FreshNumber(counter, used) > counter
  {
  }

  /** The candidates a ratio selects: all, none, or the evenly spread places. */
  function ChoiceFor(total: nat, ratio: real): Choice {
    var target := TargetCount(total, ratio);
    if ratio >= 1.0 then Always
    else if ratio <= 0.0 then Never
    else Chosen(if target == 0 then {} else PlacesUpTo(target, total, target))
  }

  function Clamped(ratio: real): real { if ratio < 0.0 then 0.0 else if ratio > 1.0 then 1.0 else ratio }

  /** The whole result of the pass. */
  function Decomposed(root: Stmt, shapes: map<Name, Dims>, ratio: real): DoneStmt {
    DecomposeStmt(ChoiceFor(CountStmt(root), Clamped(ratio)), root, State(0, shapes, [], 0))
  }

  method DecomposeOperations(root: Stmt, shapes: map<Name, Dims>, givenRatio: real)
      returns (stmt: Stmt, temps: seq<Name>, known: map<Name, Dims>)
    ensures var done := Decomposed(root, shapes, givenRatio);
            stmt == done.stmt && temps == done.state.temps && known == done.state.shapes
  {
    var ratio := Clamped(givenRatio);
    var total := CountStmt(root);
    var target := TargetCount(total, ratio);
    var selected: set<int> := {};
    if ratio < 1.0 && target > 0 { selected := SelectPlaces(total, target); }
    var d := new Decomposer(if ratio >= 1.0 then Always else if ratio <= 0.0 then Never else Chosen(selected), shapes);
    stmt := d.Statement(root);
    temps, known := d.temps, d.shapes;
  }

  // ---------------------------------------------------------------------------------------------
  // How many temporaries, and which

  function Taken(ch: Choice, met: nat, count: nat): nat {
    match ch
    case Never => 0
    case Always => count
    case Chosen(places) => |set i | i in places && met <= i < met + count|
  }

  lemma TakenAdds(ch: Choice, met: nat, a: nat, b: nat)
    ensures Taken(ch, met, a) + Taken(ch, met + a, b) == Taken(ch, met, a + b)
  {
    match ch
    case Never =>
    case Always =>
    case Chosen(places) =>
      var x, y := set i | i in places && met <= i < met + a, set i | i in places && met + a <= i < met + a + b;
      assert (set i | i in places && met <= i < met + (a + b)) == x + y;
      assert x !! y;
  }

  lemma TakenOne(ch: Choice, st: State)
    ensures Taken(ch, st.met, 1) == if Takes(ch, st) then 1 else 0
  {
    match ch
    case Chosen(places) =>
      var one := set i | i in places && st.met <= i < st.met + 1;
      assert one == if st.met in places then {st.met} else {};
    case _ =>
  }

  /** The state after a part of the program with `count` candidates. */
  ghost predicate Advanced(ch: Choice, st: State, now: State, count: nat) {
    && now.met == st.met + (if ch.Chosen? then count else 0)
    && |now.temps| == |st.temps| + Taken(ch, st.met, count)
    && Grown(st, now)
  }

  /** Temporaries are only added, each under a name not in use before; known shapes stay. */
  ghost predicate Grown(st: State, now: State) {
    && st.temps <= now.temps
    && (forall n :: n in now.shapes <==> n in st.shapes || n in now.temps[|st.temps|..])
    && (forall n :: n in st.shapes ==> n in now.shapes && now.shapes[n] == st.shapes[n])
    && (forall k :: |st.temps| <= k < |now.temps| ==> now.temps[k] !in st.shapes)
    && (forall j, k :: |st.temps| <= j < k < |now.temps| ==> now.temps[j] != now.temps[k])
  }

  lemma AdvancedOn(ch: Choice, a: State, b: State, c: State, m: nat, n: nat)
    requires Advanced(ch, a, b, m) && Advanced(ch, b, c, n)
    ensures Advanced(ch, a, c, m + n)
  {
    TakenAdds(ch, a.met, m, n);
    if !ch.Chosen? { TakenAdds(ch, b.met, m, n); }
    GrownOn(a, b, c);
  }

  lemma GrownOn(a: State, b: State, c: State)
    requires Grown(a, b) && Grown(b, c)
    ensures Grown(a, c)
  {
    var ta, tb, tc := |a.temps|, |b.temps|, |c.temps|;
    assert c.temps[ta..] == b.temps[ta..] + c.temps[tb..];
    assert b.temps == c.temps[..tb];
    forall k | ta <= k < tc ensures c.temps[k] !in a.shapes { if k < tb { assert c.temps[k] == b.temps[k]; } }
    forall j, k | ta <= j < k < tc ensures c.temps[j] != c.temps[k] {
      if j < tb { assert c.temps[j] == b.temps[j] && b.temps[j] in b.temps[ta..]; }
      if k < tb { assert c.temps[k] == b.temps[k]; }
    }
  }

  lemma GrownTemp(st: State, shape: Dims)
    ensures Grown(st, AddTemp(st, shape))
  {
    var now := AddTemp(st, shape);
    assert now.temps[|st.temps|..] == [Tmp(now.counter)];
  }

  lemma {:induction false} NotAllowed(ch: Choice, e: Expr, ix: Index, dest: Dims, st: State)
    ensures Decompose(ch, e, ix, dest, false, st) == Done(e, [], st)
    decreases e, 1
  {
    match e
    case Op(op, args) => NotAllowedArgs(ch, args, Visited(op, args), ChildIndex(op, args, ix), dest, st);
    case _ =>
  }

  lemma OperandsAre(ch: Choice, args: seq<Expr>, n: nat, ix: Index, dest: Dims, allow: bool, st: State, first: Done,
      rest: DoneAll)
    requires n != 0 && args != [] && Decompose(ch, args[0], ix, dest, allow, st) == first
    requires DecomposeArgs(ch, args[1..], n - 1, ix, dest, allow, first.state) == rest
    ensures DecomposeArgs(ch, args, n, ix, dest, allow, st) ==
      DoneAll([first.expr] + rest.exprs, first.prelude + rest.prelude, rest.state)
  {
  }

  lemma {:induction false} NotAllowedArgs(ch: Choice, args: seq<Expr>, n: nat, ix: Index, dest: Dims, st: State)
    ensures DecomposeArgs(ch, args, n, ix, dest, false, st) == DoneAll(args, [], st)
    decreases args, 0
  {
    if n != 0 && args != [] {
      NotAllowed(ch, args[0], ix, dest, st);
      NotAllowedArgs(ch, args[1..], n - 1, ix, dest, st);
      OperandsAre(ch, args, n, ix, dest, false, st, Done(args[0], [], st), DoneAll(args[1..], [], st));
      assert [args[0]] + args[1..] == args;
    }
  }

  lemma {:induction false} ExprAdvances(ch: Choice, e: Expr, ix: Index, dest: Dims, allow: bool, st: State)
    ensures Advanced(ch, st, Decompose(ch, e, ix, dest, allow, st).state, CountExpr(e, allow))
    decreases e, 1
  {
    if !allow {
      NotAllowed(ch, e, ix, dest, st);
      TakenNone(ch, st);
    } else {
      match e
      case Op(op, args) =>
        if IsCandidate(op) {
          ArgsAdvance(ch, args, |args|, ix, dest, true, Meet(ch, st));
          TakenAdvances(ch, op, args, ix, dest, st);
        } else {
          ArgsAdvance(ch, args, Visited(op, args), ChildIndex(op, args, ix), dest, !IsReduce(op), st);
          if IsReduce(op) { CountNone(args, Visited(op, args)); }
        }
      case _ => TakenNone(ch, st);
    }
  }

  lemma CandidateAdvances(ch: Choice, st: State, below: State, count: nat, shape: Dims)
    requires Advanced(ch, Meet(ch, st), below, count)
    ensures Advanced(ch, st, if Takes(ch, st) then AddTemp(below, shape) else below, 1 + count)
  {
    TakenOne(ch, st);
    TakenAdds(ch, st.met, 1, count);
    GrownOn(st, Meet(ch, st), below);
    if Takes(ch, st) {
      GrownTemp(below, shape);
      GrownOn(st, below, AddTemp(below, shape));
    }
  }

  lemma TakenAdvances(ch: Choice, op: Oper, args: seq<Expr>, ix: Index, dest: Dims, st: State)
    requires IsCandidate(op)
    requires Advanced(ch, Meet(ch, st), DecomposeArgs(ch, args, |args|, ix, dest, true, Meet(ch, st)).state,
      CountArgs(args, |args|, true))
    ensures Advanced(ch, st, Decompose(ch, Op(op, args), ix, dest, true, st).state, CountExpr(Op(op, args), true))
  {
    var r := DecomposeArgs(ch, args, |args|, ix, dest, true, Meet(ch, st));
    CandidateAdvances(ch, st, r.state, CountArgs(args, |args|, true),
      InferShape(Op(op, r.exprs), r.state.shapes, dest));
  }

  lemma TakenNone(ch: Choice, st: State)
    ensures Advanced(ch, st, st, 0)
  {
    match ch
    case Chosen(places) => assert (set i | i in places && st.met <= i < st.met + 0) == {};
    case _ =>
  }

  lemma {:induction false} CountNone(args: seq<Expr>, n: nat)
    ensures CountArgs(args, n, false) == 0
    decreases args
  {
    if n != 0 && args != [] { CountNone(args[1..], n - 1); }
  }

  lemma {:induction false} ArgsAdvance(ch: Choice, args: seq<Expr>, n: nat, ix: Index, dest: Dims, allow: bool,
      st: State)
    ensures Advanced(ch, st, DecomposeArgs(ch, args, n, ix, dest, allow, st).state, CountArgs(args, n, allow))
    decreases args, 0
  {
    if n == 0 || args == [] {
      TakenNone(ch, st);
    } else {
      var first := Decompose(ch, args[0], ix, dest, allow, st);
      ExprAdvances(ch, args[0], ix, dest, allow, st);
      ArgsAdvance(ch, args[1..], n - 1, ix, dest, allow, first.state);
      AdvancedOn(ch, st, first.state, DecomposeArgs(ch, args[1..], n - 1, ix, dest, allow, first.state).state,
        CountExpr(args[0], allow), CountArgs(args[1..], n - 1, allow));
    }
  }

  lemma {:induction false} StmtAdvances(ch: Choice, s: Stmt, st: State)
    ensures Advanced(ch, st, DecomposeStmt(ch, s, st).state, CountStmt(s))
    decreases s
  {
    match s
    case Store(t, v, ix) => ExprAdvances(ch, v, ix, ShapeIn(st.shapes, t), true, st);
    case Loop(_, _, _, _, b) => StmtAdvances(ch, b, st);
    case Seq(l, r) =>
      var a := DecomposeStmt(ch, l, st);
      StmtAdvances(ch, l, st);
      StmtAdvances(ch, r, a.state);
      AdvancedOn(ch, st, a.state, DecomposeStmt(ch, r, a.state).state, CountStmt(l), CountStmt(r));
    case Block(ss) => StmtsAdvance(ch, ss, st);
  }

  lemma {:induction false} StmtsAdvance(ch: Choice, ss: seq<Stmt>, st: State)
    ensures Advanced(ch, st, DecomposeStmts(ch, ss, st).state, CountStmts(ss))
    decreases ss
  {
    if ss == [] {
      TakenNone(ch, st);
    } else {
      var a := DecomposeStmt(ch, ss[0], st);
      StmtAdvances(ch, ss[0], st);
      StmtsAdvance(ch, ss[1..], a.state);
      AdvancedOn(ch, st, a.state, DecomposeStmts(ch, ss[1..], a.state).state, CountStmt(ss[0]), CountStmts(ss[1..]));
    }
  }

  /** The pass makes exactly the target number of temporaries, all fresh and pairwise different: the
      rewriting meets the same candidates as the counting, in the same order. */
  lemma MakesTarget(root: Stmt, shapes: map<Name, Dims>, ratio: real)
    ensures var temps := Decomposed(root, shapes, ratio).state.temps;
            |temps| == TargetCount(CountStmt(root), Clamped(ratio)) &&
            (forall t :: t in temps ==> t !in shapes) &&
            forall j, k :: 0 <= j < k < |temps| ==> temps[j] != temps[k]
  {
    var total := CountStmt(root);
    var ch, st := ChoiceFor(total, Clamped(ratio)), State(0, shapes, [], 0);
    StmtAdvances(ch, root, st);
    TakenTarget(total, Clamped(ratio));
    var now := DecomposeStmt(ch, root, st).state;
    assert |st.temps| == 0 && now.temps[0..] == now.temps;
  }

  lemma TakenTarget(total: nat, ratio: real)
    requires 0.0 <= ratio <= 1.0
    ensures Taken(ChoiceFor(total, ratio), 0, total) == TargetCount(total, ratio)
  {
    var target := TargetCount(total, ratio);
    if 0.0 < ratio < 1.0 {
      var places := ChoiceFor(total, ratio).places;
      if target > 0 { PlacesDistinct(target, total, target); }
      assert (set i | i in places && 0 <= i < 0 + total) == places;
    } else if ratio >= 1.0 {
      assert total as real * ratio == total as real;
    } else {
      assert total as real * ratio == 0.0;
    }
  }

  // ---------------------------------------------------------------------------------------------
  // Meaning.  A temporary is a tensor of cells with the shape recorded for it, so it gives a tile back
  // exactly when the tile's cells are those of the region it is stored to.

  /** Every candidate that becomes a temporary has a value that fits the temporary where it is stored. */
  ghost predicate FitsExpr<S>(A: Arithmetic<S>, ch: Choice, e: Expr, ix: Index, dest: Dims, allow: bool, st: State,
      env: Env, mem: Mem<Cells<S>>)
    decreases e, 1
  {
    match e
    case Op(op, args) =>
      if allow && IsCandidate(op) then
        && FitsArgs(A, ch, args, |args|, ix, dest, true, Meet(ch, st), env, mem)
        && (Takes(ch, st) ==>
          TileFits(Eval(A.Machine(), e, env, mem), Box(TempShape(ch, e, ix, dest, st)), ResolveAll(ix, env)))
      else FitsArgs(A, ch, args, Visited(op, args), ChildIndex(op, args, ix), dest, allow && !IsReduce(op), st, env,
        mem)
    case _ => true
  }

  ghost predicate FitsArgs<S>(A: Arithmetic<S>, ch: Choice, args: seq<Expr>, n: nat, ix: Index, dest: Dims, allow: bool,
      st: State, env: Env, mem: Mem<Cells<S>>)
    decreases args, 0
  {
    n == 0 || args == [] ||
      (FitsExpr(A, ch, args[0], ix, dest, allow, st, env, mem) &&
       FitsArgs(A, ch, args[1..], n - 1, ix, dest, allow, Decompose(ch, args[0], ix, dest, allow, st).state, env, mem))
  }

  /** The shape recorded for the temporary of a candidate. */
  function TempShape(ch: Choice, e: Expr, ix: Index, dest: Dims, st: State): Dims
    requires e.Op?
  {
    var below := DecomposeArgs(ch, e.args, |e.args|, ix, dest, true, Meet(ch, st));
    InferShape(Op(e.op, below.exprs), below.state.shapes, dest)
  }

  /** A candidate directly at the store becomes a temporary. */
  predicate TakenAtStore(ch: Choice, v: Expr, st: State) { v.Op? && IsCandidate(v.op) && Takes(ch, st) }

  /** Where the destination has cells, the tile has numbers exactly where the temporary has cells. */
  predicate Serves<S>(v: TileValue<S>, dest: set<Coord>, temp: set<Coord>, r: Region) {
    forall q :: q in RegionCoords(dest, r) ==> (TileHas(v, q) <==> q in RegionCoords(temp, r))
  }

  /** What a store asks of its candidates: the one directly at the store only has to serve the store. */
  ghost predicate FitsStore<S>(A: Arithmetic<S>, ch: Choice, t: Name, v: Expr, ix: Index, st: State, env: Env,
      mem: Mem<Cells<S>>)
  {
    var dest, r := ShapeIn(st.shapes, t), ResolveAll(ix, env);
    if TakenAtStore(ch, v, st) then
      && FitsArgs(A, ch, v.args, |v.args|, ix, dest, true, Meet(ch, st), env, mem)
      && Serves(Eval(A.Machine(), v, env, mem), KeysOf(mem, t), Box(TempShape(ch, v, ix, dest, st)), r)
    else FitsExpr(A, ch, v, ix, dest, true, st, env, mem)
  }

  /** So it is for every store a statement executes, with the memory it has then. */
  ghost predicate FitsStmt<S>(A: Arithmetic<S>, ch: Choice, s: Stmt, st: State, env: Env, mem: Mem<Cells<S>>)
    decreases s, 1, 0
  {
    match s
    case Store(t, v, ix) => FitsStore(A, ch, t, v, ix, st, env, mem)
    case Loop(lo, hi, tile, x, b) =>
      FitsLoop(A, ch, b, st, x, A.size(tile), BoundValue(lo, env), BoundValue(hi, env), env, mem)
    case Seq(l, r) =>
      && FitsStmt(A, ch, l, st, env, mem)
      && FitsStmt(A, ch, r, DecomposeStmt(ch, l, st).state, env, Exec(A.Machine(), l, env, mem))
    case Block(ss) => FitsStmts(A, ch, ss, st, env, mem)
  }

  /** Every round of the loop, with the memory the rounds before it leave. */
  ghost predicate FitsLoop<S>(A: Arithmetic<S>, ch: Choice, b: Stmt, st: State, x: Name, step: pos, lo: int, hi: int,
      env: Env, mem: Mem<Cells<S>>)
    decreases b, 2, 0
  {
    forall v :: Visits(v, step, lo, hi) ==>
      FitsStmt(A, ch, b, st, Bind(env, x, v, step), Iterate(A.Machine(), b, x, step, lo, v, env, mem))
  }

  ghost predicate FitsStmts<S>(A: Arithmetic<S>, ch: Choice, ss: seq<Stmt>, st: State, env: Env, mem: Mem<Cells<S>>)
    decreases ss, 0, 0
  {
    ss == [] ||
      (FitsStmt(A, ch, ss[0], st, env, mem) &&
       FitsStmts(A, ch, ss[1..], DecomposeStmt(ch, ss[0], st).state, env, Exec(A.Machine(), ss[0], env, mem)))
  }

  /** The temporaries are allocated with their shapes. */
  ghost predicate Allocated<S>(mem: Mem<Cells<S>>, names: set<Name>, plan: map<Name, Dims>) {
    forall t :: t in plan && t !in names ==> CellsOf(mem, t).Keys == Box(plan[t])
  }

  /** What the pass has recorded so far is part of the plan. */
  ghost predicate Planned(st: State, plan: map<Name, Dims>) {
    forall t :: t in st.shapes ==> t in plan && plan[t] == st.shapes[t]
  }

  lemma AllocatedOn<S>(A: Arithmetic<S>, s: Stmt, env: Env, mem: Mem<Cells<S>>, names: set<Name>, plan: map<Name, Dims>)
    requires Allocated(mem, names, plan)
    ensures Allocated(Exec(A.Machine(), s, env, mem), names, plan)
  {
    ExecIsRun(A.Machine(), s, env, mem);
    forall t | t in plan && t !in names ensures CellsOf(Exec(A.Machine(), s, env, mem), t).Keys == Box(plan[t]) {
      ShapesKept(A, Trace(A.size, s, env), mem, t);
    }
  }

  ghost function Tensors(names: set<Name>): iset<Name> { iset n | n in names }

  /** Where a rewritten part may look: the names of the source, and the temporaries made for it. */
  ghost predicate LooksAt(loads: set<Name>, names: set<Name>, st: State, now: State) {
    forall n :: n in loads ==> n in names || (n in now.shapes && n !in st.shapes)
  }

  ghost predicate StoresTemps(prelude: seq<Stmt>, st: State, now: State) {
    forall n :: n in StmtStores(Block(prelude)) ==> n in now.shapes && n !in st.shapes
  }

  lemma BlockAppend<C, V>(M: Machine<C, V>, a: seq<Stmt>, b: seq<Stmt>, env: Env, mem: Mem<C>)
    ensures ExecAll(M, a + b, env, mem) == ExecAll(M, b, env, ExecAll(M, a, env, mem))
    ensures StmtStores(Block(a + b)) == StmtStores(Block(a)) + StmtStores(Block(b))
    decreases a
  {
    if a == [] {
      assert a + b == b;
    } else {
      assert (a + b)[1..] == a[1..] + b;
      BlockAppend(M, a[1..], b, env, Exec(M, a[0], env, mem));
    }
    BlockStoresAppend(a, b);
  }

  lemma BlockStoresAppend(a: seq<Stmt>, b: seq<Stmt>)
    ensures StmtStores(Block(a + b)) == StmtStores(Block(a)) + StmtStores(Block(b))
  {
    var ab := a + b;
    forall n | n in StmtStores(Block(ab)) ensures n in StmtStores(Block(a)) + StmtStores(Block(b)) {
      var s :| s in ab && n in StmtStores(s);
    }
  }

  /** Everything known of a rewritten expression: after its prelude it has the value of the original,
      and only fresh temporaries have changed. */
  ghost predicate ExprKept<S>(A: Arithmetic<S>, e: Expr, env: Env, names: set<Name>, m1: Mem<Cells<S>>,
      m2: Mem<Cells<S>>, r: Done, st: State)
  {
    && Eval(A.Machine(), r.expr, env, ExecAll(A.Machine(), r.prelude, env, m2)) == Eval(A.Machine(), e, env, m1)
    && LooksAt(Loads(r.expr), names, st, r.state)
    && StoresTemps(r.prelude, st, r.state)
  }

  ghost predicate ArgsKept<S>(A: Arithmetic<S>, args: seq<Expr>, env: Env, names: set<Name>, m1: Mem<Cells<S>>,
      m2: Mem<Cells<S>>, r: DoneAll, st: State)
  {
    && |r.exprs| == |args|
    && EvalAll(A.Machine(), r.exprs, env, ExecAll(A.Machine(), r.prelude, env, m2)) ==
      EvalAll(A.Machine(), args, env, m1)
    && (forall k :: 0 <= k < |args| ==> LooksAt(Loads(r.exprs[k]), names, st, r.state))
    && StoresTemps(r.prelude, st, r.state)
  }

  /** The original and the rewritten program between two statements: they agree on the source's names,
      and the temporaries are there. */
  ghost predicate Ready<S>(A: Arithmetic<S>, names: set<Name>, plan: map<Name, Dims>, st: State, m1: Mem<Cells<S>>,
      m2: Mem<Cells<S>>)
  {
    names <= st.Used() && Agree(A.Machine(), Tensors(names), m1, m2) && Allocated(m2, names, plan)
  }

  /** A prelude of temporaries leaves the source's tensors alone. */
  lemma PreludeKeeps<C, V>(M: Machine<C, V>, prelude: seq<Stmt>, env: Env, mem: Mem<C>, keep: iset<Name>)
    requires forall n :: n in StmtStores(Block(prelude)) ==> n !in keep
    ensures Agree(M, keep, mem, ExecAll(M, prelude, env, mem))
  {
    forall n | n in keep ensures Get(M, mem, n) == Get(M, ExecAll(M, prelude, env, mem), n) {
      ExecFrame(M, Block(prelude), env, mem, n);
    }
  }

  lemma {:induction false} ExprPreserves<S(!new)>(A: Arithmetic<S>, ch: Choice, e: Expr, ix: Index, dest: Dims,
      allow: bool, st: State, env: Env, names: set<Name>, plan: map<Name, Dims>, m1: Mem<Cells<S>>, m2: Mem<Cells<S>>)
    requires Ready(A, names, plan, st, m1, m2) && Loads(e) <= names
    requires Planned(Decompose(ch, e, ix, dest, allow, st).state, plan) &&
      FitsExpr(A, ch, e, ix, dest, allow, st, env, m1)
    ensures ExprKept(A, e, env, names, m1, m2, Decompose(ch, e, ix, dest, allow, st), st)
    decreases e, 1
  {
    match e
    case Op(op, args) =>
      if allow && IsCandidate(op) {
        CandidatePreserves(A, ch, e, ix, dest, st, env, names, plan, m1, m2);
      } else {
        var below := DecomposeArgs(ch, args, Visited(op, args), ChildIndex(op, args, ix), dest, allow && !IsReduce(op),
          st);
        ArgsPreserve(A, ch, args, Visited(op, args), ChildIndex(op, args, ix), dest, allow && !IsReduce(op), st, env,
          names, plan, m1, m2);
        if IsReduce(op) { NotAllowedArgs(ch, args, Visited(op, args), ChildIndex(op, args, ix), dest, st); }
        OpKept(A, op, args, st, below, env, names, m1, m2);
      }
    case _ => EvalAgree(A.Machine(), e, env, Tensors(names), m1, m2);
  }

  lemma {:induction false} CandidatePreserves<S(!new)>(A: Arithmetic<S>, ch: Choice, e: Expr, ix: Index, dest: Dims,
      st: State, env: Env, names: set<Name>, plan: map<Name, Dims>, m1: Mem<Cells<S>>, m2: Mem<Cells<S>>)
    requires e.Op? && IsCandidate(e.op)
    requires Ready(A, names, plan, st, m1, m2) && Loads(e) <= names
    requires Planned(Decompose(ch, e, ix, dest, true, st).state, plan) &&
      FitsExpr(A, ch, e, ix, dest, true, st, env, m1)
    ensures ExprKept(A, e, env, names, m1, m2, Decompose(ch, e, ix, dest, true, st), st)
    decreases e, 0
  {
    var op, args, met := e.op, e.args, Meet(ch, st);
    var below := DecomposeArgs(ch, args, |args|, ix, dest, true, met);
    ArgsAdvance(ch, args, |args|, ix, dest, true, met);
    var shape := InferShape(Op(op, below.exprs), below.state.shapes, dest);
    GrownTemp(below.state, shape);
    ArgsPreserve(A, ch, args, |args|, ix, dest, true, met, env, names, plan, m1, m2);
    assert ArgsKept(A, args, env, names, m1, m2, below, st);
    if Takes(ch, st) {
      var now := AddTemp(below.state, shape);
      StoredTemp(A, op, args, ix, shape, Tmp(now.counter), now, st, below, env, names, plan, m1, m2);
    }
    else { OpKept(A, op, args, st, below, env, names, m1, m2); }
  }

  lemma OpKept<S>(A: Arithmetic<S>, op: Oper, args: seq<Expr>, st: State, below: DoneAll, env: Env, names: set<Name>,
      m1: Mem<Cells<S>>, m2: Mem<Cells<S>>)
    requires ArgsKept(A, args, env, names, m1, m2, below, st)
    ensures ExprKept(A, Op(op, args), env, names, m1, m2, Done(Op(op, below.exprs), below.prelude, below.state), st)
  {
    var e := Op(op, below.exprs);
    forall n | n in Loads(e) ensures n in names || (n in below.state.shapes && n !in st.shapes) {
      var a :| a in below.exprs && n in Loads(a);
      var k :| 0 <= k < |below.exprs| && below.exprs[k] == a;
      assert LooksAt(Loads(below.exprs[k]), names, st, below.state);
    }
  }

  /** A tile that fits its temporary is read back from it. */
  lemma TempReadsBack<S>(A: Arithmetic<S>, t: Name, e: Expr, ix: Index, env: Env, mem: Mem<Cells<S>>, shape: set<Coord>)
    requires CellsOf(mem, t).Keys == shape && TileFits(Eval(A.Machine(), e, env, mem), shape, ResolveAll(ix, env))
    ensures Eval(A.Machine(), Load(t, ix), env, Exec(A.Machine(), Store(t, e, ix), env, mem)) ==
      Eval(A.Machine(), e, env, mem)
  {
    var M := A.Machine();
    assert Get(M, mem, t) == CellsOf(mem, t);
    ReadBackIff(CellsOf(mem, t), ResolveAll(ix, env), Eval(M, e, env, mem));
  }

  /** A candidate stored in a fresh temporary is read back from it. */
  lemma StoredTemp<S>(A: Arithmetic<S>, op: Oper, args: seq<Expr>, ix: Index, shape: Dims, t: Name, now: State,
      st: State, below: DoneAll, env: Env, names: set<Name>, plan: map<Name, Dims>, m1: Mem<Cells<S>>,
      m2: Mem<Cells<S>>)
    requires ArgsKept(A, args, env, names, m1, m2, below, st) && names <= st.Used() <= below.state.Used()
    requires t !in below.state.shapes && now.shapes == below.state.shapes[t := shape]
    requires Allocated(m2, names, plan) && Planned(now, plan)
    requires TileFits(Eval(A.Machine(), Op(op, args), env, m1), Box(shape), ResolveAll(ix, env))
    ensures ExprKept(A, Op(op, args), env, names, m1, m2,
      Done(Load(t, ix), below.prelude + [Store(t, Op(op, below.exprs), ix)], now), st)
  {
    assert t in now.shapes;
    TempHolds(A, op, args, ix, shape, t, below, env, names, plan, m1, m2);
    TempStored(below.prelude, t, Op(op, below.exprs), ix, st, below.state, now);
  }

  lemma TempStored(prelude: seq<Stmt>, t: Name, e: Expr, ix: Index, st: State, before: State, now: State)
    requires StoresTemps(prelude, st, before) && st.Used() <= before.Used() && t !in before.shapes &&
      now.Used() == before.Used() + {t}
    ensures StoresTemps(prelude + [Store(t, e, ix)], st, now)
  {
    var store := Store(t, e, ix);
    forall n | n in StmtStores(Block(prelude + [store])) ensures n in now.shapes && n !in st.shapes {
      var s :| s in prelude + [store] && n in StmtStores(s);
      if s in prelude { assert n in StmtStores(Block(prelude)); }
    }
  }

  lemma TempHolds<S>(A: Arithmetic<S>, op: Oper, args: seq<Expr>, ix: Index, shape: Dims, t: Name, below: DoneAll,
      env: Env, names: set<Name>, plan: map<Name, Dims>, m1: Mem<Cells<S>>, m2: Mem<Cells<S>>)
    requires EvalAll(A.Machine(), below.exprs, env, ExecAll(A.Machine(), below.prelude, env, m2)) ==
      EvalAll(A.Machine(), args, env, m1)
    requires Allocated(m2, names, plan) && t in plan && plan[t] == shape && t !in names
    requires TileFits(Eval(A.Machine(), Op(op, args), env, m1), Box(shape), ResolveAll(ix, env))
    ensures Eval(A.Machine(), Load(t, ix), env,
      ExecAll(A.Machine(), below.prelude + [Store(t, Op(op, below.exprs), ix)], env, m2)) ==
      Eval(A.Machine(), Op(op, args), env, m1)
  {
    var M, store := A.Machine(), Store(t, Op(op, below.exprs), ix);
    var m3 := ExecAll(M, below.prelude, env, m2);
    PreludeThenStore(M, below.prelude, store, env, m2);
    AllocatedOn(A, Block(below.prelude), env, m2, names, plan);
    TempReadsBack(A, t, Op(op, below.exprs), ix, env, m3, Box(shape));
  }

  lemma UntouchedArgs<S>(A: Arithmetic<S>, args: seq<Expr>, env: Env, names: set<Name>, m1: Mem<Cells<S>>,
      m2: Mem<Cells<S>>, st: State)
    requires (forall a :: a in args ==> Loads(a) <= names) && Agree(A.Machine(), Tensors(names), m1, m2)
    ensures ArgsKept(A, args, env, names, m1, m2, DoneAll(args, [], st), st)
  {
    var M := A.Machine();
    forall k | 0 <= k < |args|
      ensures Eval(M, args[k], env, m2) == Eval(M, args[k], env, m1) && Loads(args[k]) <= names
    {
      assert args[k] in args;
      EvalAgree(M, args[k], env, Tensors(names), m1, m2);
    }
    assert StmtStores(Block([])) == {};
  }

  lemma ArgsGrow(ch: Choice, args: seq<Expr>, n: nat, ix: Index, dest: Dims, allow: bool, st: State,
      plan: map<Name, Dims>)
    requires n > 0 && args != [] && Planned(DecomposeArgs(ch, args, n, ix, dest, allow, st).state, plan)
    ensures var first := Decompose(ch, args[0], ix, dest, allow, st);
            var rest := DecomposeArgs(ch, args[1..], n - 1, ix, dest, allow, first.state);
            st.Used() <= first.state.Used() <= rest.state.Used() && Planned(first.state, plan) &&
              Planned(rest.state, plan)
  {
    var first := Decompose(ch, args[0], ix, dest, allow, st);
    ExprAdvances(ch, args[0], ix, dest, allow, st);
    ArgsAdvance(ch, args[1..], n - 1, ix, dest, allow, first.state);
  }

  lemma ReadyAfter<S>(A: Arithmetic<S>, first: Done, env: Env, names: set<Name>, plan: map<Name, Dims>, st: State,
      m1: Mem<Cells<S>>, m2: Mem<Cells<S>>)
    requires Ready(A, names, plan, st, m1, m2) && st.Used() <= first.state.Used() &&
      StoresTemps(first.prelude, st, first.state)
    ensures Ready(A, names, plan, first.state, m1, ExecAll(A.Machine(), first.prelude, env, m2))
  {
    PreludeKeeps(A.Machine(), first.prelude, env, m2, Tensors(names));
    AllocatedOn(A, Block(first.prelude), env, m2, names, plan);
  }

  lemma {:induction false} ArgsPreserve<S(!new)>(A: Arithmetic<S>, ch: Choice, args: seq<Expr>, n: nat, ix: Index,
      dest: Dims, allow: bool, st: State, env: Env, names: set<Name>, plan: map<Name, Dims>, m1: Mem<Cells<S>>,
      m2: Mem<Cells<S>>)
    requires Ready(A, names, plan, st, m1, m2) && forall a :: a in args ==> Loads(a) <= names
    requires Planned(DecomposeArgs(ch, args, n, ix, dest, allow, st).state, plan) &&
      FitsArgs(A, ch, args, n, ix, dest, allow, st, env, m1)
    ensures ArgsKept(A, args, env, names, m1, m2, DecomposeArgs(ch, args, n, ix, dest, allow, st), st)
    decreases args, 0
  {
    if n == 0 || args == [] {
      UntouchedArgs(A, args, env, names, m1, m2, st);
    } else {
      var M, first := A.Machine(), Decompose(ch, args[0], ix, dest, allow, st);
      var rest := DecomposeArgs(ch, args[1..], n - 1, ix, dest, allow, first.state);
      assert args[0] in args;
      ArgsGrow(ch, args, n, ix, dest, allow, st, plan);
      ExprPreserves(A, ch, args[0], ix, dest, allow, st, env, names, plan, m1, m2);
      var m3 := ExecAll(M, first.prelude, env, m2);
      ReadyAfter(A, first, env, names, plan, st, m1, m2);
      ArgsPreserve(A, ch, args[1..], n - 1, ix, dest, allow, first.state, env, names, plan, m1, m3);
      FirstThenRest(A, args, env, names, m1, m2, first, rest, st);
    }
  }

  lemma FirstThenRest<S>(A: Arithmetic<S>, args: seq<Expr>, env: Env, names: set<Name>, m1: Mem<Cells<S>>,
      m2: Mem<Cells<S>>, first: Done, rest: DoneAll, st: State)
    requires args != [] && names <= st.Used() && st.Used() <= first.state.Used() <= rest.state.Used()
    requires ExprKept(A, args[0], env, names, m1, m2, first, st)
    requires ArgsKept(A, args[1..], env, names, m1, ExecAll(A.Machine(), first.prelude, env, m2), rest, first.state)
    ensures ArgsKept(A, args, env, names, m1, m2,
      DoneAll([first.expr] + rest.exprs, first.prelude + rest.prelude, rest.state), st)
  {
    BlockAppend(A.Machine(), first.prelude, rest.prelude, env, m2);
    FirstValueStays(A, args, env, names, m1, m2, first, rest, st);
    var exprs := [first.expr] + rest.exprs;
    forall k | 0 <= k < |args| ensures LooksAt(Loads(exprs[k]), names, st, rest.state) {
      if k > 0 { assert LooksAt(Loads(rest.exprs[k - 1]), names, first.state, rest.state); }
    }
  }

  /** The prelude of the later operands does not touch what the first one loads. */
  lemma FirstValueStays<S>(A: Arithmetic<S>, args: seq<Expr>, env: Env, names: set<Name>, m1: Mem<Cells<S>>,
      m2: Mem<Cells<S>>, first: Done, rest: DoneAll, st: State)
    requires args != [] && names <= st.Used() && st.Used() <= first.state.Used() <= rest.state.Used()
    requires ExprKept(A, args[0], env, names, m1, m2, first, st)
    requires ArgsKept(A, args[1..], env, names, m1, ExecAll(A.Machine(), first.prelude, env, m2), rest, first.state)
    ensures var m4 := ExecAll(A.Machine(), rest.prelude, env, ExecAll(A.Machine(), first.prelude, env, m2));
            EvalAll(A.Machine(), [first.expr] + rest.exprs, env, m4) == EvalAll(A.Machine(), args, env, m1)
  {
    var M := A.Machine();
    var m3 := ExecAll(M, first.prelude, env, m2);
    var m4 := ExecAll(M, rest.prelude, env, m3);
    assert Loads(first.expr) <= first.state.Used() by {
      forall n | n in Loads(first.expr)
        ensures n in first.state.Used()
      {
        assert n in names || n in first.state.shapes;
      }
    }
    PastPrelude(M, first.expr, rest.prelude, first.state.Used(), env, m3);
    AllValues(M, first.expr, rest.exprs, args, env, m4, m1);
  }

  lemma AllValues<C, V>(M: Machine<C, V>, e: Expr, es: seq<Expr>, args: seq<Expr>, env: Env, m4: Mem<C>, m1: Mem<C>)
    requires args != [] && Eval(M, e, env, m4) == Eval(M, args[0], env, m1) &&
      EvalAll(M, es, env, m4) == EvalAll(M, args[1..], env, m1)
    ensures EvalAll(M, [e] + es, env, m4) == EvalAll(M, args, env, m1)
  {
    EvalAllCons(M, e, es, env, m4);
    EvalAllCons(M, args[0], args[1..], env, m1);
    assert [args[0]] + args[1..] == args;
  }

  lemma PastPrelude<C, V>(M: Machine<C, V>, e: Expr, prelude: seq<Stmt>, used: set<Name>, env: Env, mem: Mem<C>)
    requires Loads(e) <= used && forall n :: n in StmtStores(Block(prelude)) ==> n !in used
    ensures Eval(M, e, env, ExecAll(M, prelude, env, mem)) == Eval(M, e, env, mem)
  {
    PreludeKeeps(M, prelude, env, mem, Tensors(used));
    EvalAgree(M, e, env, Tensors(used), mem, ExecAll(M, prelude, env, mem));
  }

  lemma EvalAllCons<C, V>(M: Machine<C, V>, e: Expr, es: seq<Expr>, env: Env, mem: Mem<C>)
    ensures EvalAll(M, [e] + es, env, mem) == [Eval(M, e, env, mem)] + EvalAll(M, es, env, mem)
  {
  }

  lemma PreludeThenStore<C, V>(M: Machine<C, V>, prelude: seq<Stmt>, store: Stmt, env: Env, mem: Mem<C>)
    ensures ExecAll(M, prelude + [store], env, mem) == Exec(M, store, env, ExecAll(M, prelude, env, mem))
  {
    BlockAppend(M, prelude, [store], env, mem);
    var after := ExecAll(M, prelude, env, mem);
    assert ExecAll(M, [store], env, after) == ExecAll(M, [store][1..], env, Exec(M, store, env, after));
  }

  lemma StorePreserves<S(!new)>(A: Arithmetic<S>, ch: Choice, t: Name, v: Expr, ix: Index, st: State, env: Env,
      names: set<Name>, plan: map<Name, Dims>, m1: Mem<Cells<S>>, m2: Mem<Cells<S>>)
    requires Ready(A, names, plan, st, m1, m2) && Loads(v) <= names && t in names
    requires var s := Store(t, v, ix); Planned(DecomposeStmt(ch, s, st).state, plan) && FitsStmt(A, ch, s, st, env, m1)
    ensures Agree(A.Machine(), Tensors(names), Exec(A.Machine(), Store(t, v, ix), env, m1),
      Exec(A.Machine(), DecomposeStmt(ch, Store(t, v, ix), st).stmt, env, m2))
  {
    if TakenAtStore(ch, v, st) {
      TakenStorePreserves(A, ch, t, v, ix, st, env, names, plan, m1, m2);
    } else {
      var M, dest := A.Machine(), ShapeIn(st.shapes, t);
      var r := Decompose(ch, v, ix, dest, true, st);
      ExprPreserves(A, ch, v, ix, dest, true, st, env, names, plan, m1, m2);
      PreludeKeeps(M, r.prelude, env, m2, Tensors(names));
      PreludeThenStore(M, r.prelude, Store(t, r.expr, ix), env, m2);
    }
  }

  /** Going through a temporary that serves the store writes the same. */
  lemma ServedWrites<S>(c: Cells<S>, temp: Cells<S>, r: Region, v: TileValue<S>)
    requires Serves(v, c.Keys, temp.Keys, r)
    ensures WriteCells(c, r, ReadCells(WriteCells(temp, r, v), r)) == WriteCells(c, r, v)
  {
    var back := ReadCells(WriteCells(temp, r, v), r);
    assert WriteCells(temp, r, v).Keys == temp.Keys;
    forall p | p in c ensures Written(c, r, back, p) == Written(c, r, v, p) {
      if InRegion(r, p) {
        AbsoluteRelative(r, p);
        assert Relative(r, p) in RegionCoords(c.Keys, r);
        if TileHas(v, Relative(r, p)) { assert back.cells[Relative(r, p)] == WriteCells(temp, r, v)[p]; }
      }
    }
  }

  /** The exact condition at the store: the temporary serves it if and only if going through it writes
      the same whatever it and the destination held before. */
  lemma ServesIff<S(!new)>(dest: set<Coord>, temp: set<Coord>, r: Region, v: TileValue<S>, a: S, b: S)
    requires a != b
    ensures Serves(v, dest, temp, r) <==>
      forall c: Cells<S>, d: Cells<S> :: c.Keys == dest && d.Keys == temp ==>
        WriteCells(c, r, ReadCells(WriteCells(d, r, v), r)) == WriteCells(c, r, v)
  {
    if Serves(v, dest, temp, r) {
      forall c: Cells<S>, d: Cells<S> | c.Keys == dest && d.Keys == temp
        ensures WriteCells(c, r, ReadCells(WriteCells(d, r, v), r)) == WriteCells(c, r, v)
      {
        ServedWrites(c, d, r, v);
      }
    } else {
      var q :| q in RegionCoords(dest, r) && !(TileHas(v, q) <==> q in RegionCoords(temp, r));
      var kept := if TileHas(v, q) && TileAt(v, q) == a then b else a;
      var other := if kept == a then b else a;
      var c: Cells<S>, d: Cells<S> := map p | p in dest :: kept, map p | p in temp :: other;
      UnservedShows(c, d, r, v, q);
      assert c.Keys == dest && d.Keys == temp;
    }
  }

  lemma UnservedShows<S>(c: Cells<S>, d: Cells<S>, r: Region, v: TileValue<S>, q: Coord)
    requires q in RegionCoords(c.Keys, r) && !(TileHas(v, q) <==> q in RegionCoords(d.Keys, r))
    requires forall p, p' :: p in c && p' in d ==> c[p] != d[p']
    requires TileHas(v, q) ==> forall p :: p in c ==> c[p] != TileAt(v, q)
    ensures WriteCells(c, r, ReadCells(WriteCells(d, r, v), r)) != WriteCells(c, r, v)
  {
    var p, back := Absolute(r, q), ReadCells(WriteCells(d, r, v), r);
    AbsoluteRelative(r, q);
    assert WriteCells(d, r, v).Keys == d.Keys;
    assert WriteCells(c, r, v)[p] == if TileHas(v, q) then TileAt(v, q) else c[p];
    assert q in back.cells <==> q in RegionCoords(d.Keys, r);
    assert WriteCells(c, r, back)[p] == if q in back.cells then back.cells[q] else c[p];
    if !TileHas(v, q) { assert back.cells[q] == d[p]; }
  }

  lemma TakenStorePreserves<S(!new)>(A: Arithmetic<S>, ch: Choice, t: Name, v: Expr, ix: Index, st: State, env: Env,
      names: set<Name>, plan: map<Name, Dims>, m1: Mem<Cells<S>>, m2: Mem<Cells<S>>)
    requires Ready(A, names, plan, st, m1, m2) && Loads(v) <= names && t in names && TakenAtStore(ch, v, st)
    requires var s := Store(t, v, ix); Planned(DecomposeStmt(ch, s, st).state, plan) && FitsStmt(A, ch, s, st, env, m1)
    ensures Agree(A.Machine(), Tensors(names), Exec(A.Machine(), Store(t, v, ix), env, m1),
      Exec(A.Machine(), DecomposeStmt(ch, Store(t, v, ix), st).stmt, env, m2))
  {
    var M, dest := A.Machine(), ShapeIn(st.shapes, t);
    var below := DecomposeArgs(ch, v.args, |v.args|, ix, dest, true, Meet(ch, st));
    var shape := TempShape(ch, v, ix, dest, st);
    var now := AddTemp(below.state, shape);
    var u := Tmp(now.counter);
    ArgsAdvance(ch, v.args, |v.args|, ix, dest, true, Meet(ch, st));
    GrownTemp(below.state, shape);
    ArgsPreserve(A, ch, v.args, |v.args|, ix, dest, true, Meet(ch, st), env, names, plan, m1, m2);
    assert ArgsKept(A, v.args, env, names, m1, m2, below, st);
    ThroughTemp(A, t, v.op, v.args, ix, u, shape, below, env, names, plan, st, m1, m2);
    TakenStmt(ch, t, v, ix, st);
  }

  /** What the pass makes of a store with a candidate at it. */
  lemma TakenStmt(ch: Choice, t: Name, v: Expr, ix: Index, st: State)
    requires TakenAtStore(ch, v, st)
    ensures var dest := ShapeIn(st.shapes, t);
      var below := DecomposeArgs(ch, v.args, |v.args|, ix, dest, true, Meet(ch, st));
      var u := Tmp(AddTemp(below.state, TempShape(ch, v, ix, dest, st)).counter);
      DecomposeStmt(ch, Store(t, v, ix), st).stmt ==
        Block(below.prelude + [Store(u, Op(v.op, below.exprs), ix)] + [Store(t, Load(u, ix), ix)])
  {
  }

  lemma ThroughTemp<S(!new)>(A: Arithmetic<S>, t: Name, op: Oper, args: seq<Expr>, ix: Index, u: Name, shape: Dims,
      below: DoneAll, env: Env, names: set<Name>, plan: map<Name, Dims>, st: State, m1: Mem<Cells<S>>,
      m2: Mem<Cells<S>>)
    requires ArgsKept(A, args, env, names, m1, m2, below, st) && Ready(A, names, plan, st, m1, m2) && t in names
    requires u !in names && u in plan && plan[u] == shape
    requires Serves(Eval(A.Machine(), Op(op, args), env, m1), KeysOf(m1, t), Box(shape), ResolveAll(ix, env))
    ensures Agree(A.Machine(), Tensors(names), Exec(A.Machine(), Store(t, Op(op, args), ix), env, m1),
      Exec(A.Machine(), Block(below.prelude + [Store(u, Op(op, below.exprs), ix)] + [Store(t, Load(u, ix), ix)]), env,
        m2))
  {
    var M, r, v := A.Machine(), ResolveAll(ix, env), Eval(A.Machine(), Op(op, args), env, m1);
    var m3 := ExecAll(M, below.prelude, env, m2);
    PreludeKeeps(M, below.prelude, env, m2, Tensors(names));
    AllocatedOn(A, Block(below.prelude), env, m2, names, plan);
    SameTensor(A, names, m1, m3, t);
    ServedWrites(CellsOf(m1, t), CellsOf(m3, u), r, v);
    StoreRuns(A, t, Op(op, args), ix, env, m1);
    TwoStoresRun(A, below.prelude, u, Op(op, below.exprs), t, ix, env, m2, v);
    OnlyTwoChanged(A, names, t, u, m1, m3, WriteCells(CellsOf(m3, u), r, v), WriteCells(CellsOf(m1, t), r, v));
  }

  /** A store to a temporary and one that loads it. */
  lemma TwoStoresRun<S>(A: Arithmetic<S>, prelude: seq<Stmt>, u: Name, e: Expr, t: Name, ix: Index, env: Env,
      m2: Mem<Cells<S>>, v: TileValue<S>)
    requires t != u && Eval(A.Machine(), e, env, ExecAll(A.Machine(), prelude, env, m2)) == v
    ensures var M, r, m3 := A.Machine(), ResolveAll(ix, env), ExecAll(A.Machine(), prelude, env, m2);
      var x := WriteCells(CellsOf(m3, u), r, v);
      Exec(M, Block(prelude + [Store(u, e, ix)] + [Store(t, Load(u, ix), ix)]), env, m2) ==
        m3[u := x][t := WriteCells(CellsOf(m3, t), r, ReadCells(x, r))]
  {
    PreludeThenTwo(A.Machine(), prelude, Store(u, e, ix), Store(t, Load(u, ix), ix), env, m2);
    StoreThenCopy(A, u, e, t, ix, env, ExecAll(A.Machine(), prelude, env, m2), v);
  }

  lemma PreludeThenTwo<C, V>(M: Machine<C, V>, prelude: seq<Stmt>, a: Stmt, b: Stmt, env: Env, mem: Mem<C>)
    ensures Exec(M, Block(prelude + [a] + [b]), env, mem) ==
      Exec(M, b, env, Exec(M, a, env, ExecAll(M, prelude, env, mem)))
  {
    PreludeThenStore(M, prelude, a, env, mem);
    PreludeThenStore(M, prelude + [a], b, env, mem);
  }

  lemma StoreThenCopy<S>(A: Arithmetic<S>, u: Name, e: Expr, t: Name, ix: Index, env: Env, m3: Mem<Cells<S>>,
      v: TileValue<S>)
    requires t != u && Eval(A.Machine(), e, env, m3) == v
    ensures var M, r := A.Machine(), ResolveAll(ix, env);
      var x := WriteCells(CellsOf(m3, u), r, v);
      Exec(M, Store(t, Load(u, ix), ix), env, Exec(M, Store(u, e, ix), env, m3)) ==
        m3[u := x][t := WriteCells(CellsOf(m3, t), r, ReadCells(x, r))]
  {
    var m4 := m3[u := WriteCells(CellsOf(m3, u), ResolveAll(ix, env), v)];
    StoreRuns(A, u, e, ix, env, m3);
    LoadRuns(A, u, ix, env, m4);
    StoreRuns(A, t, Load(u, ix), ix, env, m4);
  }

  lemma SameTensor<S>(A: Arithmetic<S>, names: set<Name>, m1: Mem<Cells<S>>, m3: Mem<Cells<S>>, t: Name)
    requires Agree(A.Machine(), Tensors(names), m1, m3) && t in names
    ensures CellsOf(m1, t) == CellsOf(m3, t)
  {
    assert Get(A.Machine(), m1, t) == Get(A.Machine(), m3, t);
  }

  lemma OnlyTwoChanged<S>(A: Arithmetic<S>, names: set<Name>, t: Name, u: Name, m1: Mem<Cells<S>>, m3: Mem<Cells<S>>,
      x: Cells<S>, y: Cells<S>)
    requires Agree(A.Machine(), Tensors(names), m1, m3) && u !in names
    ensures Agree(A.Machine(), Tensors(names), m1[t := y], m3[u := x][t := y])
  {
    forall n | n in Tensors(names) ensures Get(A.Machine(), m1[t := y], n) == Get(A.Machine(), m3[u := x][t := y], n) {
      assert Get(A.Machine(), m1, n) == Get(A.Machine(), m3, n);
    }
  }

  /** Decomposing a statement leaves what it does to the source's tensors. */
  lemma {:induction false} StmtPreserves<S(!new)>(A: Arithmetic<S>, ch: Choice, s: Stmt, st: State, env: Env,
      names: set<Name>, plan: map<Name, Dims>, m1: Mem<Cells<S>>, m2: Mem<Cells<S>>)
    requires Ready(A, names, plan, st, m1, m2) && StmtLoads(s) + StmtStores(s) <= names
    requires Planned(DecomposeStmt(ch, s, st).state, plan) && FitsStmt(A, ch, s, st, env, m1)
    ensures Agree(A.Machine(), Tensors(names), Exec(A.Machine(), s, env, m1),
      Exec(A.Machine(), DecomposeStmt(ch, s, st).stmt, env, m2))
    decreases s, 1, 0
  {
    var M := A.Machine();
    match s
    case Store(t, v, ix) => StorePreserves(A, ch, t, v, ix, st, env, names, plan, m1, m2);
    case Loop(lo, hi, tile, x, b) =>
      LoopPreserves(A, ch, b, st, x, A.size(tile), BoundValue(lo, env), BoundValue(hi, env), env, names, plan, m1, m2);
    case Seq(l, r) =>
      var a := DecomposeStmt(ch, l, st);
      StmtAdvances(ch, l, st);
      StmtAdvances(ch, r, a.state);
      StmtPreserves(A, ch, l, st, env, names, plan, m1, m2);
      StillReady(A, l, a.stmt, env, names, plan, st, a.state, m1, m2);
      StmtPreserves(A, ch, r, a.state, env, names, plan, Exec(M, l, env, m1), Exec(M, a.stmt, env, m2));
    case Block(ss) =>
      forall c | c in ss ensures StmtLoads(c) + StmtStores(c) <= names {
        forall n | n in StmtLoads(c) ensures n in names { assert n in StmtLoads(s); }
        forall n | n in StmtStores(c) ensures n in names { assert n in StmtStores(s); }
      }
      StmtsPreserve(A, ch, ss, st, env, names, plan, m1, m2);
  }

  lemma StillReady<S>(A: Arithmetic<S>, s: Stmt, s': Stmt, env: Env, names: set<Name>, plan: map<Name, Dims>, st: State,
      now: State, m1: Mem<Cells<S>>, m2: Mem<Cells<S>>)
    requires Ready(A, names, plan, st, m1, m2) && st.Used() <= now.Used()
    requires Agree(A.Machine(), Tensors(names), Exec(A.Machine(), s, env, m1), Exec(A.Machine(), s', env, m2))
    ensures Ready(A, names, plan, now, Exec(A.Machine(), s, env, m1), Exec(A.Machine(), s', env, m2))
  {
    AllocatedOn(A, s', env, m2, names, plan);
  }

  lemma OneRound<C, V>(M: Machine<C, V>, b: Stmt, x: Name, step: pos, lo: int, hi: int, env: Env, mem: Mem<C>)
    requires lo < hi
    ensures Iterate(M, b, x, step, lo, hi, env, mem) ==
      Iterate(M, b, x, step, lo + step, hi, env, Exec(M, b, Bind(env, x, lo, step), mem))
  {
  }

  lemma FitsRound<S>(A: Arithmetic<S>, ch: Choice, b: Stmt, st: State, x: Name, step: pos, lo: int, hi: int, env: Env,
      mem: Mem<Cells<S>>)
    requires lo < hi && FitsLoop(A, ch, b, st, x, step, lo, hi, env, mem)
    ensures FitsStmt(A, ch, b, st, Bind(env, x, lo, step), mem)
    ensures FitsLoop(A, ch, b, st, x, step, lo + step, hi, env, Exec(A.Machine(), b, Bind(env, x, lo, step), mem))
  {
    assert Visits(lo, step, lo, hi);
    RoundsBefore(A.Machine(), b, x, step, lo, lo, env, mem);
    forall v | Visits(v, step, lo + step, hi)
      ensures FitsStmt(A, ch, b, st, Bind(env, x, v, step),
        Iterate(A.Machine(), b, x, step, lo + step, v, env, Exec(A.Machine(), b, Bind(env, x, lo, step), mem)))
    {
      LaterVisited(v, step, lo, hi);
      RoundsBefore(A.Machine(), b, x, step, lo, v, env, mem);
    }
  }

  lemma {:induction false} LoopPreserves<S(!new)>(A: Arithmetic<S>, ch: Choice, b: Stmt, st: State, x: Name, step: pos,
      lo: int, hi: int, env: Env, names: set<Name>, plan: map<Name, Dims>, m1: Mem<Cells<S>>, m2: Mem<Cells<S>>)
    requires Ready(A, names, plan, st, m1, m2) && StmtLoads(b) + StmtStores(b) <= names
    requires Planned(DecomposeStmt(ch, b, st).state, plan) && FitsLoop(A, ch, b, st, x, step, lo, hi, env, m1)
    ensures Agree(A.Machine(), Tensors(names), Iterate(A.Machine(), b, x, step, lo, hi, env, m1),
      Iterate(A.Machine(), DecomposeStmt(ch, b, st).stmt, x, step, lo, hi, env, m2))
    decreases b, 2, if lo < hi then hi - lo else 0
  {
    if lo < hi {
      var M, env', b' := A.Machine(), Bind(env, x, lo, step), DecomposeStmt(ch, b, st).stmt;
      FitsRound(A, ch, b, st, x, step, lo, hi, env, m1);
      StmtPreserves(A, ch, b, st, env', names, plan, m1, m2);
      StillReady(A, b, b', env', names, plan, st, st, m1, m2);
      LoopPreserves(A, ch, b, st, x, step, lo + step, hi, env, names, plan, Exec(M, b, env', m1),
        Exec(M, b', env', m2));
      OneRound(M, b, x, step, lo, hi, env, m1);
      OneRound(M, b', x, step, lo, hi, env, m2);
    }
  }

  lemma {:induction false} StmtsPreserve<S(!new)>(A: Arithmetic<S>, ch: Choice, ss: seq<Stmt>, st: State, env: Env,
      names: set<Name>, plan: map<Name, Dims>, m1: Mem<Cells<S>>, m2: Mem<Cells<S>>)
    requires Ready(A, names, plan, st, m1, m2) && forall c :: c in ss ==> StmtLoads(c) + StmtStores(c) <= names
    requires Planned(DecomposeStmts(ch, ss, st).state, plan) && FitsStmts(A, ch, ss, st, env, m1)
    ensures Agree(A.Machine(), Tensors(names), ExecAll(A.Machine(), ss, env, m1),
      ExecAll(A.Machine(), DecomposeStmts(ch, ss, st).stmts, env, m2))
    decreases ss, 0, 0
  {
    if ss != [] {
      var M, a := A.Machine(), DecomposeStmt(ch, ss[0], st);
      assert ss[0] in ss;
      StmtAdvances(ch, ss[0], st);
      StmtsAdvance(ch, ss[1..], a.state);
      StmtPreserves(A, ch, ss[0], st, env, names, plan, m1, m2);
      StillReady(A, ss[0], a.stmt, env, names, plan, st, a.state, m1, m2);
      StmtsPreserve(A, ch, ss[1..], a.state, env, names, plan, Exec(M, ss[0], env, m1), Exec(M, a.stmt, env, m2));
      var rest := DecomposeStmts(ch, ss[1..], a.state).stmts;
      assert ([a.stmt] + rest)[1..] == rest;
    }
  }

  /** The whole pass, on tensors of cells: for any ratio, if the temporaries are allocated with the shapes
      the pass recorded and every candidate it takes out fits, the program with its temporaries does to
      every tensor known before what the original does. */
  lemma DecompositionPreserves<S(!new)>(A: Arithmetic<S>, root: Stmt, shapes: map<Name, Dims>, ratio: real,
      mem: Mem<Cells<S>>)
    requires StmtLoads(root) + StmtStores(root) <= shapes.Keys
    requires Allocated(mem, shapes.Keys, Decomposed(root, shapes, ratio).state.shapes)
    requires FitsStmt(A, ChoiceFor(CountStmt(root), Clamped(ratio)), root, State(0, shapes, [], 0), map[], mem)
    ensures forall t :: t in shapes ==>
      CellsOf(Exec(A.Machine(), Decomposed(root, shapes, ratio).stmt, map[], mem), t) ==
        CellsOf(Exec(A.Machine(), root, map[], mem), t)
  {
    var M, done := A.Machine(), Decomposed(root, shapes, ratio);
    StmtPreserves(A, ChoiceFor(CountStmt(root), Clamped(ratio)), root, State(0, shapes, [], 0), map[], shapes.Keys,
      done.state.shapes, mem, mem);
    forall t | t in shapes ensures CellsOf(Exec(M, done.stmt, map[], mem), t) == CellsOf(Exec(M, root, map[], mem), t) {
      assert t in Tensors(shapes.Keys);
      assert Get(M, Exec(M, root, map[], mem), t) == Get(M, Exec(M, done.stmt, map[], mem), t);
    }
  }

  // ---------------------------------------------------------------------------------------------
  // Elementwise nests fit

  /** An elementwise expression whose loads are all at the index, of tensors with one shape. */
  predicate Flat(e: Expr, ix: Index, shapes: map<Name, Dims>, dims: Dims) {
    match e
    case Load(t, jx) => jx == ix && t in shapes && shapes[t] == dims
    case Const(_) => true
    case Arange(_) => false
    case Op(op, args) =>
      ((IsBinary(op) && |args| == 2) || (IsUnary(op) && |args| == 1)) && forall a :: a in args ==>
      Flat(a, ix, shapes, dims)
  }

  /** No candidate is made of constants alone. */
  predicate CandidatesLoad(e: Expr) {
    e.Op? ==> (IsCandidate(e.op) ==> Loads(e) != {}) && forall a :: a in e.args ==> CandidatesLoad(a)
  }

  /** No candidate below the store's own value is made of constants alone. */
  predicate InnerCandidatesLoad(v: Expr) { v.Op? ==> forall a :: a in v.args ==> CandidatesLoad(a) }

  /** Every store is elementwise, over tensors with the shape of its destination. */
  predicate Elementwise(s: Stmt, shapes: map<Name, Dims>) {
    match s
    case Store(t, v, ix) => t in shapes && Flat(v, ix, shapes, shapes[t]) && InnerCandidatesLoad(v)
    case Loop(_, _, _, _, b) => Elementwise(b, shapes)
    case Seq(l, r) => Elementwise(l, shapes) && Elementwise(r, shapes)
    case Block(ss) => forall c :: c in ss ==> Elementwise(c, shapes)
  }

  ghost predicate Extends(shapes: map<Name, Dims>, more: map<Name, Dims>) {
    forall n :: n in shapes ==> n in more && more[n] == shapes[n]
  }

  /** The tensors of the source have their shapes. */
  ghost predicate InShape<S>(mem: Mem<Cells<S>>, shapes: map<Name, Dims>) {
    forall n :: n in shapes ==> CellsOf(mem, n).Keys == Box(shapes[n])
  }

  lemma {:induction false} FlatLater(e: Expr, ix: Index, shapes: map<Name, Dims>, more: map<Name, Dims>, dims: Dims)
    requires Flat(e, ix, shapes, dims) && Extends(shapes, more)
    ensures Flat(e, ix, more, dims)
  {
    if e.Op? {
      forall a | a in e.args ensures Flat(a, ix, more, dims) { FlatLater(a, ix, shapes, more, dims); }
    }
  }

  /** The shape of an elementwise expression is the one its loads have. */
  lemma {:induction false} FlatShape(e: Expr, ix: Index, shapes: map<Name, Dims>, dims: Dims)
    requires Flat(e, ix, shapes, dims)
    ensures InferShape(e, shapes, dims) == dims
  {
    if e.Op? {
      var below := seq(|e.args|, k requires 0 <= k < |e.args| => InferShape(e.args[k], shapes, dims));
      forall k | 0 <= k < |e.args| ensures below[k] == dims { FlatShape(e.args[k], ix, shapes, dims); }
      FlatOperator(e.op, e.args, below, dims);
    }
  }

  lemma FlatOperator(op: Oper, args: seq<Expr>, below: seq<Dims>, dims: Dims)
    requires IsElementwise(op) && forall k :: 0 <= k < |below| ==> below[k] == dims
    ensures ShapeOf(op, args, below, dims) == dims
  {
  }

  lemma {:induction false} FlatExtracts(e: Expr, ix: Index, shapes: map<Name, Dims>, dims: Dims)
    requires Flat(e, ix, shapes, dims)
    ensures Extract(e, ix).Some? && forall n :: n in Loads(e) ==> n in shapes && shapes[n] == dims
  {
    if e.Op? {
      forall a | a in e.args
        ensures Extract(a, ix).Some? && forall n :: n in Loads(a) ==> n in shapes && shapes[n] == dims
      {
        FlatExtracts(a, ix, shapes, dims);
      }
    }
  }

  /** What the rewriting leaves of an elementwise expression is elementwise. */
  lemma {:induction false} FlatStays(ch: Choice, e: Expr, ix: Index, dims: Dims, allow: bool, st: State)
    requires Flat(e, ix, st.shapes, dims)
    ensures var r := Decompose(ch, e, ix, dims, allow, st);
      Flat(r.expr, ix, r.state.shapes, dims) && Extends(st.shapes, r.state.shapes)
    decreases e, 1
  {
    var r := Decompose(ch, e, ix, dims, allow, st);
    ExprAdvances(ch, e, ix, dims, allow, st);
    match e
    case Op(op, args) =>
      var met := if allow && IsCandidate(op) then Meet(ch, st) else st;
      var n := if allow && IsCandidate(op) then |args| else Visited(op, args);
      ElementwiseFacts(op, args, ix);
      FlatArgsStay(ch, args, n, ix, dims, allow, met);
      var below := DecomposeArgs(ch, args, n, ix, dims, allow, met);
      if allow && IsCandidate(op) && Takes(ch, st) {
        FlatShape(Op(op, below.exprs), ix, below.state.shapes, dims);
      }
    case _ =>
  }

  lemma ElementwiseFacts(op: Oper, args: seq<Expr>, ix: Index)
    requires IsElementwise(op)
    ensures ChildIndex(op, args, ix) == ix && !IsReduce(op)
  {
  }

  lemma {:induction false} FlatArgsStay(ch: Choice, args: seq<Expr>, n: nat, ix: Index, dims: Dims, allow: bool,
      st: State)
    requires forall a :: a in args ==> Flat(a, ix, st.shapes, dims)
    ensures var r := DecomposeArgs(ch, args, n, ix, dims, allow, st);
            (forall a :: a in r.exprs ==> Flat(a, ix, r.state.shapes, dims)) && Extends(st.shapes, r.state.shapes)
    decreases args, 0
  {
    if n != 0 && args != [] {
      var first := Decompose(ch, args[0], ix, dims, allow, st);
      assert args[0] in args;
      FlatStays(ch, args[0], ix, dims, allow, st);
      forall a | a in args[1..]
        ensures Flat(a, ix, first.state.shapes, dims)
      {
        FlatLater(a, ix, st.shapes, first.state.shapes, dims);
      }
      FlatArgsStay(ch, args[1..], n - 1, ix, dims, allow, first.state);
      var rest := DecomposeArgs(ch, args[1..], n - 1, ix, dims, allow, first.state);
      FlatLater(first.expr, ix, first.state.shapes, rest.state.shapes, dims);
    }
  }

  /** The value of an elementwise expression has exactly the cells of the region it is computed at. */
  lemma FlatTileFits<S(!new)>(A: Arithmetic<S>, e: Expr, ix: Index, shapes: map<Name, Dims>, dims: Dims, env: Env,
      mem: Mem<Cells<S>>)
    requires PointwiseArithmetic(A) && Flat(e, ix, shapes, dims) && Loads(e) != {}
    requires forall n :: n in Loads(e) ==> CellsOf(mem, n).Keys == Box(dims)
    ensures TileFits(Eval(A.Machine(), e, env, mem), Box(dims), ResolveAll(ix, env))
  {
    FlatExtracts(e, ix, shapes, dims);
    ExtractBuilds(e, ix);
    EvalBuild(A, Extract(e, ix).value, ix, env, mem, Box(dims));
  }

  lemma FlatTempShape(ch: Choice, e: Expr, ix: Index, dims: Dims, st: State)
    requires e.Op? && Flat(e, ix, st.shapes, dims)
    ensures TempShape(ch, e, ix, dims, st) == dims
  {
    FlatArgsStay(ch, e.args, |e.args|, ix, dims, true, Meet(ch, st));
    var below := DecomposeArgs(ch, e.args, |e.args|, ix, dims, true, Meet(ch, st));
    FlatShape(Op(e.op, below.exprs), ix, below.state.shapes, dims);
  }

  lemma {:induction false} FlatFits<S(!new)>(A: Arithmetic<S>, ch: Choice, e: Expr, ix: Index, dims: Dims, allow: bool,
      st: State, env: Env, mem: Mem<Cells<S>>)
    requires PointwiseArithmetic(A) && Flat(e, ix, st.shapes, dims) && CandidatesLoad(e)
    requires forall n :: n in Loads(e) ==> CellsOf(mem, n).Keys == Box(dims)
    ensures FitsExpr(A, ch, e, ix, dims, allow, st, env, mem)
    decreases e, 1
  {
    match e
    case Op(op, args) =>
      ElementwiseFacts(op, args, ix);
      assert forall a, n :: a in args && n in Loads(a) ==> n in Loads(e);
      if allow && IsCandidate(op) {
        FlatArgsFit(A, ch, args, |args|, ix, dims, true, Meet(ch, st), env, mem);
        FlatTempShape(ch, e, ix, dims, st);
        FlatTileFits(A, e, ix, st.shapes, dims, env, mem);
      } else {
        FlatArgsFit(A, ch, args, Visited(op, args), ix, dims, allow, st, env, mem);
      }
    case _ =>
  }

  lemma {:induction false} FlatArgsFit<S(!new)>(A: Arithmetic<S>, ch: Choice, args: seq<Expr>, n: nat, ix: Index,
      dims: Dims, allow: bool, st: State, env: Env, mem: Mem<Cells<S>>)
    requires PointwiseArithmetic(A) && forall a :: a in args ==> Flat(a, ix, st.shapes, dims) && CandidatesLoad(a)
    requires forall a, t :: a in args && t in Loads(a) ==> CellsOf(mem, t).Keys == Box(dims)
    ensures FitsArgs(A, ch, args, n, ix, dims, allow, st, env, mem)
    decreases args, 0
  {
    if n != 0 && args != [] {
      var now := Decompose(ch, args[0], ix, dims, allow, st).state;
      assert args[0] in args;
      FlatStays(ch, args[0], ix, dims, allow, st);
      FlatFits(A, ch, args[0], ix, dims, allow, st, env, mem);
      forall a | a in args[1..] ensures Flat(a, ix, now.shapes, dims) { FlatLater(a, ix, st.shapes, now.shapes, dims); }
      FlatArgsFit(A, ch, args[1..], n - 1, ix, dims, allow, now, env, mem);
    }
  }

  lemma FlatStoreFits<S(!new)>(A: Arithmetic<S>, ch: Choice, t: Name, v: Expr, ix: Index, st: State, env: Env,
      mem: Mem<Cells<S>>)
    requires PointwiseArithmetic(A) && t in st.shapes && Flat(v, ix, st.shapes, st.shapes[t]) && InnerCandidatesLoad(v)
    requires KeysOf(mem, t) == Box(st.shapes[t]) && forall n :: n in Loads(v) ==>
      CellsOf(mem, n).Keys == Box(st.shapes[t])
    ensures FitsStore(A, ch, t, v, ix, st, env, mem)
  {
    var dims := st.shapes[t];
    match v
    case Op(op, args) =>
      ElementwiseFacts(op, args, ix);
      assert forall a, n :: a in args && n in Loads(a) ==> n in Loads(v);
      if IsCandidate(op) {
        FlatArgsFit(A, ch, args, |args|, ix, dims, true, Meet(ch, st), env, mem);
        FlatTempShape(ch, v, ix, dims, st);
        FlatServes(A, v, ix, st.shapes, dims, env, mem);
        if !Takes(ch, st) { assert FitsExpr(A, ch, v, ix, dims, true, st, env, mem); }
      } else {
        FlatArgsFit(A, ch, args, Visited(op, args), ix, dims, true, st, env, mem);
      }
    case _ =>
  }

  /** An elementwise value has numbers in every cell of the region. */
  lemma FlatServes<S(!new)>(A: Arithmetic<S>, e: Expr, ix: Index, shapes: map<Name, Dims>, dims: Dims, env: Env,
      mem: Mem<Cells<S>>)
    requires PointwiseArithmetic(A) && Flat(e, ix, shapes, dims)
    requires forall n :: n in Loads(e) ==> CellsOf(mem, n).Keys == Box(dims)
    ensures Serves(Eval(A.Machine(), e, env, mem), Box(dims), Box(dims), ResolveAll(ix, env))
  {
    FlatExtracts(e, ix, shapes, dims);
    ExtractBuilds(e, ix);
    EvalBuild(A, Extract(e, ix).value, ix, env, mem, Box(dims));
  }

  lemma InShapeAfter<S>(A: Arithmetic<S>, s: Stmt, env: Env, mem: Mem<Cells<S>>, shapes: map<Name, Dims>)
    requires InShape(mem, shapes)
    ensures InShape(Exec(A.Machine(), s, env, mem), shapes)
  {
    ExecIsRun(A.Machine(), s, env, mem);
    forall t | t in shapes ensures CellsOf(Exec(A.Machine(), s, env, mem), t).Keys == Box(shapes[t]) {
      ShapesKept(A, Trace(A.size, s, env), mem, t);
    }
  }

  lemma {:induction false} ElementwiseFits<S(!new)>(A: Arithmetic<S>, ch: Choice, s: Stmt, shapes: map<Name, Dims>,
      st: State, env: Env, mem: Mem<Cells<S>>)
    requires PointwiseArithmetic(A) && Elementwise(s, shapes) && Extends(shapes, st.shapes) && InShape(mem, shapes)
    ensures FitsStmt(A, ch, s, st, env, mem)
    decreases s, 1, 0
  {
    match s
    case Store(t, v, ix) =>
      FlatExtracts(v, ix, shapes, shapes[t]);
      FlatLater(v, ix, shapes, st.shapes, shapes[t]);
      FlatStoreFits(A, ch, t, v, ix, st, env, mem);
    case Loop(lo, hi, tile, x, b) =>
      ElementwiseLoopFits(A, ch, b, shapes, st, x, A.size(tile), BoundValue(lo, env), BoundValue(hi, env), env, mem);
    case Seq(l, r) =>
      ElementwiseFits(A, ch, l, shapes, st, env, mem);
      StmtAdvances(ch, l, st);
      InShapeAfter(A, l, env, mem, shapes);
      ElementwiseFits(A, ch, r, shapes, DecomposeStmt(ch, l, st).state, env, Exec(A.Machine(), l, env, mem));
    case Block(ss) => ElementwiseAllFit(A, ch, ss, shapes, st, env, mem);
  }

  lemma {:induction false} ElementwiseLoopFits<S(!new)>(A: Arithmetic<S>, ch: Choice, b: Stmt, shapes: map<Name, Dims>,
      st: State, x: Name, step: pos, lo: int, hi: int, env: Env, mem: Mem<Cells<S>>)
    requires PointwiseArithmetic(A) && Elementwise(b, shapes) && Extends(shapes, st.shapes) && InShape(mem, shapes)
    ensures FitsLoop(A, ch, b, st, x, step, lo, hi, env, mem)
    decreases b, 2, 0
  {
    forall v | Visits(v, step, lo, hi)
      ensures FitsStmt(A, ch, b, st, Bind(env, x, v, step), Iterate(A.Machine(), b, x, step, lo, v, env, mem))
    {
      InShapeBefore(A, b, x, step, lo, v, env, mem, shapes);
      ElementwiseFits(A, ch, b, shapes, st, Bind(env, x, v, step), Iterate(A.Machine(), b, x, step, lo, v, env, mem));
    }
  }

  lemma InShapeBefore<S>(A: Arithmetic<S>, b: Stmt, x: Name, step: pos, lo: int, v: int, env: Env, mem: Mem<Cells<S>>,
      shapes: map<Name, Dims>)
    requires InShape(mem, shapes)
    ensures InShape(Iterate(A.Machine(), b, x, step, lo, v, env, mem), shapes)
  {
    IterateIsRun(A.Machine(), b, x, step, lo, v, env, mem);
    forall t | t in shapes
      ensures CellsOf(Iterate(A.Machine(), b, x, step, lo, v, env, mem), t).Keys == Box(shapes[t])
    {
      ShapesKept(A, LoopTrace(A.size, b, x, step, lo, v, env), mem, t);
    }
  }

  lemma {:induction false} ElementwiseAllFit<S(!new)>(A: Arithmetic<S>, ch: Choice, ss: seq<Stmt>,
      shapes: map<Name, Dims>, st: State, env: Env, mem: Mem<Cells<S>>)
    requires PointwiseArithmetic(A) && (forall c :: c in ss ==> Elementwise(c, shapes)) && Extends(shapes, st.shapes) &&
      InShape(mem, shapes)
    ensures FitsStmts(A, ch, ss, st, env, mem)
    decreases ss, 0, 0
  {
    if ss != [] {
      assert ss[0] in ss;
      ElementwiseFits(A, ch, ss[0], shapes, st, env, mem);
      StmtAdvances(ch, ss[0], st);
      InShapeAfter(A, ss[0], env, mem, shapes);
      ElementwiseAllFit(A, ch, ss[1..], shapes, DecomposeStmt(ch, ss[0], st).state, env,
        Exec(A.Machine(), ss[0], env, mem));
    }
  }

  /** Elementwise programs keep their meaning at every ratio. */
  lemma ElementwiseDecompositionPreserves<S(!new)>(A: Arithmetic<S>, root: Stmt, shapes: map<Name, Dims>, ratio: real,
      mem: Mem<Cells<S>>)
    requires PointwiseArithmetic(A) && Elementwise(root, shapes) && InShape(mem, shapes)
    requires Allocated(mem, shapes.Keys, Decomposed(root, shapes, ratio).state.shapes)
    ensures forall t :: t in shapes ==>
      CellsOf(Exec(A.Machine(), Decomposed(root, shapes, ratio).stmt, map[], mem), t) ==
        CellsOf(Exec(A.Machine(), root, map[], mem), t)
  {
    ElementwiseNames(root, shapes);
    ElementwiseFits(A, ChoiceFor(CountStmt(root), Clamped(ratio)), root, shapes, State(0, shapes, [], 0), map[], mem);
    DecompositionPreserves(A, root, shapes, ratio, mem);
  }

  lemma {:induction false} ElementwiseNames(s: Stmt, shapes: map<Name, Dims>)
    requires Elementwise(s, shapes)
    ensures StmtLoads(s) + StmtStores(s) <= shapes.Keys
  {
    match s
    case Store(t, v, ix) => FlatExtracts(v, ix, shapes, shapes[t]);
    case Loop(_, _, _, _, b) => ElementwiseNames(b, shapes);
    case Seq(l, r) => ElementwiseNames(l, shapes); ElementwiseNames(r, shapes);
    case Block(ss) =>
      forall c | c in ss ensures StmtLoads(c) + StmtStores(c) <= shapes.Keys { ElementwiseNames(c, shapes); }
  }

  // ---------------------------------------------------------------------------------------------
  // What does not fit

  /** The arithmetic with an operator of its own. */
  function WithOperator<S>(A: Arithmetic<S>, g: string, h: seq<TileValue<S>> -> TileValue<S>): Arithmetic<S> {
    A.(apply := (op, vs) => if op == GenericCall(g) then h(vs) else A.apply(op, vs))
  }

  /** Operator g is not used in the expression. */
  predicate Without(e: Expr, g: string) {
    e.Op? ==> e.op != GenericCall(g) && forall a :: a in e.args ==> Without(a, g)
  }

  lemma {:induction false} EvalWithout<S>(A: Arithmetic<S>, g: string, h: seq<TileValue<S>> -> TileValue<S>, e: Expr,
      env: Env, mem: Mem<Cells<S>>)
    requires Without(e, g)
    ensures Eval(WithOperator(A, g, h).Machine(), e, env, mem) == Eval(A.Machine(), e, env, mem)
  {
    if e.Op? {
      forall k | 0 <= k < |e.args|
        ensures Eval(WithOperator(A, g, h).Machine(), e.args[k], env, mem) == Eval(A.Machine(), e.args[k], env, mem)
      {
        EvalWithout(A, g, h, e.args[k], env, mem);
      }
      assert EvalAll(WithOperator(A, g, h).Machine(), e.args, env, mem) == EvalAll(A.Machine(), e.args, env, mem);
    }
  }

  lemma {:induction false} NoCandidates(ch: Choice, args: seq<Expr>, n: nat, ix: Index, dest: Dims, allow: bool,
      st: State)
    requires CountArgs(args, n, allow) == 0
    ensures DecomposeArgs(ch, args, n, ix, dest, allow, st) == DoneAll(args, [], st)
    decreases args, 0
  {
    if n != 0 && args != [] {
      assert CountExpr(args[0], allow) == 0 && CountArgs(args[1..], n - 1, allow) == 0;
      NoCandidate(ch, args[0], ix, dest, allow, st);
      NoCandidates(ch, args[1..], n - 1, ix, dest, allow, st);
      OperandsAre(ch, args, n, ix, dest, allow, st, Done(args[0], [], st), DoneAll(args[1..], [], st));
      assert [args[0]] + args[1..] == args;
    }
  }

  lemma {:induction false} NoCandidate(ch: Choice, e: Expr, ix: Index, dest: Dims, allow: bool, st: State)
    requires CountExpr(e, allow) == 0
    ensures Decompose(ch, e, ix, dest, allow, st) == Done(e, [], st)
    decreases e, 1
  {
    if !allow {
      NotAllowed(ch, e, ix, dest, st);
    } else {
      match e
      case Op(op, args) =>
        assert !IsCandidate(op);
        NoCandidates(ch, args, Visited(op, args), ChildIndex(op, args, ix), dest, !IsReduce(op), st);
      case _ =>
    }
  }

  /** The store with one candidate, below operator g, and what the pass makes of it. */
  function Nested(o: Name, g: string, e: Expr, ix: Index): Stmt { Store(o, Op(GenericCall(g), [e]), ix) }

  lemma TakenAlone(ch: Choice, e: Expr, ix: Index, dest: Dims, st: State, t: Name)
    requires e.Op? && IsCandidate(e.op) && CountArgs(e.args, |e.args|, true) == 0 && Takes(ch, st) &&
      t == Tmp(FreshNumber(st.counter, st.Used()))
    ensures var one := Decompose(ch, e, ix, dest, true, st); one.expr == Load(t, ix) && one.prelude == [Store(t, e, ix)]
  {
    NoCandidates(ch, e.args, |e.args|, ix, dest, true, Meet(ch, st));
    assert [] + [Store(t, e, ix)] == [Store(t, e, ix)];
  }

  lemma OneOperand(ch: Choice, e: Expr, ix: Index, dest: Dims, st: State)
    ensures var one, all := Decompose(ch, e, ix, dest, true, st), DecomposeArgs(ch, [e], 1, ix, dest, true, st);
            all.exprs == [one.expr] && all.prelude == one.prelude
  {
    var one := Decompose(ch, e, ix, dest, true, st);
    assert [e][1..] == [] && DecomposeArgs(ch, [], 0, ix, dest, true, one.state) == DoneAll([], [], one.state);
  }

  lemma NestedDecomposed(ch: Choice, o: Name, g: string, e: Expr, ix: Index, st: State, t: Name)
    requires g != "transpose" && e.Op? && IsCandidate(e.op) && CountArgs(e.args, |e.args|, true) == 0 && Takes(ch, st)
    requires t == Tmp(FreshNumber(st.counter, st.Used()))
    ensures DecomposeStmt(ch, Nested(o, g, e, ix), st).stmt == Block([Store(t, e, ix), Nested(o, g, Load(t, ix), ix)])
  {
    var dest := ShapeIn(st.shapes, o);
    TakenAlone(ch, e, ix, dest, st, t);
    OneOperand(ch, e, ix, dest, st);
    var all := DecomposeArgs(ch, [e], 1, ix, dest, true, st);
    GenericOperator(ch, g, e, ix, dest, st);
    assert [Store(t, e, ix)] + [Nested(o, g, Load(t, ix), ix)] == [Store(t, e, ix), Nested(o, g, Load(t, ix), ix)];
  }

  lemma GenericOperator(ch: Choice, g: string, e: Expr, ix: Index, dest: Dims, st: State)
    requires g != "transpose"
    ensures var all := DecomposeArgs(ch, [e], 1, ix, dest, true, st);
            Decompose(ch, Op(GenericCall(g), [e]), ix, dest, true, st) ==
              Done(Op(GenericCall(g), all.exprs), all.prelude, all.state)
  {
  }

  /** With g meaning h, the rewritten store leaves the destination as the original does. */
  ghost predicate SameUnder<S>(A: Arithmetic<S>, g: string, h: seq<TileValue<S>> -> TileValue<S>, s: Stmt, s': Stmt,
      o: Name, env: Env, mem: Mem<Cells<S>>)
  {
    CellsOf(Exec(WithOperator(A, g, h).Machine(), s', env, mem), o) ==
      CellsOf(Exec(WithOperator(A, g, h).Machine(), s, env, mem), o)
  }

  lemma NestedRuns<S>(A: Arithmetic<S>, g: string, h: seq<TileValue<S>> -> TileValue<S>, e: Expr, ix: Index, o: Name,
      env: Env, mem: Mem<Cells<S>>)
    ensures var M, r := WithOperator(A, g, h).Machine(), ResolveAll(ix, env);
      CellsOf(Exec(M, Nested(o, g, e, ix), env, mem), o) == WriteCells(CellsOf(mem, o), r, h([Eval(M, e, env, mem)]))
  {
    var M := WithOperator(A, g, h).Machine();
    assert Get(M, mem, o) == CellsOf(mem, o);
    assert EvalAll(M, [e], env, mem) == [Eval(M, e, env, mem)];
  }

  lemma TakenRuns<S>(A: Arithmetic<S>, g: string, h: seq<TileValue<S>> -> TileValue<S>, e: Expr, ix: Index, t: Name,
      o: Name, env: Env, mem: Mem<Cells<S>>)
    requires Without(e, g) && t != o
    ensures var M, r, v := WithOperator(A, g, h).Machine(), ResolveAll(ix, env), Eval(A.Machine(), e, env, mem);
      CellsOf(Exec(M, Block([Store(t, e, ix), Nested(o, g, Load(t, ix), ix)]), env, mem), o) ==
        WriteCells(CellsOf(mem, o), r, h([ReadCells(WriteCells(CellsOf(mem, t), r, v), r)]))
  {
    var M, r, v := WithOperator(A, g, h).Machine(), ResolveAll(ix, env), Eval(A.Machine(), e, env, mem);
    EvalWithout(A, g, h, e, env, mem);
    var store, rest := Store(t, e, ix), Nested(o, g, Load(t, ix), ix);
    var mem1 := mem[t := WriteCells(CellsOf(mem, t), r, v)];
    assert Get(M, mem, t) == CellsOf(mem, t);
    assert Exec(M, store, env, mem) == mem1;
    NestedRuns(A, g, h, Load(t, ix), ix, o, env, mem1);
    TwoStatements(M, store, rest, env, mem);
  }

  lemma TwoStatements<C, V>(M: Machine<C, V>, s: Stmt, t: Stmt, env: Env, mem: Mem<C>)
    ensures Exec(M, Block([s, t]), env, mem) == Exec(M, t, env, Exec(M, s, env, mem))
  {
    OneStatement(M, s, env, mem);
    PreludeThenStore(M, [s], t, env, mem);
    assert [s] + [t] == [s, t];
  }

  lemma OneStatement<C, V>(M: Machine<C, V>, s: Stmt, env: Env, mem: Mem<C>)
    ensures ExecAll(M, [s], env, mem) == Exec(M, s, env, mem)
  {
    assert ExecAll(M, [s], env, mem) == ExecAll(M, [s][1..], env, Exec(M, s, env, mem));
  }

  /** The exact condition for a candidate below another operator: taking it out is right whatever that
      operator means if and only if its value fits the temporary, or the store changes no cell. */
  lemma NestedCandidateIff<S(!new)>(A: Arithmetic<S>, ch: Choice, g: string, e: Expr, ix: Index, o: Name, st: State,
      env: Env, mem: Mem<Cells<S>>, a: S, b: S)
    requires a != b && g != "transpose" && Without(e, g) && o in st.shapes
    requires e.Op? && IsCandidate(e.op) && CountArgs(e.args, |e.args|, true) == 0 && Takes(ch, st)
    requires CellsOf(mem, Tmp(FreshNumber(st.counter, st.Used()))).Keys ==
      Box(TempShape(ch, e, ix, ShapeIn(st.shapes, o), st))
    ensures (forall h: seq<TileValue<S>> -> TileValue<S> ::
      SameUnder(A, g, h, Nested(o, g, e, ix), DecomposeStmt(ch, Nested(o, g, e, ix), st).stmt, o, env, mem)) <==>
      (TileFits(Eval(A.Machine(), e, env, mem), Box(TempShape(ch, e, ix, ShapeIn(st.shapes, o), st)),
        ResolveAll(ix, env)) ||
       RegionCoords(CellsOf(mem, o).Keys, ResolveAll(ix, env)) == {})
  {
    var t, s := Tmp(FreshNumber(st.counter, st.Used())), Nested(o, g, e, ix);
    var s' := DecomposeStmt(ch, s, st).stmt;
    var r, v, c := ResolveAll(ix, env), Eval(A.Machine(), e, env, mem), CellsOf(mem, o);
    var w := ReadCells(WriteCells(CellsOf(mem, t), r, v), r);
    NestedDecomposed(ch, o, g, e, ix, st, t);
    ReadBackIff(CellsOf(mem, t), r, v);
    forall h: seq<TileValue<S>> -> TileValue<S>
      ensures SameUnder(A, g, h, s, s', o, env, mem) <==> WriteCells(c, r, h([w])) == WriteCells(c, r, h([v]))
    {
      NestedRuns(A, g, h, e, ix, o, env, mem);
      EvalWithout(A, g, h, e, env, mem);
      TakenRuns(A, g, h, e, ix, t, o, env, mem);
    }
    EveryContextIff(c, r, v, w, a, b);
  }

  /** Two tiles can be told apart by what some operator stores of them. */
  lemma EveryContextIff<S(!new)>(c: Cells<S>, r: Region, v: TileValue<S>, w: TileValue<S>, a: S, b: S)
    requires a != b
    ensures (forall h: seq<TileValue<S>> -> TileValue<S> :: WriteCells(c, r, h([w])) == WriteCells(c, r, h([v]))) <==>
            (w == v || RegionCoords(c.Keys, r) == {})
  {
    if RegionCoords(c.Keys, r) == {} {
      forall h: seq<TileValue<S>> -> TileValue<S> ensures WriteCells(c, r, h([w])) == WriteCells(c, r, h([v])) {
        NothingWritten(c, r, h([w]));
        NothingWritten(c, r, h([v]));
      }
    } else if w != v {
      var h := (vs: seq<TileValue<S>>) => if vs == [v] then Uniform(a) else Uniform(b);
      UniformsDiffer(c, r, a, b);
      assert WriteCells(c, r, h([w])) != WriteCells(c, r, h([v]));
    }
  }

  lemma NothingWritten<S>(c: Cells<S>, r: Region, v: TileValue<S>)
    requires RegionCoords(c.Keys, r) == {}
    ensures WriteCells(c, r, v) == c
  {
    forall p | p in c ensures InRegion(r, p) ==> Relative(r, p) in RegionCoords(c.Keys, r) {
      if InRegion(r, p) { AbsoluteRelative(r, p); }
    }
    assert forall p :: p in c ==> !InRegion(r, p);
  }

  lemma UniformsDiffer<S>(c: Cells<S>, r: Region, a: S, b: S)
    requires a != b && RegionCoords(c.Keys, r) != {}
    ensures WriteCells(c, r, Uniform(a)) != WriteCells(c, r, Uniform(b))
  {
    var q :| q in RegionCoords(c.Keys, r);
    var p := Absolute(r, q);
    assert WriteCells(c, r, Uniform(a))[p] == a && WriteCells(c, r, Uniform(b))[p] == b;
  }

  // A matrix product needs the whole row of its left operand, but the temporary of that operand is
  // stored at the product's own index.

  function Dot(a: map<Coord, int>, b: map<Coord, int>, i: int, j: int, n: nat): int {
    if n == 0 then 0
    else Dot(a, b, i, j, n - 1) + if [i, n - 1] in a && [n - 1, j] in b then a[[i, n - 1]] * b[[n - 1, j]] else 0
  }

  /** The product of tiles with inner extent two. */
  function Product(a: map<Coord, int>, b: map<Coord, int>): map<Coord, int> {
    var cells := set x, y | x in a && y in b && |x| == 2 && |y| == 2 :: [x[0], y[1]];
    map p | p in cells :: Dot(a, b, p[0], p[1], 2)
  }

  function MatrixApply(op: Oper, vs: seq<TileValue<int>>): TileValue<int> {
    if op == Matmul && |vs| == 2 && vs[0].Grid? && vs[1].Grid? then Grid(Product(vs[0].cells, vs[1].cells))
    else if vs == [] then Uniform(0)
    else vs[0]
  }

  function MatrixArithmetic(): Arithmetic<int> {
    Arithmetic(_ => 1, _ => 0, (_, _) => Uniform(0), MatrixApply, (_, xs) => if xs == [] then 0 else xs[0])
  }

  const ROW: Index := [ConstTile(0, 1), FullTile]
  const COLUMN: Index := [FullTile, ConstTile(0, 1)]
  const CORNER: Index := [ConstTile(0, 1), ConstTile(0, 1)]
  const LEFT: Expr := Op(Exp, [Load("a", ROW)])
  const PRODUCT: Stmt := Store("o", Op(Matmul, [LEFT, Load("b", COLUMN)]), CORNER)

  function MatrixShapes(): map<Name, Dims> { map["a" := [1, 2], "b" := [2, 1], "o" := [1, 1]] }

  lemma FirstTemps(t: Name, u: Name)
    requires t == Tmp(1) && u == Tmp(2)
    ensures FreshNumber(0, {"a", "b", "o"}) == 1 && FreshNumber(1, {"a", "b", "o", t}) == 2
  {
    assert |t| >= 4 && |u| >= 4;
    if t == u { TmpInjective(1, 2); }
  }

  /** What the pass makes of the product: a temporary of shape [1, 2] for the left operand, and one of
      shape [1, 1] for the product, both stored at the product's index. */
  lemma ProductDecomposed(t: Name, u: Name)
    requires t == Tmp(1) && u == Tmp(2)
    ensures var done := Decomposed(PRODUCT, MatrixShapes(), 1.0);
      && done.stmt == Block([Store(t, LEFT, CORNER), Store(u, Op(Matmul, [Load(t, CORNER), Load("b", COLUMN)]), CORNER),
        Store("o", Load(u, CORNER), CORNER)])
      && done.state.shapes == MatrixShapes()[t := [1, 2]][u := [1, 1]]
  {
    var st, dims := State(0, MatrixShapes(), [], 0), [1, 1];
    FirstTemps(t, u);
    assert st.Used() == {"a", "b", "o"};
    TakenAlone(Always, LEFT, CORNER, dims, st, t);
    LeftState(dims, st, t);
    var one := Decompose(Always, LEFT, CORNER, dims, true, st);
    SecondOperand(LEFT, Load("b", COLUMN), CORNER, dims, st, one);
    ProductShape(t, dims, one.state.shapes);
    assert one.state.Used() == {"a", "b", "o", t};
    assert ChoiceFor(CountStmt(PRODUCT), Clamped(1.0)) == Always;
    assert [Store(t, LEFT, CORNER)] + [Store(u, Op(Matmul, [Load(t, CORNER), Load("b", COLUMN)]), CORNER)] +
      [Store("o", Load(u, CORNER), CORNER)] ==
      [Store(t, LEFT, CORNER), Store(u, Op(Matmul, [Load(t, CORNER), Load("b", COLUMN)]), CORNER),
        Store("o", Load(u, CORNER), CORNER)];
  }

  lemma SecondOperand(left: Expr, right: Expr, ix: Index, dims: Dims, st: State, one: Done)
    requires right.Load? && one == Decompose(Always, left, ix, dims, true, st)
    ensures DecomposeArgs(Always, [left, right], 2, ix, dims, true, st) ==
      DoneAll([one.expr, right], one.prelude, one.state)
  {
    var rest := DoneAll([right], [], one.state);
    NoCandidates(Always, [right], 1, ix, dims, true, one.state);
    assert [left, right][1..] == [right];
    OperandsAre(Always, [left, right], 2, ix, dims, true, st, one, rest);
    assert [one.expr] + [right] == [one.expr, right] && one.prelude + [] == one.prelude;
  }

  lemma LeftState(dims: Dims, st: State, t: Name)
    requires st.shapes == MatrixShapes() && st.counter == 0 && t == Tmp(1) && FreshNumber(0, st.Used()) == 1
    ensures Decompose(Always, LEFT, CORNER, dims, true, st).state ==
      State(1, MatrixShapes()[t := [1, 2]], st.temps + [t], st.met)
  {
    NoCandidates(Always, LEFT.args, 1, CORNER, dims, true, st);
    var below := seq(|LEFT.args|, k requires 0 <= k < |LEFT.args| => InferShape(LEFT.args[k], st.shapes, dims));
    assert below[0] == InferShape(Load("a", ROW), st.shapes, dims) == [1, 2];
    assert InferShape(LEFT, st.shapes, dims) == ShapeOf(Exp, LEFT.args, below, dims) == [1, 2];
  }

  lemma ProductShape(t: Name, dims: Dims, shapes: map<Name, Dims>)
    requires t in shapes && "b" in shapes && shapes[t] == [1, 2] && shapes["b"] == [2, 1]
    ensures InferShape(Op(Matmul, [Load(t, CORNER), Load("b", COLUMN)]), shapes, dims) == dims
  {
    var args := [Load(t, CORNER), Load("b", COLUMN)];
    var below := seq(|args|, k requires 0 <= k < |args| => InferShape(args[k], shapes, dims));
    assert below[0] == InferShape(args[0], shapes, dims) == [1, 2];
    assert below[1] == InferShape(args[1], shapes, dims) == [2, 1];
    assert below[0][0] != below[1][0];
  }

  lemma AtOrigin(r: Region, q: Coord)
    requires |q| == |r| && forall d :: 0 <= d < |r| ==> Base(r[d]) == 0
    ensures Absolute(r, q) == q && Relative(r, q) == q
  {
  }

  /** A tensor with ones in these two cells, as its tile at a region from the origin shows it. */
  ghost predicate Ones(v: TileValue<int>, p: Coord, q: Coord) {
    v.Grid? && p in v.cells && q in v.cells && v.cells[p] == 1 && v.cells[q] == 1
  }

  ghost predicate OnlyFirst(v: TileValue<int>, p: Coord, q: Coord) {
    v.Grid? && p in v.cells && q !in v.cells && v.cells[p] == 1
  }

  lemma ReadOnes(c: Cells<int>, r: Region, p: Coord, q: Coord)
    requires |p| == |q| == |r| && (forall d :: 0 <= d < |r| ==> Base(r[d]) == 0) && InRegion(r, p) && InRegion(r, q)
    requires p in c && q in c && c[p] == 1 && c[q] == 1
    ensures Ones(ReadCells(c, r), p, q)
  {
    AtOrigin(r, p);
    AtOrigin(r, q);
  }

  /** Stored to the region of p alone, the other cell of the tile is lost. */
  lemma StoredOnes(c: Cells<int>, r: Region, v: TileValue<int>, p: Coord, q: Coord)
    requires |p| == |q| == |r| && (forall d :: 0 <= d < |r| ==> Base(r[d]) == 0) && InRegion(r, p) && !InRegion(r, q)
    requires p in c && Ones(v, p, q)
    ensures OnlyFirst(ReadCells(WriteCells(c, r, v), r), p, q)
  {
    AtOrigin(r, p);
    AtOrigin(r, q);
  }

  lemma ProductCorner(a: TileValue<int>, b: TileValue<int>)
    requires Ones(b, [0, 0], [1, 0]) && (Ones(a, [0, 0], [0, 1]) || OnlyFirst(a, [0, 0], [0, 1]))
    ensures var v := MatrixApply(Matmul, [a, b]);
            v.Grid? && [0, 0] in v.cells && v.cells[[0, 0]] == if Ones(a, [0, 0], [0, 1]) then 2 else 1
  {
    var x, y: Coord := [0, 0], [0, 0];
    assert [x[0], y[1]] == [0, 0];
    var g, h := a.cells, b.cells;
    assert Dot(g, h, 0, 0, 0) == 0;
    assert Dot(g, h, 0, 0, 1) == 1;
    assert Dot(g, h, 0, 0, 2) == if [0, 1] in g then 2 else 1;
  }

  /** What a store to the corner leaves there, and what is read back from it. */
  lemma CornerStored(c: Cells<int>, v: TileValue<int>)
    requires [0, 0] in c && v.Grid? && [0, 0] in v.cells
    ensures var c', r := WriteCells(c, [Span(0, 1), Span(0, 1)], v), [Span(0, 1), Span(0, 1)];
      && [0, 0] in c' && c'[[0, 0]] == v.cells[[0, 0]]
      && ReadCells(c', r).Grid? && [0, 0] in ReadCells(c', r).cells && ReadCells(c', r).cells[[0, 0]] == v.cells[[0, 0]]
  {
    AtOrigin([Span(0, 1), Span(0, 1)], [0, 0]);
  }

  lemma MatrixIndices()
    ensures ResolveAll(ROW, map[]) == [Span(0, 1), Full] && ResolveAll(COLUMN, map[]) == [Full, Span(0, 1)]
    ensures ResolveAll(CORNER, map[]) == [Span(0, 1), Span(0, 1)]
  {
  }

  /** A row of ones and a column of ones. */
  ghost predicate OnesGiven(mem: Mem<Cells<int>>) {
    && CellsOf(mem, "a") == map[[0, 0] := 1, [0, 1] := 1]
    && CellsOf(mem, "b") == map[[0, 0] := 1, [1, 0] := 1]
    && [0, 0] in CellsOf(mem, "o")
  }

  lemma LeftRead(A: Arithmetic<int>, mem: Mem<Cells<int>>)
    requires OnesGiven(mem) && Multiplies(A)
    ensures Ones(Eval(A.Machine(), LEFT, map[], mem), [0, 0], [0, 1])
  {
    MatrixIndices();
    ReadOnes(CellsOf(mem, "a"), [Span(0, 1), Full], [0, 0], [0, 1]);
    LoadRuns(A, "a", ROW, map[], mem);
    assert EvalAll(A.Machine(), LEFT.args, map[], mem) == [Eval(A.Machine(), Load("a", ROW), map[], mem)];
  }

  lemma RightRead(A: Arithmetic<int>, mem: Mem<Cells<int>>)
    requires OnesGiven(mem)
    ensures Ones(Eval(A.Machine(), Load("b", COLUMN), map[], mem), [0, 0], [1, 0])
  {
    MatrixIndices();
    ReadOnes(CellsOf(mem, "b"), [Full, Span(0, 1)], [0, 0], [1, 0]);
    LoadRuns(A, "b", COLUMN, map[], mem);
  }

  lemma StoreRuns<S>(A: Arithmetic<S>, o: Name, e: Expr, ix: Index, env: Env, mem: Mem<Cells<S>>)
    ensures Exec(A.Machine(), Store(o, e, ix), env, mem) ==
      mem[o := WriteCells(CellsOf(mem, o), ResolveAll(ix, env), Eval(A.Machine(), e, env, mem))]
  {
    assert Get(A.Machine(), mem, o) == CellsOf(mem, o);
  }

  lemma LoadRuns<S>(A: Arithmetic<S>, t: Name, ix: Index, env: Env, mem: Mem<Cells<S>>)
    ensures Eval(A.Machine(), Load(t, ix), env, mem) == ReadCells(CellsOf(mem, t), ResolveAll(ix, env))
  {
    assert Get(A.Machine(), mem, t) == CellsOf(mem, t);
  }

  /** An arithmetic with the matrix product of tiles, and the one operand left as it is by exp. */
  ghost predicate Multiplies(A: Arithmetic<int>) {
    (forall a, b :: A.apply(Matmul, [a, b]) == MatrixApply(Matmul, [a, b])) && forall a :: A.apply(Exp, [a]) == a
  }

  lemma MatrixMultiplies()
    ensures Multiplies(MatrixArithmetic())
  {
  }

  lemma ProductValue(A: Arithmetic<int>, left: Expr, right: Expr, mem: Mem<Cells<int>>, a: TileValue<int>,
      b: TileValue<int>)
    requires Multiplies(A) && a == Eval(A.Machine(), left, map[], mem) && b == Eval(A.Machine(), right, map[], mem)
    ensures Eval(A.Machine(), Op(Matmul, [left, right]), map[], mem) == MatrixApply(Matmul, [a, b])
  {
    OperatorRuns(A, Matmul, [left, right], mem, [a, b]);
  }

  lemma OperatorRuns<S>(A: Arithmetic<S>, op: Oper, args: seq<Expr>, mem: Mem<Cells<S>>, vs: seq<TileValue<S>>)
    requires |vs| == |args| && forall k :: 0 <= k < |args| ==> vs[k] == Eval(A.Machine(), args[k], map[], mem)
    ensures Eval(A.Machine(), Op(op, args), map[], mem) == A.apply(op, vs)
  {
    assert EvalAll(A.Machine(), args, map[], mem) == vs;
  }

  lemma ProductStores(A: Arithmetic<int>, left: Expr, right: Expr, ix: Index, o: Name, mem: Mem<Cells<int>>,
      a: TileValue<int>, b: TileValue<int>)
    requires Multiplies(A) && [0, 0] in CellsOf(mem, o) && IsCorner(ix)
    requires a == Eval(A.Machine(), left, map[], mem) && b == Eval(A.Machine(), right, map[], mem)
    requires Ones(b, [0, 0], [1, 0]) && (Ones(a, [0, 0], [0, 1]) || OnlyFirst(a, [0, 0], [0, 1]))
    ensures CornerIs(CellsOf(Exec(A.Machine(), Store(o, Op(Matmul, [left, right]), ix), map[], mem), o),
      if Ones(a, [0, 0], [0, 1]) then 2 else 1)
  {
    ProductValue(A, left, right, mem, a, b);
    ProductCorner(a, b);
    CornerStored(CellsOf(mem, o), MatrixApply(Matmul, [a, b]));
    StoreRuns(A, o, Op(Matmul, [left, right]), ix, map[], mem);
  }

  /** The corner of a region from the origin. */
  ghost predicate IsCorner(ix: Index) { ResolveAll(ix, map[]) == [Span(0, 1), Span(0, 1)] }

  /** A tensor with x in its corner, where it is also read. */
  ghost predicate CornerIs(c: Cells<int>, x: int) {
    && [0, 0] in c && c[[0, 0]] == x
    && var back := ReadCells(c, [Span(0, 1), Span(0, 1)]); back.Grid? && [0, 0] in back.cells && back.cells[[0, 0]] == x
  }

  lemma CopyStores(A: Arithmetic<int>, u: Name, ix: Index, o: Name, mem: Mem<Cells<int>>, x: int)
    requires [0, 0] in CellsOf(mem, o) && IsCorner(ix) && CornerIs(CellsOf(mem, u), x)
    ensures CornerIs(CellsOf(Exec(A.Machine(), Store(o, Load(u, ix), ix), map[], mem), o), x)
  {
    LoadRuns(A, u, ix, map[], mem);
    StoreRuns(A, o, Load(u, ix), ix, map[], mem);
    CornerStored(CellsOf(mem, o), ReadCells(CellsOf(mem, u), [Span(0, 1), Span(0, 1)]));
  }

  lemma UnitRegion()
    ensures var r := [Span(0, 1), Span(0, 1)]; InRegion(r, [0, 0]) && !InRegion(r, [0, 1])
  {
    assert !InExtent(Span(0, 1), 1);
    assert [0, 1][1] == 1;
  }

  lemma LeftStored(A: Arithmetic<int>, t: Name, left: Expr, ix: Index, mem: Mem<Cells<int>>)
    requires IsCorner(ix) && Ones(Eval(A.Machine(), left, map[], mem), [0, 0], [0, 1]) && [0, 0] in CellsOf(mem, t)
    ensures OnlyFirst(Eval(A.Machine(), Load(t, ix), map[], Exec(A.Machine(), Store(t, left, ix), map[], mem)), [0, 0],
      [0, 1])
  {
    StoreRuns(A, t, left, ix, map[], mem);
    LoadRuns(A, t, ix, map[], Exec(A.Machine(), Store(t, left, ix), map[], mem));
    UnitRegion();
    StoredOnes(CellsOf(mem, t), [Span(0, 1), Span(0, 1)], Eval(A.Machine(), left, map[], mem), [0, 0], [0, 1]);
  }

  lemma OtherLoad<S>(A: Arithmetic<S>, t: Name, e: Expr, ix: Index, b: Name, jx: Index, mem: Mem<Cells<S>>)
    requires t != b
    ensures Eval(A.Machine(), Load(b, jx), map[], Exec(A.Machine(), Store(t, e, ix), map[], mem)) ==
      Eval(A.Machine(), Load(b, jx), map[], mem)
    ensures forall n :: n != t ==> CellsOf(Exec(A.Machine(), Store(t, e, ix), map[], mem), n) == CellsOf(mem, n)
  {
    StoreRuns(A, t, e, ix, map[], mem);
    LoadRuns(A, b, jx, map[], mem);
    LoadRuns(A, b, jx, map[], Exec(A.Machine(), Store(t, e, ix), map[], mem));
  }

  /** An input on which the pass changes a result: the product of a row and a column of ones is 2, and 1
      after the pass, whose temporary for the left operand keeps only the first cell of the row. */
  lemma MatmulOperandIsCut(mem: Mem<Cells<int>>)
    requires OnesGiven(mem) &&
      Allocated(mem, MatrixShapes().Keys, Decomposed(PRODUCT, MatrixShapes(), 1.0).state.shapes)
    ensures var before, after := Exec(MatrixArithmetic().Machine(), PRODUCT, map[], mem),
                                 Exec(MatrixArithmetic().Machine(), Decomposed(PRODUCT, MatrixShapes(), 1.0).stmt,
                                   map[], mem);
      && [0, 0] in CellsOf(before, "o") && CellsOf(before, "o")[[0, 0]] == 2
      && [0, 0] in CellsOf(after, "o") && CellsOf(after, "o")[[0, 0]] == 1
  {
    var t, u := Tmp(1), Tmp(2);
    MatrixIndices();
    MatrixMultiplies();
    ProductDecomposed(t, u);
    TempsApart(t, u);
    ProductBefore(MatrixArithmetic(), mem);
    CornerInBoxes();
    ProductAfter(MatrixArithmetic(), t, u, mem);
  }

  lemma ProductBefore(A: Arithmetic<int>, mem: Mem<Cells<int>>)
    requires OnesGiven(mem) && Multiplies(A)
    ensures CornerIs(CellsOf(Exec(A.Machine(), PRODUCT, map[], mem), "o"), 2)
  {
    MatrixIndices();
    LeftRead(A, mem);
    RightRead(A, mem);
    ProductStores(A, LEFT, Load("b", COLUMN), CORNER, "o", mem, Eval(A.Machine(), LEFT, map[], mem),
      Eval(A.Machine(), Load("b", COLUMN), map[], mem));
  }

  lemma CornerInBoxes()
    ensures [0, 0] in Box([1, 2]) && [0, 0] in Box([1, 1])
  {
    assert InBox([1, 2], [0, 0]) && InBox([1, 1], [0, 0]);
  }

  lemma ProductAfter(A: Arithmetic<int>, t: Name, u: Name, mem: Mem<Cells<int>>)
    requires OnesGiven(mem) && Multiplies(A) && t != u && t != "b" && u != "b" && t != "o" && u != "o"
    requires [0, 0] in CellsOf(mem, t) && [0, 0] in CellsOf(mem, u)
    ensures var run := [Store(t, LEFT, CORNER), Store(u, Op(Matmul, [Load(t, CORNER), Load("b", COLUMN)]), CORNER),
      Store("o", Load(u, CORNER), CORNER)];
      CornerIs(CellsOf(Exec(A.Machine(), Block(run), map[], mem), "o"), 1)
  {
    MatrixIndices();
    LeftRead(A, mem);
    RightRead(A, mem);
    CutRuns(A, LEFT, "b", COLUMN, CORNER, t, u, "o", mem);
  }

  lemma TempsApart(t: Name, u: Name)
    requires t == Tmp(1) && u == Tmp(2)
    ensures t != u && t != "b" && u != "b" && t != "o" && u != "o" && t !in MatrixShapes() && u !in MatrixShapes()
  {
    assert |t| >= 4 && |u| >= 4;
    if t == u { TmpInjective(1, 2); }
  }

  lemma CutRuns(A: Arithmetic<int>, left: Expr, b: Name, jx: Index, ix: Index, t: Name, u: Name, o: Name,
      mem: Mem<Cells<int>>)
    requires Multiplies(A) && IsCorner(ix) && t != u && t != b && u != b && t != o && u != o
    requires [0, 0] in CellsOf(mem, t) && [0, 0] in CellsOf(mem, u) && [0, 0] in CellsOf(mem, o)
    requires Ones(Eval(A.Machine(), left, map[], mem), [0, 0], [0, 1]) &&
      Ones(Eval(A.Machine(), Load(b, jx), map[], mem), [0, 0], [1, 0])
    ensures var run := [Store(t, left, ix), Store(u, Op(Matmul, [Load(t, ix), Load(b, jx)]), ix),
      Store(o, Load(u, ix), ix)];
      CornerIs(CellsOf(Exec(A.Machine(), Block(run), map[], mem), o), 1)
  {
    var M := A.Machine();
    var mem1 := Exec(M, Store(t, left, ix), map[], mem);
    FirstHalf(A, left, b, jx, ix, t, u, o, mem);
    SecondHalf(A, Load(t, ix), Load(b, jx), ix, u, o, mem1);
    ThreeStatements(M, Store(t, left, ix), Store(u, Op(Matmul, [Load(t, ix), Load(b, jx)]), ix),
      Store(o, Load(u, ix), ix), mem);
  }

  lemma FirstHalf(A: Arithmetic<int>, left: Expr, b: Name, jx: Index, ix: Index, t: Name, u: Name, o: Name,
      mem: Mem<Cells<int>>)
    requires IsCorner(ix) && t != u && t != b && t != o
    requires [0, 0] in CellsOf(mem, t) && [0, 0] in CellsOf(mem, u) && [0, 0] in CellsOf(mem, o)
    requires Ones(Eval(A.Machine(), left, map[], mem), [0, 0], [0, 1]) &&
      Ones(Eval(A.Machine(), Load(b, jx), map[], mem), [0, 0], [1, 0])
    ensures var mem1 := Exec(A.Machine(), Store(t, left, ix), map[], mem);
      && [0, 0] in CellsOf(mem1, u) && [0, 0] in CellsOf(mem1, o)
      && OnlyFirst(Eval(A.Machine(), Load(t, ix), map[], mem1), [0, 0], [0, 1])
      && Ones(Eval(A.Machine(), Load(b, jx), map[], mem1), [0, 0], [1, 0])
  {
    LeftStored(A, t, left, ix, mem);
    OtherLoad(A, t, left, ix, b, jx, mem);
  }

  lemma SecondHalf(A: Arithmetic<int>, left: Expr, right: Expr, ix: Index, u: Name, o: Name, mem: Mem<Cells<int>>)
    requires Multiplies(A) && IsCorner(ix) && u != o && [0, 0] in CellsOf(mem, u) && [0, 0] in CellsOf(mem, o)
    requires OnlyFirst(Eval(A.Machine(), left, map[], mem), [0, 0], [0, 1]) &&
      Ones(Eval(A.Machine(), right, map[], mem), [0, 0], [1, 0])
    ensures var mem' := Exec(A.Machine(), Store(u, Op(Matmul, [left, right]), ix), map[], mem);
      CornerIs(CellsOf(Exec(A.Machine(), Store(o, Load(u, ix), ix), map[], mem'), o), 1)
  {
    var M, product := A.Machine(), Op(Matmul, [left, right]);
    ProductStores(A, left, right, ix, u, mem, Eval(M, left, map[], mem), Eval(M, right, map[], mem));
    OtherLoad(A, u, product, ix, o, ix, mem);
    CopyStores(A, u, ix, o, Exec(M, Store(u, product, ix), map[], mem), 1);
  }

  lemma ThreeStatements<C, V>(M: Machine<C, V>, first: Stmt, second: Stmt, third: Stmt, mem: Mem<C>)
    ensures Exec(M, Block([first, second, third]), map[], mem) ==
      Exec(M, third, map[], Exec(M, second, map[], Exec(M, first, map[], mem)))
  {
    OneStatement(M, first, map[], mem);
    PreludeThenStore(M, [first], second, map[], mem);
    PreludeThenStore(M, [first] + [second], third, map[], mem);
    ListedThree(first, second, third);
    BlockIsAll(M, [first] + [second] + [third], mem);
  }

  lemma ListedThree(first: Stmt, second: Stmt, third: Stmt)
    ensures [first] + [second] + [third] == [first, second, third]
  {
  }

  lemma BlockIsAll<C, V>(M: Machine<C, V>, ss: seq<Stmt>, mem: Mem<C>)
    ensures Exec(M, Block(ss), map[], mem) == ExecAll(M, ss, map[], mem)
  {
  }

  // ---------------------------------------------------------------------------------------------
  // Fitting, checked before the program runs

  /** The cells of a tile; none if it is uniform. */
  type Footprint = Option<set<Coord>>

  function FootprintOf<S>(v: TileValue<S>): Footprint { if v.Uniform? then None else Some(v.cells.Keys) }

  function FootprintsOf<S>(vs: seq<TileValue<S>>): seq<Footprint> {
    seq(|vs|, k requires 0 <= k < |vs| => FootprintOf(vs[k]))
  }

  /** How the cells of a result follow from those of the operands, and from the bounds of a range. */
  datatype Footprints = Footprints(cells: (Oper, seq<Footprint>) -> Footprint, ranges: (int, int) -> Footprint)

  ghost predicate CellsDetermined<S(!new)>(A: Arithmetic<S>, fp: Footprints) {
    && (forall op, vs :: FootprintOf(A.apply(op, vs)) == fp.cells(op, FootprintsOf(vs)))
    && forall lo, n :: FootprintOf(A.arange(lo, n)) == fp.ranges(lo, n)
  }

  /** The cells of an expression's value, from the shapes alone. */
  function ExprCells(fp: Footprints, e: Expr, env: Env, shapes: map<Name, Dims>): Footprint
    decreases e, 1
  {
    match e
    case Load(t, ix) => Some(RegionCoords(Box(ShapeIn(shapes, t)), ResolveAll(ix, env)))
    case Const(_) => None
    case Arange(x) => fp.ranges(Lookup(env, x).value, Lookup(env, x).step)
    case Op(op, args) => fp.cells(op, ArgCells(fp, args, env, shapes))
  }

  function ArgCells(fp: Footprints, args: seq<Expr>, env: Env, shapes: map<Name, Dims>): (r: seq<Footprint>)
    ensures |r| == |args| && forall k :: 0 <= k < |args| ==> r[k] == ExprCells(fp, args[k], env, shapes)
    decreases args, 0
  {
    seq(|args|, k requires 0 <= k < |args| => ExprCells(fp, args[k], env, shapes))
  }

  lemma {:induction false} CellsOfValue<S(!new)>(A: Arithmetic<S>, fp: Footprints, e: Expr, env: Env,
      shapes: map<Name, Dims>, mem: Mem<Cells<S>>)
    requires CellsDetermined(A, fp) && InShape(mem, shapes) && Loads(e) <= shapes.Keys
    ensures FootprintOf(Eval(A.Machine(), e, env, mem)) == ExprCells(fp, e, env, shapes)
  {
    match e
    case Load(t, ix) =>
      LoadRuns(A, t, ix, env, mem);
      assert ReadCells(CellsOf(mem, t), ResolveAll(ix, env)).cells.Keys ==
        RegionCoords(Box(shapes[t]), ResolveAll(ix, env));
    case Const(_) =>
    case Arange(x) => assert Eval(A.Machine(), e, env, mem) == A.arange(Lookup(env, x).value, Lookup(env, x).step);
    case Op(op, args) =>
      var vs := EvalAll(A.Machine(), args, env, mem);
      forall k | 0 <= k < |args| ensures FootprintsOf(vs)[k] == ArgCells(fp, args, env, shapes)[k] {
        forall n | n in Loads(args[k]) ensures n in shapes { assert n in Loads(e); }
        CellsOfValue(A, fp, args[k], env, shapes, mem);
      }
      assert FootprintsOf(vs) == ArgCells(fp, args, env, shapes);
  }

  /** Every candidate taken out of the expression has the cells of its region in its temporary. */
  predicate ExprChecked(fp: Footprints, ch: Choice, e: Expr, ix: Index, dest: Dims, allow: bool, st: State, env: Env,
      shapes: map<Name, Dims>)
    decreases e, 1
  {
    match e
    case Op(op, args) =>
      if allow && IsCandidate(op) then
        && ArgsChecked(fp, ch, args, |args|, ix, dest, true, Meet(ch, st), env, shapes)
        && (Takes(ch, st) ==>
          ExprCells(fp, e, env, shapes) == Some(RegionCoords(Box(TempShape(ch, e, ix, dest, st)), ResolveAll(ix, env))))
      else ArgsChecked(fp, ch, args, Visited(op, args), ChildIndex(op, args, ix), dest, allow && !IsReduce(op), st, env,
        shapes)
    case _ => true
  }

  predicate ArgsChecked(fp: Footprints, ch: Choice, args: seq<Expr>, n: nat, ix: Index, dest: Dims, allow: bool,
      st: State, env: Env, shapes: map<Name, Dims>)
    decreases args, 0
  {
    n == 0 || args == [] ||
      (ExprChecked(fp, ch, args[0], ix, dest, allow, st, env, shapes) &&
       ArgsChecked(fp, ch, args[1..], n - 1, ix, dest, allow, Decompose(ch, args[0], ix, dest, allow, st).state, env,
         shapes))
  }

  /** At the store itself: where the destination has cells, the candidate has them where the temporary has. */
  predicate StoreChecked(fp: Footprints, ch: Choice, t: Name, v: Expr, ix: Index, st: State, env: Env,
      shapes: map<Name, Dims>)
  {
    var dest, r := ShapeIn(st.shapes, t), ResolveAll(ix, env);
    if TakenAtStore(ch, v, st) then
      && ArgsChecked(fp, ch, v.args, |v.args|, ix, dest, true, Meet(ch, st), env, shapes)
      && var cells := ExprCells(fp, v, env, shapes);
         forall q :: q in RegionCoords(Box(ShapeIn(shapes, t)), r) ==>
           ((cells.None? || q in cells.value) <==> q in RegionCoords(Box(TempShape(ch, v, ix, dest, st)), r))
    else ExprChecked(fp, ch, v, ix, dest, true, st, env, shapes)
  }

  /** So it is for every store and every round of the loops around it. */
  predicate StmtChecked(fp: Footprints, size: string -> pos, ch: Choice, s: Stmt, st: State, env: Env,
      shapes: map<Name, Dims>)
    decreases s, 1, 0
  {
    match s
    case Store(t, v, ix) => StoreChecked(fp, ch, t, v, ix, st, env, shapes)
    case Loop(lo, hi, tile, x, b) =>
      LoopChecked(fp, size, ch, b, st, x, size(tile), BoundValue(lo, env), BoundValue(hi, env), env, shapes)
    case Seq(l, r) =>
      StmtChecked(fp, size, ch, l, st, env, shapes) &&
      StmtChecked(fp, size, ch, r, DecomposeStmt(ch, l, st).state, env, shapes)
    case Block(ss) => StmtsChecked(fp, size, ch, ss, st, env, shapes)
  }

  predicate LoopChecked(fp: Footprints, size: string -> pos, ch: Choice, b: Stmt, st: State, x: Name, step: pos,
      lo: int, hi: int, env: Env, shapes: map<Name, Dims>)
    decreases b, 2, 0
  {
    forall v :: lo <= v < hi && Visits(v, step, lo, hi) ==>
      StmtChecked(fp, size, ch, b, st, Bind(env, x, v, step), shapes)
  }

  predicate StmtsChecked(fp: Footprints, size: string -> pos, ch: Choice, ss: seq<Stmt>, st: State, env: Env,
      shapes: map<Name, Dims>)
    decreases ss, 0, 0
  {
    ss == [] ||
      (StmtChecked(fp, size, ch, ss[0], st, env, shapes) &&
        StmtsChecked(fp, size, ch, ss[1..], DecomposeStmt(ch, ss[0], st).state, env, shapes))
  }

  lemma FitIsFootprint<S(!new)>(A: Arithmetic<S>, fp: Footprints, e: Expr, ix: Index, dims: Dims, env: Env,
      shapes: map<Name, Dims>, mem: Mem<Cells<S>>)
    requires CellsDetermined(A, fp) && InShape(mem, shapes) && Loads(e) <= shapes.Keys
    ensures TileFits(Eval(A.Machine(), e, env, mem), Box(dims), ResolveAll(ix, env)) <==>
      ExprCells(fp, e, env, shapes) == Some(RegionCoords(Box(dims), ResolveAll(ix, env)))
  {
    CellsOfValue(A, fp, e, env, shapes, mem);
  }

  lemma {:induction false} ExprCheckDecides<S(!new)>(A: Arithmetic<S>, fp: Footprints, ch: Choice, e: Expr, ix: Index,
      dest: Dims, allow: bool, st: State, env: Env, shapes: map<Name, Dims>, mem: Mem<Cells<S>>)
    requires CellsDetermined(A, fp) && InShape(mem, shapes) && Loads(e) <= shapes.Keys
    ensures FitsExpr(A, ch, e, ix, dest, allow, st, env, mem) <==>
      ExprChecked(fp, ch, e, ix, dest, allow, st, env, shapes)
    decreases e, 1
  {
    match e
    case Op(op, args) =>
      forall a | a in args ensures Loads(a) <= shapes.Keys {
        forall n | n in Loads(a) ensures n in shapes { assert n in Loads(e); }
      }
      if allow && IsCandidate(op) {
        ArgsCheckDecides(A, fp, ch, args, |args|, ix, dest, true, Meet(ch, st), env, shapes, mem);
        FitIsFootprint(A, fp, e, ix, TempShape(ch, e, ix, dest, st), env, shapes, mem);
      } else {
        ArgsCheckDecides(A, fp, ch, args, Visited(op, args), ChildIndex(op, args, ix), dest, allow && !IsReduce(op), st,
          env, shapes, mem);
      }
    case _ =>
  }

  lemma {:induction false} ArgsCheckDecides<S(!new)>(A: Arithmetic<S>, fp: Footprints, ch: Choice, args: seq<Expr>,
      n: nat, ix: Index, dest: Dims, allow: bool, st: State, env: Env, shapes: map<Name, Dims>, mem: Mem<Cells<S>>)
    requires CellsDetermined(A, fp) && InShape(mem, shapes) && forall a :: a in args ==> Loads(a) <= shapes.Keys
    ensures FitsArgs(A, ch, args, n, ix, dest, allow, st, env, mem) <==>
      ArgsChecked(fp, ch, args, n, ix, dest, allow, st, env, shapes)
    decreases args, 0
  {
    if n != 0 && args != [] {
      assert args[0] in args;
      ExprCheckDecides(A, fp, ch, args[0], ix, dest, allow, st, env, shapes, mem);
      ArgsCheckDecides(A, fp, ch, args[1..], n - 1, ix, dest, allow, Decompose(ch, args[0], ix, dest, allow, st).state,
        env, shapes, mem);
    }
  }

  lemma StoreCheckDecides<S(!new)>(A: Arithmetic<S>, fp: Footprints, ch: Choice, t: Name, v: Expr, ix: Index, st: State,
      env: Env, shapes: map<Name, Dims>, mem: Mem<Cells<S>>)
    requires CellsDetermined(A, fp) && InShape(mem, shapes) && Loads(v) + {t} <= shapes.Keys
    ensures FitsStore(A, ch, t, v, ix, st, env, mem) <==> StoreChecked(fp, ch, t, v, ix, st, env, shapes)
  {
    var dest := ShapeIn(st.shapes, t);
    if TakenAtStore(ch, v, st) {
      forall a | a in v.args ensures Loads(a) <= shapes.Keys {
        forall n | n in Loads(a) ensures n in shapes { assert n in Loads(v); }
      }
      ArgsCheckDecides(A, fp, ch, v.args, |v.args|, ix, dest, true, Meet(ch, st), env, shapes, mem);
      CellsOfValue(A, fp, v, env, shapes, mem);
    } else {
      ExprCheckDecides(A, fp, ch, v, ix, dest, true, st, env, shapes, mem);
    }
  }

  /** Whether all candidates fit is decided by the shapes, the sizes of the tiles and the bounds of the
      loops: it can be checked before the program runs. */
  lemma {:induction false} CheckDecides<S(!new)>(A: Arithmetic<S>, fp: Footprints, ch: Choice, s: Stmt, st: State,
      env: Env, shapes: map<Name, Dims>, mem: Mem<Cells<S>>)
    requires CellsDetermined(A, fp) && InShape(mem, shapes) && StmtLoads(s) + StmtStores(s) <= shapes.Keys
    ensures FitsStmt(A, ch, s, st, env, mem) <==> StmtChecked(fp, A.size, ch, s, st, env, shapes)
    decreases s, 1, 0
  {
    match s
    case Store(t, v, ix) => StoreCheckDecides(A, fp, ch, t, v, ix, st, env, shapes, mem);
    case Loop(lo, hi, tile, x, b) =>
      LoopCheckDecides(A, fp, ch, b, st, x, A.size(tile), BoundValue(lo, env), BoundValue(hi, env), env, shapes, mem);
    case Seq(l, r) =>
      CheckDecides(A, fp, ch, l, st, env, shapes, mem);
      InShapeAfter(A, l, env, mem, shapes);
      CheckDecides(A, fp, ch, r, DecomposeStmt(ch, l, st).state, env, shapes, Exec(A.Machine(), l, env, mem));
    case Block(ss) =>
      assert forall c :: c in ss ==> StmtLoads(c) <= StmtLoads(s) && StmtStores(c) <= StmtStores(s);
      AllCheckDecides(A, fp, ch, ss, st, env, shapes, mem);
  }

  lemma {:induction false} LoopCheckDecides<S(!new)>(A: Arithmetic<S>, fp: Footprints, ch: Choice, b: Stmt, st: State,
      x: Name, step: pos, lo: int, hi: int, env: Env, shapes: map<Name, Dims>, mem: Mem<Cells<S>>)
    requires CellsDetermined(A, fp) && InShape(mem, shapes) && StmtLoads(b) + StmtStores(b) <= shapes.Keys
    ensures FitsLoop(A, ch, b, st, x, step, lo, hi, env, mem) <==>
      LoopChecked(fp, A.size, ch, b, st, x, step, lo, hi, env, shapes)
    decreases b, 2, 0
  {
    forall v ensures FitsStmt(A, ch, b, st, Bind(env, x, v, step),
      Iterate(A.Machine(), b, x, step, lo, v, env, mem)) <==>
      StmtChecked(fp, A.size, ch, b, st, Bind(env, x, v, step), shapes)
    {
      InShapeBefore(A, b, x, step, lo, v, env, mem, shapes);
      CheckDecides(A, fp, ch, b, st, Bind(env, x, v, step), shapes, Iterate(A.Machine(), b, x, step, lo, v, env, mem));
    }
  }

  lemma {:induction false} AllCheckDecides<S(!new)>(A: Arithmetic<S>, fp: Footprints, ch: Choice, ss: seq<Stmt>,
      st: State, env: Env, shapes: map<Name, Dims>, mem: Mem<Cells<S>>)
    requires CellsDetermined(A, fp) && InShape(mem, shapes) && forall c :: c in ss ==>
      StmtLoads(c) + StmtStores(c) <= shapes.Keys
    ensures FitsStmts(A, ch, ss, st, env, mem) <==> StmtsChecked(fp, A.size, ch, ss, st, env, shapes)
    decreases ss, 0, 0
  {
    if ss != [] {
      assert ss[0] in ss;
      CheckDecides(A, fp, ch, ss[0], st, env, shapes, mem);
      InShapeAfter(A, ss[0], env, mem, shapes);
      AllCheckDecides(A, fp, ch, ss[1..], DecomposeStmt(ch, ss[0], st).state, env, shapes,
        Exec(A.Machine(), ss[0], env, mem));
    }
  }
}
