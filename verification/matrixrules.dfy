/** The algebraic rules of the optimizer (optimizer/src/rules.rs:362-396) as they are written there, a pattern on the
    left and one on the right, and one step of the rewriting as one of them at one place of the term. */
module RulePatterns {
  import opened MatrixRules

  /** A pattern's axis is a number, or a variable for one. */
  datatype Axis = Fixed(n: int) | Any

  datatype Pattern =
    | Hole(k: nat)
    | PBin(op: BinOp, a: Pattern, b: Pattern)
    | PConcat(a: Pattern, b: Pattern, axis: Axis)
    | PDiv(a: Pattern, b: Pattern, axis: Axis)

  function AxisOf(axis: Axis, n: int): int { if axis.Any? then n else axis.n }

  /** The term a pattern stands for, given what its variables stand for. */
  function Inst(p: Pattern, terms: seq<Term>, n: int): Term {
    match p
    case Hole(k) => if k < |terms| then terms[k] else Var("")
    case PBin(op, a, b) => Bin(op, Inst(a, terms, n), Inst(b, terms, n))
    case PConcat(a, b, axis) => Concat(Inst(a, terms, n), Inst(b, terms, n), AxisOf(axis, n))
    case PDiv(a, b, axis) => Div(Inst(a, terms, n), Inst(b, terms, n), AxisOf(axis, n))
  }

  const A := Hole(0)
  const B := Hole(1)
  const C := Hole(2)
  const D := Hole(3)

  function Plus2(a: Pattern, b: Pattern): Pattern { PBin(Plus, a, b) }
  function Minus2(a: Pattern, b: Pattern): Pattern { PBin(Minus, a, b) }
  function Times2(a: Pattern, b: Pattern): Pattern { PBin(Times, a, b) }
  function At2(a: Pattern, b: Pattern): Pattern { PBin(At, a, b) }
  function Cat(a: Pattern, b: Pattern, axis: int): Pattern { PConcat(a, b, Fixed(axis)) }
  function CatAny(a: Pattern, b: Pattern): Pattern { PConcat(a, b, Any) }

  /** The two sides of a rule. */
  function Sides(rule: Rule): (Pattern, Pattern) {
    match rule
    case CommAdd => (Plus2(A, B), Plus2(B, A))
    case AssocAdd => (Plus2(A, Plus2(B, C)), Plus2(Plus2(A, B), C))
    case AssocAdd2 => (Plus2(Plus2(A, B), C), Plus2(A, Plus2(B, C)))
    case CommMul => (Times2(A, B), Times2(B, A))
    case AssocMul => (Times2(A, Times2(B, C)), Times2(Times2(A, B), C))
    case AssocMul2 => (Times2(Times2(A, B), C), Times2(A, Times2(B, C)))
    case AssocMatmul => (At2(A, At2(B, C)), At2(At2(A, B), C))
    case AssocMatmul2 => (At2(At2(A, B), C), At2(A, At2(B, C)))
    case AssocDivMatmul => (At2(PDiv(A, B, Any), C), PDiv(At2(A, C), B, Any))
    case DistMulAdd => (Times2(A, Plus2(B, C)), Plus2(Times2(A, B), Times2(A, C)))
    case DistMulSub => (Times2(A, Minus2(B, C)), Minus2(Times2(A, B), Times2(A, C)))
    case DistMatmulAdd => (At2(A, Plus2(B, C)), Plus2(At2(A, B), At2(A, C)))
    case DistMatmulSub => (At2(A, Minus2(B, C)), Minus2(At2(A, B), At2(A, C)))
    case FactorMulAdd => (Plus2(Times2(A, B), Times2(A, C)), Times2(A, Plus2(B, C)))
    case FactorMulSub => (Minus2(Times2(A, B), Times2(A, C)), Times2(A, Minus2(B, C)))
    case FactorMatmulAdd => (Plus2(At2(A, B), At2(A, C)), At2(A, Plus2(B, C)))
    case FactorMatmulSub => (Minus2(At2(A, B), At2(A, C)), At2(A, Minus2(B, C)))
    case GeometryOfConcat => (Cat(Cat(A, C, 0), Cat(B, D, 0), 1), Cat(Cat(A, B, 1), Cat(C, D, 1), 0))
    case GeometryOfConcatInv => (Cat(Cat(A, B, 1), Cat(C, D, 1), 0), Cat(Cat(A, C, 0), Cat(B, D, 0), 1))
    case OperatorComm6 => (Plus2(CatAny(A, C), CatAny(B, D)), CatAny(Plus2(A, B), Plus2(C, D)))
    case OperatorComm6Inv => (CatAny(Plus2(A, B), Plus2(C, D)), Plus2(CatAny(A, C), CatAny(B, D)))
    case OperatorComm7 => (Times2(CatAny(A, C), CatAny(B, D)), CatAny(Times2(A, B), Times2(C, D)))
    case OperatorComm7Inv => (CatAny(Times2(A, B), Times2(C, D)), Times2(CatAny(A, C), CatAny(B, D)))
    case ConcatAndMatmul0 => (At2(A, Cat(B, C, 1)), Cat(At2(A, B), At2(A, C), 1))
    case ConcatAndMatmul0Inv => (Cat(At2(A, B), At2(A, C), 1), At2(A, Cat(B, C, 1)))
    case ConcatAndMatmul1 => (Plus2(At2(A, B), At2(C, D)), At2(Cat(A, C, 1), Cat(B, D, 0)))
    case ConcatAndMatmul1Inv => (At2(Cat(A, C, 1), Cat(B, D, 0)), Plus2(At2(A, B), At2(C, D)))
  }

  ghost predicate Matches(rule: Rule, l: Term, r: Term, terms: seq<Term>, n: int) {
    l == Inst(Sides(rule).0, terms, n) && r == Inst(Sides(rule).1, terms, n)
  }

  /** The parts of a term two steps down, from the left. */
  function Left(e: Term): Term { if e.Var? then e else e.a }
  function Right(e: Term): Term { if e.Var? then e else e.b }
  function AxisIn(e: Term): int { if e.Concat? || e.Div? then e.axis else 0 }

  /** What the variables of the rule stand for where it matches l. */
  function Found(rule: Rule, l: Term): seq<Term> {
    match rule
    case CommAdd => [Left(l), Right(l)]
    case CommMul => [Left(l), Right(l)]
    case AssocAdd => [Left(l), Left(Right(l)), Right(Right(l))]
    case AssocMul => [Left(l), Left(Right(l)), Right(Right(l))]
    case AssocMatmul => [Left(l), Left(Right(l)), Right(Right(l))]
    case AssocAdd2 => [Left(Left(l)), Right(Left(l)), Right(l)]
    case AssocMul2 => [Left(Left(l)), Right(Left(l)), Right(l)]
    case AssocMatmul2 => [Left(Left(l)), Right(Left(l)), Right(l)]
    case AssocDivMatmul => [Left(Left(l)), Right(Left(l)), Right(l)]
    case DistMulAdd => [Left(l), Left(Right(l)), Right(Right(l))]
    case DistMulSub => [Left(l), Left(Right(l)), Right(Right(l))]
    case DistMatmulAdd => [Left(l), Left(Right(l)), Right(Right(l))]
    case DistMatmulSub => [Left(l), Left(Right(l)), Right(Right(l))]
    case ConcatAndMatmul0 => [Left(l), Left(Right(l)), Right(Right(l))]
    case FactorMulAdd => [Left(Left(l)), Right(Left(l)), Right(Right(l))]
    case FactorMulSub => [Left(Left(l)), Right(Left(l)), Right(Right(l))]
    case FactorMatmulAdd => [Left(Left(l)), Right(Left(l)), Right(Right(l))]
    case FactorMatmulSub => [Left(Left(l)), Right(Left(l)), Right(Right(l))]
    case ConcatAndMatmul0Inv => [Left(Left(l)), Right(Left(l)), Right(Right(l))]
    case GeometryOfConcat => [Left(Left(l)), Left(Right(l)), Right(Left(l)), Right(Right(l))]
    case OperatorComm6 => [Left(Left(l)), Left(Right(l)), Right(Left(l)), Right(Right(l))]
    case OperatorComm7 => [Left(Left(l)), Left(Right(l)), Right(Left(l)), Right(Right(l))]
    case ConcatAndMatmul1Inv => [Left(Left(l)), Left(Right(l)), Right(Left(l)), Right(Right(l))]
    case _ => [Left(Left(l)), Right(Left(l)), Left(Right(l)), Right(Right(l))]
  }

  function AxisFound(l: Term): int {
    if l.Concat? then l.axis else if Left(l).Concat? || Left(l).Div? then AxisIn(Left(l)) else 0
  }

  function Leaf(p: Pattern, terms: seq<Term>): Term { if p.Hole? && p.k < |terms| then terms[p.k] else Var("") }

  function Inner(p: Pattern, terms: seq<Term>, n: int): Term {
    match p
    case Hole(_) => Leaf(p, terms)
    case PBin(op, a, b) => Bin(op, Leaf(a, terms), Leaf(b, terms))
    case PConcat(a, b, axis) => Concat(Leaf(a, terms), Leaf(b, terms), AxisOf(axis, n))
    case PDiv(a, b, axis) => Div(Leaf(a, terms), Leaf(b, terms), AxisOf(axis, n))
  }

  predicate Small(p: Pattern) { p.Hole? || (p.a.Hole? && p.b.Hole?) }

  lemma InnerIs(p: Pattern, terms: seq<Term>, n: int)
    requires Small(p)
    ensures Inst(p, terms, n) == Inner(p, terms, n)
  {
  }

  /** A side of a rule, written out. */
  function Outer(p: Pattern, terms: seq<Term>, n: int): Term {
    match p
    case Hole(_) => Leaf(p, terms)
    case PBin(op, a, b) => Bin(op, Inner(a, terms, n), Inner(b, terms, n))
    case PConcat(a, b, axis) => Concat(Inner(a, terms, n), Inner(b, terms, n), AxisOf(axis, n))
    case PDiv(a, b, axis) => Div(Inner(a, terms, n), Inner(b, terms, n), AxisOf(axis, n))
  }

  lemma OuterIs(p: Pattern, terms: seq<Term>, n: int)
    requires !p.Hole? && Small(p.a) && Small(p.b)
    ensures Inst(p, terms, n) == Outer(p, terms, n)
  {
    InnerIs(p.a, terms, n);
    InnerIs(p.b, terms, n);
  }

  lemma MatchesIs(rule: Rule, l: Term, r: Term, terms: seq<Term>, n: int)
    ensures Matches(rule, l, r, terms, n) <==>
      l == Outer(Sides(rule).0, terms, n) && r == Outer(Sides(rule).1, terms, n)
  {
    OuterIs(Sides(rule).0, terms, n);
    OuterIs(Sides(rule).1, terms, n);
  }

  predicate Reassociates(rule: Rule) {
    rule in {CommAdd, CommMul, AssocAdd, AssocMul, AssocMatmul, AssocAdd2, AssocMul2, AssocMatmul2, AssocDivMatmul}
  }

  predicate Regroups(rule: Rule) {
    rule in {DistMulAdd, DistMulSub, DistMatmulAdd, DistMatmulSub, FactorMulAdd, FactorMulSub, FactorMatmulAdd,
      FactorMatmulSub}
  }

  /** A rule takes one term to another exactly when its two patterns stand for them. */
  lemma AppliesIff(rule: Rule, l: Term, r: Term)
    ensures Applies(rule, l, r) <==> exists terms, n :: Matches(rule, l, r, terms, n)
  {
    if Applies(rule, l, r) { AppliesMatches(rule, l, r); }
    if terms, n :| Matches(rule, l, r, terms, n) { MatchesApplies(rule, l, r, terms, n); }
  }

  lemma AppliesMatches(rule: Rule, l: Term, r: Term)
    requires Applies(rule, l, r)
    ensures Matches(rule, l, r, Found(rule, l), AxisFound(l))
  {
    MatchesIs(rule, l, r, Found(rule, l), AxisFound(l));
    if Reassociates(rule) { ReassociatesMatches(rule, l, r); }
    else if Regroups(rule) { RegroupsMatches(rule, l, r); }
    else { ConcatMatches(rule, l, r); }
  }

  lemma ReassociatesMatches(rule: Rule, l: Term, r: Term)
    requires Reassociates(rule) && Applies(rule, l, r)
    ensures l == Outer(Sides(rule).0, Found(rule, l), AxisFound(l)) &&
      r == Outer(Sides(rule).1, Found(rule, l), AxisFound(l))
  {
  }

  lemma RegroupsMatches(rule: Rule, l: Term, r: Term)
    requires Regroups(rule) && Applies(rule, l, r)
    ensures l == Outer(Sides(rule).0, Found(rule, l), AxisFound(l)) &&
      r == Outer(Sides(rule).1, Found(rule, l), AxisFound(l))
  {
  }

  predicate Stacks(rule: Rule) { rule in {GeometryOfConcat, GeometryOfConcatInv, OperatorComm6, OperatorComm6Inv} }

  lemma ConcatMatches(rule: Rule, l: Term, r: Term)
    requires !Reassociates(rule) && !Regroups(rule) && Applies(rule, l, r)
    ensures l == Outer(Sides(rule).0, Found(rule, l), AxisFound(l)) &&
      r == Outer(Sides(rule).1, Found(rule, l), AxisFound(l))
  {
    if Stacks(rule) { StacksMatches(rule, l, r); } else { BlocksMatches(rule, l, r); }
  }

  lemma StacksMatches(rule: Rule, l: Term, r: Term)
    requires Stacks(rule) && Applies(rule, l, r)
    ensures l == Outer(Sides(rule).0, Found(rule, l), AxisFound(l)) &&
      r == Outer(Sides(rule).1, Found(rule, l), AxisFound(l))
  {
  }

  lemma BlocksMatches(rule: Rule, l: Term, r: Term)
    requires !Reassociates(rule) && !Regroups(rule) && !Stacks(rule) && Applies(rule, l, r)
    ensures l == Outer(Sides(rule).0, Found(rule, l), AxisFound(l)) &&
      r == Outer(Sides(rule).1, Found(rule, l), AxisFound(l))
  {
  }

  lemma MatchesApplies(rule: Rule, l: Term, r: Term, terms: seq<Term>, n: int)
    requires Matches(rule, l, r, terms, n)
    ensures Applies(rule, l, r)
  {
    MatchesIs(rule, l, r, terms, n);
    WrittenApplies(rule, l, r, terms, n);
  }

  lemma WrittenApplies(rule: Rule, l: Term, r: Term, terms: seq<Term>, n: int)
    requires l == Outer(Sides(rule).0, terms, n) && r == Outer(Sides(rule).1, terms, n)
    ensures Applies(rule, l, r)
  {
  }

  // ---------------------------------------------------------------------------------------------
  // One rule at one place

  /** A place: for every step down, whether it goes to the left part. */
  predicate Within(s: Term, p: seq<bool>) { p == [] || (!s.Var? && Within(if p[0] then s.a else s.b, p[1..])) }

  function Below(s: Term, p: seq<bool>): Term
    requires Within(s, p)
  {
    if p == [] then s else Below(if p[0] then s.a else s.b, p[1..])
  }

  function WithParts(s: Term, a: Term, b: Term): Term {
    match s
    case Var(_) => s
    case Bin(op, _, _) => Bin(op, a, b)
    case Concat(_, _, axis) => Concat(a, b, axis)
    case Div(_, _, axis) => Div(a, b, axis)
  }

  function Put(s: Term, p: seq<bool>, u: Term): Term
    requires Within(s, p)
  {
    if p == [] then u
    else if p[0] then WithParts(s, Put(s.a, p[1..], u), s.b)
    else WithParts(s, s.a, Put(s.b, p[1..], u))
  }

  ghost predicate RuleAt(s: Term, t: Term, p: seq<bool>, u: Term, rule: Rule, terms: seq<Term>, n: int) {
    Within(s, p) && t == Put(s, p, u) && Matches(rule, Below(s, p), u, terms, n) && (rule == AssocDivMatmul ==> n == 1)
  }

  ghost predicate Somewhere(s: Term, t: Term) { exists p, u, rule, terms, n :: RuleAt(s, t, p, u, rule, terms, n) }

  lemma MatchesHere(rule: Rule, s: Term, t: Term, terms: seq<Term>, n: int)
    requires Matches(rule, s, t, terms, n) && (rule == AssocDivMatmul ==> n == 1)
    ensures Here(rule, s, t)
  {
    MatchesApplies(rule, s, t, terms, n);
    MatchesIs(rule, s, t, terms, n);
    if rule == AssocDivMatmul { assert s == Bin(At, Div(Leaf(A, terms), Leaf(B, terms), n), Leaf(C, terms)); }
  }

  lemma StepDown(s: Term, t: Term, left: bool)
    requires !s.Var? && !t.Var? && t == WithParts(s, t.a, t.b) && (if left then t.b == s.b else t.a == s.a)
    requires Somewhere(if left then s.a else s.b, if left then t.a else t.b)
    ensures Somewhere(s, t)
  {
    var s', t' := if left then s.a else s.b, if left then t.a else t.b;
    var p, u, rule, terms, n :| RuleAt(s', t', p, u, rule, terms, n);
    assert ([left] + p)[0] == left && ([left] + p)[1..] == p;
    assert RuleAt(s, t, [left] + p, u, rule, terms, n);
  }

  lemma RewritesParts(s: Term, t: Term)
    ensures Rewrites(s, t) <==> ((exists rule :: Here(rule, s, t)) || PartRewrites(s, t))
  {
  }

  predicate PartRewrites(s: Term, t: Term) {
    !s.Var? && !t.Var? && t == WithParts(s, t.a, t.b) &&
    ((t.b == s.b && Rewrites(s.a, t.a)) || (t.a == s.a && Rewrites(s.b, t.b)))
  }

  /** A step of the rewriting is one rule at one place, the division rule only along axis 1. */
  lemma {:induction false} RewritesIff(s: Term, t: Term)
    ensures Rewrites(s, t) <==> Somewhere(s, t)
    decreases s
  {
    if rule :| Here(rule, s, t) {
      AppliesMatches(rule, s, t);
      assert RuleAt(s, t, [], t, rule, Found(rule, s), AxisFound(s));
    }
    if !s.Var? && !t.Var? {
      RewritesIff(s.a, t.a);
      RewritesIff(s.b, t.b);
      if t == WithParts(s, t.a, t.b) {
        if t.b == s.b && Rewrites(s.a, t.a) { StepDown(s, t, true); }
        if t.a == s.a && Rewrites(s.b, t.b) { StepDown(s, t, false); }
      }
    }
    RewritesParts(s, t);
    if p, u, rule, terms, n :| RuleAt(s, t, p, u, rule, terms, n) { PlaceRewrites(s, t, p, u, rule, terms, n); }
  }

  lemma {:induction false} PlaceRewrites(s: Term, t: Term, p: seq<bool>, u: Term, rule: Rule, terms: seq<Term>, n: int)
    requires RuleAt(s, t, p, u, rule, terms, n)
    ensures Rewrites(s, t)
    decreases |p|
  {
    RewritesParts(s, t);
    if p == [] {
      MatchesHere(rule, s, t, terms, n);
    } else if p[0] {
      PlaceRewrites(s.a, t.a, p[1..], u, rule, terms, n);
    } else {
      PlaceRewrites(s.b, t.b, p[1..], u, rule, terms, n);
    }
  }
}
