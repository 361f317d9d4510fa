/** When two programs have the same effect, exactly. */
module TraceExact {
  import opened Ast
  import opened Machines
  import opened Reordering
  import opened Signatures
  import opened LogMachines
  import opened LoopRules
  import opened SeqRules
  import Fusion
  import TreeRules
  import LoopExact

  // Two statements, or two programs of nodes, leave the same memory on every machine that keeps regions
  // apart if and only if any two executed stores that do not commute take the same turns in both
  // (SameEffectIff, SameProgramIff).  Both sides of every rule that splits, fuses or exchanges are such
  // programs.

  // ---------------------------------------------------------------------------------------------
  // The order of two stores in a run

  /** The turns of two executed stores in a run: true is a turn of the first. */
  function Order(tr: seq<Act>, a: Act, b: Act): seq<bool> {
    if tr == [] then [] else Turn(tr[0], a, b) + Order(tr[1..], a, b)
  }

  function Turn(c: Act, a: Act, b: Act): seq<bool> {
    if SameAct(c, a) then [true] else if SameAct(c, b) then [false] else []
  }

  /** The two may not change places, or are one store. */
  predicate Tied(a: Act, b: Act) { SameAct(a, b) || !Independent(a, b) }

  /** Any two stores that are tied have the same turns in both runs. */
  predicate OrdersAgree(x: seq<Act>, y: seq<Act>) {
    forall a, b :: a in x + y && b in x + y && Tied(a, b) ==> Order(x, a, b) == Order(y, a, b)
  }

  lemma {:induction false} OrderAppend(x: seq<Act>, y: seq<Act>, a: Act, b: Act)
    ensures Order(x + y, a, b) == Order(x, a, b) + Order(y, a, b)
  {
    if x == [] {
      assert x + y == y;
    } else {
      assert (x + y)[1..] == x[1..] + y;
      OrderAppend(x[1..], y, a, b);
    }
  }

  lemma {:induction false} NoTurn(tr: seq<Act>, a: Act, b: Act)
    requires forall c :: c in tr ==> !SameAct(c, a) && !SameAct(c, b)
    ensures Order(tr, a, b) == []
  {
    if tr != [] {
      assert tr[0] in tr;
      NoTurn(tr[1..], a, b);
    }
  }

  /** A store that has no turn before some place, and another that has, start with a turn of the other. */
  lemma {:induction false} OtherFirst(tr: seq<Act>, a: Act, b: Act)
    requires (forall c :: c in tr ==> !SameAct(c, a)) && exists c :: c in tr && SameAct(c, b)
    ensures Order(tr, a, b) != [] && !Order(tr, a, b)[0]
  {
    if !SameAct(tr[0], b) {
      assert forall c :: c in tr ==> c == tr[0] || c in tr[1..];
      assert tr[0] in tr;
      OtherFirst(tr[1..], a, b);
    } else {
      assert tr[0] in tr;
    }
  }

  // ---------------------------------------------------------------------------------------------
  // Enough: one order after another

  lemma {:induction false} SameLoadsApart(e: Expr, env: Env, f: Expr, env': Env, b: Act, b': Act)
    requires ResolveExpr(e, env) == ResolveExpr(f, env') && b.tensor == b'.tensor && b.Where() == b'.Where() &&
      LoadsApart(e, env, b)
    ensures LoadsApart(f, env', b')
  {
    match e
    case Load(t, ix) => assert (t, ix) in LoadAccesses(e);
    case Const(_) =>
    case Arange(_) =>
    case Op(op, args) =>
      forall k | 0 <= k < |args| ensures LoadsApart(f.args[k], env', b') {
        assert ResolveExprs(args, env)[k] == ResolveExprs(f.args, env')[k];
        forall p | p in LoadAccesses(args[k]) ensures p in LoadAccesses(e) { assert args[k] in args; }
        SameLoadsApart(args[k], env, f.args[k], env', b, b');
      }
  }

  /** What is the same commutes with the same. */
  lemma SameTied(a: Act, a': Act, b: Act, b': Act)
    requires SameAct(a, a') && SameAct(b, b') && Tied(a, b)
    ensures Tied(a', b')
  {
    if Independent(a', b') && !SameAct(a, b) {
      SameLoadsApart(a'.value, a'.env, a.value, a.env, b', b);
      SameLoadsApart(b'.value, b'.env, b.value, b.env, a', a);
    }
  }

  lemma FirstTurn(y: seq<Act>, a: Act) returns (k: nat)
    requires exists c :: c in y && SameAct(c, a)
    ensures k < |y| && SameAct(y[k], a) && forall c :: c in y[..k] ==> !SameAct(c, a)
  {
    k := 0;
    while !SameAct(y[k], a)
      invariant k < |y| && (forall c :: c in y[..k] ==> !SameAct(c, a)) && exists c :: c in y[k..] && SameAct(c, a)
      decreases |y| - k
    {
      assert y[k..] == [y[k]] + y[k + 1..];
      assert y[..k + 1] == y[..k] + [y[k]];
      k := k + 1;
    }
  }

  /** The first store of one run has a turn in the other. */
  lemma HasTurn(x: seq<Act>, y: seq<Act>)
    requires x != [] && OrdersAgree(x, y)
    ensures exists c :: c in y && SameAct(c, x[0])
  {
    assert x[0] in x + y && Tied(x[0], x[0]);
    if forall c :: c in y ==> !SameAct(c, x[0]) { NoTurn(y, x[0], x[0]); }
  }

  /** What runs before it there is free of it. */
  lemma EarlierFree(x: seq<Act>, y: seq<Act>, k: nat)
    requires x != [] && OrdersAgree(x, y) && k < |y| && SameAct(y[k], x[0]) && forall c :: c in y[..k] ==>
      !SameAct(c, x[0])
    ensures forall c :: c in y[..k] ==> !Tied(x[0], c)
  {
    forall c | c in y[..k] ensures !Tied(x[0], c) {
      OtherTurn(y, k, x[0], c);
      OwnFirst(x, c);
      assert x[0] in x + y && c in x + y;
    }
  }

  lemma OtherTurn(y: seq<Act>, k: nat, a: Act, c: Act)
    requires k < |y| && (forall d :: d in y[..k] ==> !SameAct(d, a)) && c in y[..k]
    ensures Order(y, a, c) != [] && !Order(y, a, c)[0]
  {
    OtherFirst(y[..k], a, c);
    assert y == y[..k] + y[k..];
    OrderAppend(y[..k], y[k..], a, c);
  }

  lemma OwnFirst(x: seq<Act>, c: Act)
    requires x != []
    ensures Order(x, x[0], c) != [] && Order(x, x[0], c)[0]
  {
  }

  /** Taking the first store out of both runs leaves the orders alike. */
  lemma TakenOrder(x: seq<Act>, y: seq<Act>, k: nat, a: Act, b: Act)
    requires x != [] && k < |y| && SameAct(y[k], x[0]) && (forall c :: c in y[..k] ==> !Tied(x[0], c)) && Tied(a, b)
    requires Order(x, a, b) == Order(y, a, b)
    ensures Order(x[1..], a, b) == Order(y[..k] + y[k + 1..], a, b)
  {
    var turn := Turn(x[0], a, b);
    SplitOrder(y, k, a, b);
    SameTurn(y[k], x[0], a, b);
    NoTurnBefore(x[0], y[..k], a, b);
    Cancel(turn, Order(x[1..], a, b), Order(y[..k], a, b), Order(y[k + 1..], a, b));
  }

  lemma Cancel(turn: seq<bool>, x: seq<bool>, front: seq<bool>, back: seq<bool>)
    requires turn + x == front + (turn + back) && (turn == [] || front == [])
    ensures x == front + back
  {
    assert (turn + x)[|turn|..] == x;
    if turn != [] { assert (turn + back)[|turn|..] == back; }
  }

  lemma SplitOrder(y: seq<Act>, k: nat, a: Act, b: Act)
    requires k < |y|
    ensures Order(y, a, b) == Order(y[..k], a, b) + (Turn(y[k], a, b) + Order(y[k + 1..], a, b))
    ensures Order(y[..k] + y[k + 1..], a, b) == Order(y[..k], a, b) + Order(y[k + 1..], a, b)
  {
    var front, back := y[..k], y[k + 1..];
    assert y == front + ([y[k]] + back) && ([y[k]] + back)[1..] == back;
    OrderAppend(front, [y[k]] + back, a, b);
    OrderAppend(front, back, a, b);
  }

  lemma SameTurn(c: Act, d: Act, a: Act, b: Act)
    requires SameAct(c, d)
    ensures Turn(c, a, b) == Turn(d, a, b)
  {
  }

  lemma NoTurnBefore(a0: Act, front: seq<Act>, a: Act, b: Act)
    requires (forall c :: c in front ==> !Tied(a0, c)) && Tied(a, b)
    ensures Turn(a0, a, b) == [] || Order(front, a, b) == []
  {
    if Turn(a0, a, b) == [] { return; }
    forall c | c in front ensures !SameAct(c, a) && !SameAct(c, b) {
      if SameAct(c, a) { MeetsTied(a0, c, b, a); }
      if SameAct(c, b) { MeetsTied(a0, c, a, b); }
    }
    NoTurn(front, a, b);
  }

  /** A store like one of two tied stores is tied to what is like the other, and to what is like itself. */
  lemma MeetsTied(a0: Act, c: Act, other: Act, own: Act)
    requires SameAct(c, own) && (Tied(other, own) || Tied(own, other)) && (SameAct(a0, other) || SameAct(a0, own))
    ensures Tied(a0, c)
  {
    if SameAct(a0, other) {
      if Tied(other, own) { SameTied(other, a0, own, c); } else { SameTied(own, c, other, a0); TiedBack(c, a0); }
    }
  }

  lemma TiedBack(a: Act, b: Act)
    requires Tied(a, b)
    ensures Tied(b, a)
  {
    if Independent(b, a) && !SameAct(a, b) { ApartBack(b, a); }
  }

  lemma ApartBack(a: Act, b: Act)
    requires Independent(a, b)
    ensures Independent(b, a)
  {
    if a.tensor == b.tensor {
      var r, q := a.Where(), b.Where();
      var d :| 0 <= d < |r| && d < |q| && ApartExtents(r[d], q[d]);
      assert ApartExtents(q[d], r[d]);
    }
  }

  lemma OrdersShrink(x: seq<Act>, y: seq<Act>, k: nat)
    requires x != [] && k < |y| && SameAct(y[k], x[0]) && (forall c :: c in y[..k] ==> !Tied(x[0], c)) &&
      OrdersAgree(x, y)
    ensures OrdersAgree(x[1..], y[..k] + y[k + 1..])
  {
    var x', y' := x[1..], y[..k] + y[k + 1..];
    forall a, b | a in x' + y' && b in x' + y' && Tied(a, b) ensures Order(x', a, b) == Order(y', a, b) {
      assert a in x + y && b in x + y;
      TakenOrder(x, y, k, a, b);
    }
  }

  lemma {:induction false} FreePast<C(!new), V(!new)>(M: Machine<C, V>, a: Act, tr: seq<Act>, mem: Mem<C>)
    requires KeepsRegionsApart(M) && forall c :: c in tr ==> !Tied(a, c)
    ensures Run(M, tr, Step(M, a, mem)) == Step(M, a, Run(M, tr, mem))
  {
    if tr != [] {
      assert tr[0] in tr;
      SwapActs(M, a, tr[0], mem);
      FreePast(M, a, tr[1..], Step(M, tr[0], mem));
    }
  }

  lemma MovedFirst<C(!new), V(!new)>(M: Machine<C, V>, y: seq<Act>, k: nat, a: Act, mem: Mem<C>)
    requires KeepsRegionsApart(M) && k < |y| && SameAct(y[k], a) && forall c :: c in y[..k] ==> !Tied(a, c)
    ensures Run(M, y, mem) == Run(M, y[..k] + y[k + 1..], Step(M, a, mem))
  {
    var front, back := y[..k], y[k + 1..];
    assert y == front + ([y[k]] + back) && ([y[k]] + back)[1..] == back;
    RunAppend(M, front, [y[k]] + back, mem);
    SameStep(M, y[k], a, Run(M, front, mem));
    FreePast(M, a, front, mem);
    RunAppend(M, front, back, Step(M, a, mem));
  }

  lemma OwnTurn(y: seq<Act>)
    ensures OrdersAgree([], y) ==> y == []
  {
    if y != [] {
      assert y[0] in [] + y && Tied(y[0], y[0]);
      assert Order(y, y[0], y[0]) == [true] + Order(y[1..], y[0], y[0]);
    }
  }

  /** Runs whose orders agree have the same effect on every machine that keeps regions apart. */
  lemma {:induction false} OrdersRun<C(!new), V(!new)>(M: Machine<C, V>, x: seq<Act>, y: seq<Act>, mem: Mem<C>)
    requires KeepsRegionsApart(M) && OrdersAgree(x, y)
    ensures Run(M, x, mem) == Run(M, y, mem)
    decreases |x|
  {
    if x == [] {
      OwnTurn(y);
    } else {
      HasTurn(x, y);
      var k := FirstTurn(y, x[0]);
      EarlierFree(x, y, k);
      OrdersShrink(x, y, k);
      MovedFirst(M, y, k, x[0], mem);
      OrdersRun(M, x[1..], y[..k] + y[k + 1..], Step(M, x[0], mem));
    }
  }

  // ---------------------------------------------------------------------------------------------
  // Needed: what a memory of logs tells about the order

  /** The expression a term was made from. */
  function Spelled(v: Term): Resolved {
    match v
    case Lit(c) => RConst(c)
    case Ran(lo, n) => RRange(lo, n)
    case Seen(t, r, _) => RLoad(t, r)
    case App(op, args) => ROp(op, seq(|args|, k requires 0 <= k < |args| => Spelled(args[k])))
  }

  lemma {:induction false} SpelledBack(size: string -> pos, cs: Sets, e: Expr, env: Env, m: Mem<Contents>,
      names: set<Name>)
    requires Tagged(m, names, |cs|) && Loads(e) <= names
    ensures Spelled(Eval(LogMachine(size, cs), e, env, m)) == ResolveExpr(e, env)
  {
    if e.Op? {
      var vs := EvalAll(LogMachine(size, cs), e.args, env, m);
      forall k | 0 <= k < |e.args| ensures Spelled(vs[k]) == ResolveExpr(e.args[k], env) {
        forall n | n in Loads(e.args[k]) ensures n in names { assert n in Loads(e); }
        SpelledBack(size, cs, e.args[k], env, m, names);
      }
      assert seq(|vs|, k requires 0 <= k < |vs| => Spelled(vs[k])) == ResolveExprs(e.args, env);
    }
  }

  /** The entry was made by this store. */
  predicate Notes(e: Entry, a: Act) { e.at == a.Where() && Spelled(e.value) == ResolveExpr(a.value, a.env) }

  lemma EntryNotes(size: string -> pos, cs: Sets, c: Act, a: Act, m: Mem<Contents>, names: set<Name>)
    requires Tagged(m, names, |cs|) && Loads(c.value) <= names && c.tensor == a.tensor
    ensures Notes(Entry(c.Where(), Eval(LogMachine(size, cs), c.value, c.env, m)), a) <==> SameAct(c, a)
  {
    SpelledBack(size, cs, c.value, c.env, m, names);
  }

  /** The turns of two stores, read off a log. */
  function LogOrder(log: seq<Entry>, a: Act, b: Act): seq<bool> {
    if log == [] then []
    else
      var last := log[|log| - 1];
      LogOrder(log[..|log| - 1], a, b) + if Notes(last, a) then [true] else if Notes(last, b) then [false] else []
  }

  lemma LogGrows(log: seq<Entry>, e: Entry, a: Act, b: Act)
    ensures LogOrder(log + [e], a, b) ==
      LogOrder(log, a, b) + if Notes(e, a) then [true] else if Notes(e, b) then [false] else []
  {
    assert (log + [e])[..|log|] == log;
  }

  /** How a step changes a log. */
  lemma StepNotes(size: string -> pos, cs: Sets, c: Act, t: Name, m: Mem<Contents>, names: set<Name>, i: nat)
    requires Tagged(m, names, |cs|) && c.tensor in names && t in names && i < |cs|
    ensures var M := LogMachine(size, cs); var m1 := Step(M, c, m);
      && Tagged(m1, names, |cs|)
      && m1[t].logs[i] == if c.tensor == t &&
        c.Where() in cs[i] then m[t].logs[i] + [Entry(c.Where(), Eval(M, c.value, c.env, m))] else m[t].logs[i]
  {
  }

  lemma StepOrder(size: string -> pos, cs: Sets, c: Act, a: Act, b: Act, m: Mem<Contents>, names: set<Name>, i: nat)
    requires Tagged(m, names, |cs|) && c.tensor in names && Loads(c.value) <= names && a.tensor in names && i < |cs|
    requires a.tensor == b.tensor && a.Where() in cs[i] && b.Where() in cs[i]
    ensures var m1 := Step(LogMachine(size, cs), c, m);
      Tagged(m1, names, |cs|) &&
        LogOrder(m1[a.tensor].logs[i], a, b) == LogOrder(m[a.tensor].logs[i], a, b) + Turn(c, a, b)
  {
    StepNotes(size, cs, c, a.tensor, m, names, i);
    if c.tensor == a.tensor {
      EntryNotes(size, cs, c, a, m, names);
      EntryNotes(size, cs, c, b, m, names);
      LogGrows(m[a.tensor].logs[i], Entry(c.Where(), Eval(LogMachine(size, cs), c.value, c.env, m)), a, b);
    }
  }

  /** The log of two regions of one tensor tells the order of the stores to them. */
  lemma {:induction false} WritesTell(size: string -> pos, cs: Sets, a: Act, b: Act, tr: seq<Act>, m: Mem<Contents>,
      names: set<Name>, i: nat)
    requires Tagged(m, names, |cs|) && Touches(tr, names, names) && a.tensor in names && i < |cs|
    requires a.tensor == b.tensor && a.Where() in cs[i] && b.Where() in cs[i]
    ensures var end := Run(LogMachine(size, cs), tr, m);
      Tagged(end, names, |cs|) &&
        LogOrder(end[a.tensor].logs[i], a, b) == LogOrder(m[a.tensor].logs[i], a, b) + Order(tr, a, b)
  {
    if tr != [] {
      assert tr[0] in tr;
      StepOrder(size, cs, tr[0], a, b, m, names, i);
      WritesTell(size, cs, a, b, tr[1..], Step(LogMachine(size, cs), tr[0], m), names, i);
    }
  }

  // ---------------------------------------------------------------------------------------------
  // Reads tell how often a store has run before them

  function Times(log: seq<Entry>, a: Act): nat {
    if log == [] then 0 else Times(log[..|log| - 1], a) + if Notes(log[|log| - 1], a) then 1 else 0
  }

  /** How often a store had run, by the reads of a region in a term. */
  function Told(v: Term, t: Name, r: Region, a: Act): set<nat> {
    match v
    case Lit(_) => {}
    case Ran(_, _) => {}
    case Seen(tag, at, logs) => if tag == t && at == r && logs != [] then {Times(logs[0], a)} else {}
    case App(_, args) => set w, n | w in args && n in Told(w, t, r, a) :: n
  }

  /** The expression reads the region. */
  predicate ReadsAt(e: Expr, env: Env, t: Name, r: Region) {
    exists p :: p in LoadAccesses(e) && p.0 == t && ResolveAll(p.1, env) == r
  }

  lemma {:induction false} ReadTells(size: string -> pos, cs: Sets, e: Expr, env: Env, m: Mem<Contents>,
      names: set<Name>, t: Name, r: Region, a: Act)
    requires Tagged(m, names, |cs|) && Loads(e) <= names && t in names && cs != [] && r in cs[0]
    ensures Told(Eval(LogMachine(size, cs), e, env, m), t, r, a) ==
      if ReadsAt(e, env, t, r) then {Times(m[t].logs[0], a)} else {}
  {
    var M := LogMachine(size, cs);
    match e
    case Load(u, ix) =>
      assert ReadsAt(e, env, t, r) <==> (u == t && ResolveAll(ix, env) == r) by {
        if u == t { assert (u, ix) in LoadAccesses(e); }
      }
      assert Eval(M, e, env, m) == Seen(u, ResolveAll(ix, env), Visible(cs, m[u], ResolveAll(ix, env)));
    case Const(_) => assert !ReadsAt(e, env, t, r);
    case Arange(_) => assert !ReadsAt(e, env, t, r);
    case Op(op, args) =>
      var vs, v, n := EvalAll(M, args, env, m), Eval(M, e, env, m), Times(m[t].logs[0], a);
      forall k | 0 <= k < |args| ensures Told(vs[k], t, r, a) == if ReadsAt(args[k], env, t, r) then {n} else {} {
        forall n | n in Loads(args[k]) ensures n in names { assert n in Loads(e); }
        ReadTells(size, cs, args[k], env, m, names, t, r, a);
      }
      ArgumentsTell(op, args, vs, env, t, r, a, n);
  }

  lemma ArgumentsTell(op: Oper, args: seq<Expr>, vs: seq<Term>, env: Env, t: Name, r: Region, a: Act, n: nat)
    requires |vs| == |args| && forall k :: 0 <= k < |args| ==>
      Told(vs[k], t, r, a) == if ReadsAt(args[k], env, t, r) then {n} else {}
    ensures Told(App(op, vs), t, r, a) == if ReadsAt(Op(op, args), env, t, r) then {n} else {}
  {
    var e, v := Op(op, args), App(op, vs);
    forall i | i in Told(v, t, r, a) ensures i == n && ReadsAt(e, env, t, r) {
      var w :| w in vs && i in Told(w, t, r, a);
      var k :| 0 <= k < |vs| && vs[k] == w;
      var p :| p in LoadAccesses(args[k]) && p.0 == t && ResolveAll(p.1, env) == r;
      assert args[k] in args && p in LoadAccesses(e);
    }
    if ReadsAt(e, env, t, r) {
      var p :| p in LoadAccesses(e) && p.0 == t && ResolveAll(p.1, env) == r;
      var x :| x in args && p in LoadAccesses(x);
      var k :| 0 <= k < |args| && args[k] == x;
      assert n in Told(vs[k], t, r, a) && vs[k] in vs;
    }
  }

  /** What the entries of one store tell about another. */
  function Tells(log: seq<Entry>, b: Act, t: Name, r: Region, a: Act): seq<set<nat>> {
    if log == [] then []
    else
      var last := log[|log| - 1];
      Tells(log[..|log| - 1], b, t, r, a) + if Notes(last, b) then [Told(last.value, t, r, a)] else []
  }

  lemma TellsGrows(log: seq<Entry>, e: Entry, b: Act, t: Name, r: Region, a: Act)
    ensures Tells(log + [e], b, t, r, a) ==
      Tells(log, b, t, r, a) + if Notes(e, b) then [Told(e.value, t, r, a)] else []
    ensures Times(log + [e], a) == Times(log, a) + if Notes(e, a) then 1 else 0
  {
    assert (log + [e])[..|log|] == log;
  }

  /** How many turns of the first come before each turn of the second. */
  function Before(turns: seq<bool>, n: nat): seq<set<nat>> {
    if turns == [] then [] else if turns[0] then Before(turns[1..], n + 1) else [{n}] + Before(turns[1..], n)
  }

  function Trues(turns: seq<bool>): nat {
    if turns == [] then 0 else Trues(turns[1..]) + if turns[0] then 1 else 0
  }

  lemma {:induction false} BeforeFrom(x: seq<bool>, n: nat, least: nat)
    requires least < n
    ensures Before(x, n) == [] || least !in Before(x, n)[0]
  {
    if x != [] && x[0] { BeforeFrom(x[1..], n + 1, least); }
  }

  lemma FirstDiffers(x: seq<bool>, y: seq<bool>, n: nat)
    requires x != [] && y != [] && x[0] && !y[0]
    ensures Before(x, n) != Before(y, n)
  {
    BeforeFrom(x[1..], n + 1, n);
    assert n in Before(y, n)[0];
  }

  /** They settle the turns. */
  lemma {:induction false} BeforeTells(x: seq<bool>, y: seq<bool>, n: nat)
    requires Trues(x) == Trues(y)
    ensures Before(x, n) == Before(y, n) ==> x == y
  {
    if x == [] {
      NoneBefore(y, n);
    } else if y == [] {
      NoneBefore(x, n);
    } else if x[0] == y[0] {
      BeforeTells(x[1..], y[1..], if x[0] then n + 1 else n);
      if !x[0] {
        assert Before(x, n)[1..] == Before(x[1..], n) && Before(y, n)[1..] == Before(y[1..], n);
      }
    } else if x[0] {
      FirstDiffers(x, y, n);
    } else {
      FirstDiffers(y, x, n);
    }
  }

  lemma {:induction false} NoneBefore(x: seq<bool>, n: nat)
    ensures Before(x, n) == [] && Trues(x) == 0 ==> x == []
  {
    if x != [] && x[0] { assert Trues(x) > 0; }
  }

  lemma {:induction false} SameReads(e: Expr, env: Env, f: Expr, env': Env, t: Name, r: Region)
    requires ResolveExpr(e, env) == ResolveExpr(f, env') && ReadsAt(e, env, t, r)
    ensures ReadsAt(f, env', t, r)
  {
    var p :| p in LoadAccesses(e) && p.0 == t && ResolveAll(p.1, env) == r;
    match e
    case Load(_, _) => assert (f.tensor, f.index) in LoadAccesses(f);
    case Op(op, args) =>
      var x :| x in args && p in LoadAccesses(x);
      var k :| 0 <= k < |args| && args[k] == x;
      assert ResolveExprs(args, env)[k] == ResolveExprs(f.args, env')[k];
      SameReads(args[k], env, f.args[k], env', t, r);
      var q :| q in LoadAccesses(f.args[k]) && q.0 == t && ResolveAll(q.1, env') == r;
      assert f.args[k] in f.args && q in LoadAccesses(f);
  }

  /** Two stores of which the second reads what the first writes, and logs that keep both. */
  ghost predicate Watches(cs: Sets, a: Act, b: Act, r: Region, names: set<Name>) {
    && |cs| == 2 && a.Where() in cs[0] && r in cs[0] && b.Where() in cs[1] && ReadsAt(b.value, b.env, a.tensor, r)
    && !SameAct(a, b) && a.tensor in names && b.tensor in names
  }

  /** What the logs tell about the first store alone. */
  function Tally(mem: Mem<Contents>, a: Act): nat {
    if a.tensor in mem && |mem[a.tensor].logs| == 2 then Times(mem[a.tensor].logs[0], a) else 0
  }

  /** What the entries of the second tell about the first. */
  function Account(mem: Mem<Contents>, a: Act, b: Act, r: Region): seq<set<nat>> {
    if b.tensor in mem && |mem[b.tensor].logs| == 2 then Tells(mem[b.tensor].logs[1], b, a.tensor, r, a) else []
  }

  lemma StepTimes(size: string -> pos, cs: Sets, c: Act, a: Act, b: Act, r: Region, m: Mem<Contents>, names: set<Name>)
    requires Tagged(m, names, |cs|) && c.tensor in names && Loads(c.value) <= names && Watches(cs, a, b, r, names)
    ensures Tally(Step(LogMachine(size, cs), c, m), a) == Tally(m, a) + if SameAct(c, a) then 1 else 0
  {
    StepNotes(size, cs, c, a.tensor, m, names, 0);
    if c.tensor == a.tensor {
      EntryNotes(size, cs, c, a, m, names);
      TellsGrows(m[a.tensor].logs[0], Entry(c.Where(), Eval(LogMachine(size, cs), c.value, c.env, m)), b, a.tensor, r,
        a);
    }
  }

  lemma StepTells(size: string -> pos, cs: Sets, c: Act, a: Act, b: Act, r: Region, m: Mem<Contents>, names: set<Name>)
    requires Tagged(m, names, |cs|) && c.tensor in names && Loads(c.value) <= names && Watches(cs, a, b, r, names)
    ensures Account(Step(LogMachine(size, cs), c, m), a, b, r) ==
      Account(m, a, b, r) + if SameAct(c, b) then [{Tally(m, a)}] else []
  {
    StepNotes(size, cs, c, b.tensor, m, names, 1);
    if c.tensor == b.tensor {
      EntryNotes(size, cs, c, b, m, names);
      TellsGrows(m[b.tensor].logs[1], Entry(c.Where(), Eval(LogMachine(size, cs), c.value, c.env, m)), b, a.tensor, r,
        a);
      if SameAct(c, b) {
        SameReads(b.value, b.env, c.value, c.env, a.tensor, r);
        ReadTells(size, cs, c.value, c.env, m, names, a.tensor, r, a);
      }
    }
  }

  /** Some turns lead from one tally and account to another. */
  predicate Tallied(n: nat, told: seq<set<nat>>, turns: seq<bool>, n': nat, told': seq<set<nat>>) {
    n' == n + Trues(turns) && told' == told + Before(turns, n)
  }

  lemma {:induction false} TalliedAppend(n0: nat, told0: seq<set<nat>>, x: seq<bool>, n1: nat, told1: seq<set<nat>>,
      y: seq<bool>, n2: nat, told2: seq<set<nat>>)
    requires Tallied(n0, told0, x, n1, told1) && Tallied(n1, told1, y, n2, told2) && |x| <= 1
    ensures Tallied(n0, told0, x + y, n2, told2)
  {
    if x == [] {
      assert x + y == y;
    } else {
      assert (x + y)[1..] == y && x[1..] == [];
      assert Before(x, n0) == if x[0] then [] else [{n0}];
      assert Trues(x) == (if x[0] then 1 else 0);
      assert Before(x + y, n0) == Before(x, n0) + Before(y, n1);
      assert told2 == told0 + (Before(x, n0) + Before(y, n1));
    }
  }

  lemma StepTallied(size: string -> pos, cs: Sets, c: Act, a: Act, b: Act, r: Region, m: Mem<Contents>,
      names: set<Name>)
    requires Tagged(m, names, |cs|) && c.tensor in names && Loads(c.value) <= names && Watches(cs, a, b, r, names)
    ensures var m1 := Step(LogMachine(size, cs), c, m);
      Tagged(m1, names, |cs|) &&
        Tallied(Tally(m, a), Account(m, a, b, r), Turn(c, a, b), Tally(m1, a), Account(m1, a, b, r))
  {
    StepNotes(size, cs, c, a.tensor, m, names, 0);
    StepTimes(size, cs, c, a, b, r, m, names);
    StepTells(size, cs, c, a, b, r, m, names);
    OneTurn(c, a, b, Tally(m, a));
  }

  lemma OneTurn(c: Act, a: Act, b: Act, n: nat)
    requires !SameAct(a, b)
    ensures Before(Turn(c, a, b), n) == if SameAct(c, b) then [{n}] else []
    ensures Trues(Turn(c, a, b)) == if SameAct(c, a) then 1 else 0
  {
    assert SameAct(c, a) ==> !SameAct(c, b);
    var turns := Turn(c, a, b);
    if turns != [] {
      assert turns[1..] == [];
      assert Before(turns[1..], n + 1) == Before(turns[1..], n) == [] && Trues(turns[1..]) == 0;
    }
  }

  lemma {:induction false} ReadsTell(size: string -> pos, cs: Sets, a: Act, b: Act, r: Region, tr: seq<Act>,
      m: Mem<Contents>, names: set<Name>)
    requires Tagged(m, names, |cs|) && Touches(tr, names, names) && Watches(cs, a, b, r, names)
    ensures var end := Run(LogMachine(size, cs), tr, m);
      Tallied(Tally(m, a), Account(m, a, b, r), Order(tr, a, b), Tally(end, a), Account(end, a, b, r))
  {
    if tr != [] {
      assert tr[0] in tr;
      var m1 := Step(LogMachine(size, cs), tr[0], m);
      StepTallied(size, cs, tr[0], a, b, r, m, names);
      ReadsTell(size, cs, a, b, r, tr[1..], m1, names);
      var end := Run(LogMachine(size, cs), tr[1..], m1);
      TalliedAppend(Tally(m, a), Account(m, a, b, r), Turn(tr[0], a, b), Tally(m1, a), Account(m1, a, b, r),
        Order(tr[1..], a, b),
                    Tally(end, a), Account(end, a, b, r));
    }
  }

  // ---------------------------------------------------------------------------------------------
  // The exact condition

  predicate SolidTrace(tr: seq<Act>) { forall a :: a in tr ==> SolidAct(a) }

  function NamesIn(tr: seq<Act>): set<Name> {
    (set a | a in tr :: a.tensor) + set a, n | a in tr && n in Loads(a.value) :: n
  }

  lemma TouchesOwn(tr: seq<Act>, names: set<Name>)
    requires NamesIn(tr) <= names
    ensures Touches(tr, names, names)
  {
    forall a | a in tr ensures a.tensor in names && Loads(a.value) <= names {
      forall n | n in Loads(a.value) ensures n in names { assert n in NamesIn(tr); }
      assert a.tensor in NamesIn(tr);
    }
  }

  /** The same memory on all machines of logs. */
  ghost predicate SameOnLogs(size: string -> pos, x: seq<Act>, y: seq<Act>) {
    forall cs: Sets, mem: Mem<Contents> :: Cliques(cs) ==>
      Run(LogMachine(size, cs), x, mem) == Run(LogMachine(size, cs), y, mem)
  }

  /** From empty logs, the order of two stores that meet is in the log. */
  lemma WritesFromFresh(size: string -> pos, tr: seq<Act>, a: Act, b: Act, names: set<Name>)
    requires a.tensor == b.tensor && a.tensor in names && NamesIn(tr) <= names
    ensures var end := Run(LogMachine(size, [{a.Where(), b.Where()}]), tr, Fresh(names, 1));
      a.tensor in end && |end[a.tensor].logs| == 1 && LogOrder(end[a.tensor].logs[0], a, b) == Order(tr, a, b)
  {
    var m := Fresh(names, 1);
    FreshTagged(names, 1);
    TouchesOwn(tr, names);
    WritesTell(size, [{a.Where(), b.Where()}], a, b, tr, m, names, 0);
    assert LogOrder(m[a.tensor].logs[0], a, b) == [];
  }

  /** Stores that meet have the same order. */
  lemma WritesAgree(size: string -> pos, x: seq<Act>, y: seq<Act>, a: Act, b: Act)
    requires SameOnLogs(size, x, y) && SolidAct(a) && SolidAct(b)
    requires a.tensor == b.tensor && !Apart(a.Where(), b.Where()) && a.tensor in NamesIn(x) + NamesIn(y)
    ensures Order(x, a, b) == Order(y, a, b)
  {
    MeetingSet(a.Where(), b.Where());
    SameFromFresh(size, x, y, [{a.Where(), b.Where()}], NamesIn(x) + NamesIn(y));
    LoggedAgree(size, x, y, a, b, NamesIn(x) + NamesIn(y));
  }

  lemma LoggedAgree(size: string -> pos, x: seq<Act>, y: seq<Act>, a: Act, b: Act, names: set<Name>)
    requires a.tensor == b.tensor && a.tensor in names && NamesIn(x) <= names && NamesIn(y) <= names
    requires var M := LogMachine(size, [{a.Where(), b.Where()}]);
      Run(M, x, Fresh(names, 1)) == Run(M, y, Fresh(names, 1))
    ensures Order(x, a, b) == Order(y, a, b)
  {
    WritesFromFresh(size, x, a, b, names);
    WritesFromFresh(size, y, a, b, names);
  }

  lemma SameFromFresh(size: string -> pos, x: seq<Act>, y: seq<Act>, cs: Sets, names: set<Name>)
    requires SameOnLogs(size, x, y) && Cliques(cs)
    ensures Run(LogMachine(size, cs), x, Fresh(names, |cs|)) == Run(LogMachine(size, cs), y, Fresh(names, |cs|))
  {
  }

  /** From empty logs, the turns of a store and one that reads from it are in their logs. */
  lemma ReadsFromFresh(size: string -> pos, tr: seq<Act>, a: Act, b: Act, r: Region, cs: Sets, names: set<Name>)
    requires Watches(cs, a, b, r, names) && NamesIn(tr) <= names
    ensures var end := Run(LogMachine(size, cs), tr, Fresh(names, 2));
      Tally(end, a) == Trues(Order(tr, a, b)) && Account(end, a, b, r) == Before(Order(tr, a, b), 0)
  {
    var m := Fresh(names, 2);
    FreshTagged(names, 2);
    TouchesOwn(tr, names);
    ReadsTell(size, cs, a, b, r, tr, m, names);
    assert Tally(m, a) == 0 && Account(m, a, b, r) == [];
    assert [] + Before(Order(tr, a, b), 0) == Before(Order(tr, a, b), 0);
  }

  lemma WatchingSets(a: Act, b: Act) returns (r: Region)
    requires SolidAct(a) && SolidAct(b) && !LoadsApart(b.value, b.env, a)
    ensures ReadsAt(b.value, b.env, a.tensor, r) && Cliques([{a.Where(), r}, {b.Where()}])
  {
    var p :| p in LoadAccesses(b.value) && p.0 == a.tensor && !Apart(a.Where(), ResolveAll(p.1, b.env));
    r := ResolveAll(p.1, b.env);
    MeetingSet(a.Where(), r);
  }

  /** So have a store and one that reads from it. */
  lemma ReadsAgree(size: string -> pos, x: seq<Act>, y: seq<Act>, a: Act, b: Act)
    requires SameOnLogs(size, x, y) && SolidAct(a) && SolidAct(b) && !SameAct(a, b) && !LoadsApart(b.value, b.env, a)
    requires a.tensor in NamesIn(x) + NamesIn(y) && b.tensor in NamesIn(x) + NamesIn(y)
    ensures Order(x, a, b) == Order(y, a, b)
  {
    var r := WatchingSets(a, b);
    var cs, names := [{a.Where(), r}, {b.Where()}], NamesIn(x) + NamesIn(y);
    SameFromFresh(size, x, y, cs, names);
    WatchedAgree(size, x, y, a, b, r, cs, names);
  }

  lemma WatchedAgree(size: string -> pos, x: seq<Act>, y: seq<Act>, a: Act, b: Act, r: Region, cs: Sets,
      names: set<Name>)
    requires Watches(cs, a, b, r, names) && NamesIn(x) <= names && NamesIn(y) <= names
    requires Run(LogMachine(size, cs), x, Fresh(names, 2)) == Run(LogMachine(size, cs), y, Fresh(names, 2))
    ensures Order(x, a, b) == Order(y, a, b)
  {
    ReadsFromFresh(size, x, a, b, r, cs, names);
    ReadsFromFresh(size, y, a, b, r, cs, names);
    BeforeTells(Order(x, a, b), Order(y, a, b), 0);
  }

  function Flipped(turns: seq<bool>): seq<bool> { seq(|turns|, k requires 0 <= k < |turns| => !turns[k]) }

  lemma {:induction false} OrderFlips(tr: seq<Act>, a: Act, b: Act)
    requires !SameAct(a, b)
    ensures Order(tr, a, b) == Flipped(Order(tr, b, a))
  {
    if tr != [] { OrderFlips(tr[1..], a, b); }
  }

  lemma TiedAgree(size: string -> pos, x: seq<Act>, y: seq<Act>, a: Act, b: Act)
    requires SameOnLogs(size, x, y) && SolidAct(a) && SolidAct(b) && Tied(a, b)
    requires a.tensor in NamesIn(x) + NamesIn(y) && b.tensor in NamesIn(x) + NamesIn(y)
    ensures Order(x, a, b) == Order(y, a, b)
  {
    if a.tensor == b.tensor && !Apart(a.Where(), b.Where()) {
      WritesAgree(size, x, y, a, b);
    } else if !LoadsApart(b.value, b.env, a) {
      ReadsAgree(size, x, y, a, b);
    } else {
      ReadsAgree(size, x, y, b, a);
      OrderFlips(x, a, b);
      OrderFlips(y, a, b);
    }
  }

  /** Two runs are the same on all machines of logs exactly when tied stores have the same turns in both;
      by OrdersRun they are then the same on every machine that keeps regions apart. */
  lemma RunsExact(size: string -> pos, x: seq<Act>, y: seq<Act>)
    requires SolidTrace(x) && SolidTrace(y)
    ensures SameOnLogs(size, x, y) <==> OrdersAgree(x, y)
  {
    if SameOnLogs(size, x, y) {
      forall a, b | a in x + y && b in x + y && Tied(a, b) ensures Order(x, a, b) == Order(y, a, b) {
        assert a.tensor in NamesIn(x) + NamesIn(y) && b.tensor in NamesIn(x) + NamesIn(y);
        TiedAgree(size, x, y, a, b);
      }
    }
    if OrdersAgree(x, y) {
      forall cs: Sets, mem: Mem<Contents> | Cliques(cs)
        ensures Run(LogMachine(size, cs), x, mem) == Run(LogMachine(size, cs), y, mem)
      {
        LogMachineKeepsRegionsApart(size, cs);
        OrdersRun(LogMachine(size, cs), x, y, mem);
      }
    }
  }

  // ---------------------------------------------------------------------------------------------
  // Statements and programs of nodes

  /** Tiles written out as constants are not empty. */
  ghost predicate NonEmptyTiles(s: Stmt) { forall p :: p in ReadSet(s) + WriteSet(s) ==> NonEmpty(p.1) }

  lemma {:induction false} TraceIsSolid(size: string -> pos, s: Stmt, env: Env)
    requires NonEmptyTiles(s)
    ensures SolidTrace(Trace(size, s, env))
    decreases s, 1, 0
  {
    match s
    case Store(t, v, ix) =>
      assert (t, ix) in WriteSet(s) && (t, ix).1 == ix;
      NonEmptyIsSolid(ix, env);
      forall p | p in LoadAccesses(v) ensures Solid(ResolveAll(p.1, env)) { NonEmptyIsSolid(p.1, env); }
    case Loop(lo, hi, tile, x, b) =>
      RoundsAreSolid(size, b, x, size(tile), BoundValue(lo, env), BoundValue(hi, env), env);
    case Seq(l, r) =>
      TraceIsSolid(size, l, env);
      TraceIsSolid(size, r, env);
    case Block(ss) => AllAreSolid(size, ss, env);
  }

  lemma {:induction false} RoundsAreSolid(size: string -> pos, b: Stmt, x: Name, step: pos, lo: int, hi: int, env: Env)
    requires NonEmptyTiles(b)
    ensures SolidTrace(LoopTrace(size, b, x, step, lo, hi, env))
    decreases b, 2, if lo < hi then hi - lo else 0
  {
    if lo < hi {
      TraceIsSolid(size, b, Bind(env, x, lo, step));
      RoundsAreSolid(size, b, x, step, lo + step, hi, env);
    }
  }

  lemma {:induction false} AllAreSolid(size: string -> pos, ss: seq<Stmt>, env: Env)
    requires NonEmptyTiles(Block(ss))
    ensures SolidTrace(TraceAll(size, ss, env))
    decreases ss, 0, 0
  {
    if ss != [] {
      forall p | p in ReadSet(ss[0]) + WriteSet(ss[0])
        ensures NonEmpty(p.1)
      {
        assert p in ReadSet(Block(ss)) + WriteSet(Block(ss));
      }
      forall p | p in ReadSet(Block(ss[1..])) + WriteSet(Block(ss[1..])) ensures NonEmpty(p.1) {
        assert p in ReadSet(Block(ss)) + WriteSet(Block(ss));
      }
      TraceIsSolid(size, ss[0], env);
      AllAreSolid(size, ss[1..], env);
    }
  }

  /** The statements do the same on all machines of logs. */
  ghost predicate SameOnAll(size: string -> pos, s: Stmt, t: Stmt, env: Env) {
    forall cs: Sets, mem: Mem<Contents> :: Cliques(cs) ==> SameFrom(LogMachine(size, cs), s, t, env, mem)
  }

  ghost predicate SameFrom<C, V>(M: Machine<C, V>, s: Stmt, t: Stmt, env: Env, mem: Mem<C>) {
    Exec(M, s, env, mem) == Exec(M, t, env, mem)
  }

  lemma SameFromRuns<C, V>(M: Machine<C, V>, s: Stmt, t: Stmt, env: Env, mem: Mem<C>)
    ensures SameFrom(M, s, t, env, mem) <==>
      Run(M, Trace(M.tileSize, s, env), mem) == Run(M, Trace(M.tileSize, t, env), mem)
  {
    ExecIsRun(M, s, env, mem);
    ExecIsRun(M, t, env, mem);
  }

  lemma SameOnAllRuns(size: string -> pos, s: Stmt, t: Stmt, env: Env)
    ensures SameOnAll(size, s, t, env) <==> SameOnLogs(size, Trace(size, s, env), Trace(size, t, env))
  {
    forall cs: Sets, mem: Mem<Contents>
      ensures SameFrom(LogMachine(size, cs), s, t, env, mem) <==>
        Run(LogMachine(size, cs), Trace(size, s, env), mem) == Run(LogMachine(size, cs), Trace(size, t, env), mem)
    {
      SameFromRuns(LogMachine(size, cs), s, t, env, mem);
    }
  }

  /** Two statements do the same on all machines of logs exactly when any two stores that are tied have the
      same turns in both.  Both sides of loop fission and fusion are such statements, with any bodies and
      bounds. */
  lemma SameEffectIff(size: string -> pos, s: Stmt, t: Stmt, env: Env)
    requires NonEmptyTiles(s) && NonEmptyTiles(t)
    ensures SameOnAll(size, s, t, env) <==> OrdersAgree(Trace(size, s, env), Trace(size, t, env))
  {
    TraceIsSolid(size, s, env);
    TraceIsSolid(size, t, env);
    RunsExact(size, Trace(size, s, env), Trace(size, t, env));
    SameOnAllRuns(size, s, t, env);
  }

  /** So they do then on every machine that keeps regions apart. */
  lemma SameEffect<C(!new), V(!new)>(M: Machine<C, V>, s: Stmt, t: Stmt, env: Env, mem: Mem<C>)
    requires KeepsRegionsApart(M) && OrdersAgree(Trace(M.tileSize, s, env), Trace(M.tileSize, t, env))
    ensures Exec(M, s, env, mem) == Exec(M, t, env, mem)
  {
    SameFromRuns(M, s, t, env, mem);
    OrdersRun(M, Trace(M.tileSize, s, env), Trace(M.tileSize, t, env), mem);
  }

  /** What a program of nodes with joined names executes. */
  function TreeTrace(size: string -> pos, s: Stmt): seq<Act> {
    match s
    case Seq(l, r) => TreeTrace(size, l) + TreeTrace(size, r)
    case _ => MembersTrace(size, s, 0)
  }

  function MembersTrace(size: string -> pos, node: Stmt, k: nat): seq<Act>
    decreases Fusion.Width(node) - k
  {
    if k >= Fusion.Width(node) then [] else Trace(size, Lane(node, k), map[]) + MembersTrace(size, node, k + 1)
  }

  lemma {:induction false} MembersRun<C, V>(M: Machine<C, V>, node: Stmt, k: nat, mem: Mem<C>)
    ensures Fusion.RunLanes(M, node, k, mem) == Run(M, MembersTrace(M.tileSize, node, k), mem)
    decreases Fusion.Width(node) - k
  {
    if k < Fusion.Width(node) {
      ExecIsRun(M, Lane(node, k), map[], mem);
      RunAppend(M, Trace(M.tileSize, Lane(node, k), map[]), MembersTrace(M.tileSize, node, k + 1), mem);
      MembersRun(M, node, k + 1, Exec(M, Lane(node, k), map[], mem));
    }
  }

  lemma {:induction false} TreeRuns<C, V>(M: Machine<C, V>, s: Stmt, mem: Mem<C>)
    ensures RunTree(M, s, mem) == Run(M, TreeTrace(M.tileSize, s), mem)
  {
    if s.Seq? {
      TreeRuns(M, s.left, mem);
      TreeRuns(M, s.right, RunTree(M, s.left, mem));
      RunAppend(M, TreeTrace(M.tileSize, s.left), TreeTrace(M.tileSize, s.right), mem);
    } else {
      MembersRun(M, s, 0, mem);
    }
  }

  lemma LaneTiles(s: Stmt, k: nat)
    requires NonEmptyTiles(s)
    ensures NonEmptyTiles(Lane(s, k))
  {
    TreeRules.LaneAccesses(s, k);
    forall p | p in ReadSet(Lane(s, k)) + WriteSet(Lane(s, k)) ensures NonEmpty(p.1) {
      var t :| (t, p.1) in ReadSet(s) + WriteSet(s);
      assert (t, p.1).1 == p.1;
    }
  }

  lemma {:induction false} MembersAreSolid(size: string -> pos, node: Stmt, k: nat)
    requires NonEmptyTiles(node)
    ensures SolidTrace(MembersTrace(size, node, k))
    decreases Fusion.Width(node) - k
  {
    if k < Fusion.Width(node) {
      LaneTiles(node, k);
      TraceIsSolid(size, Lane(node, k), map[]);
      MembersAreSolid(size, node, k + 1);
    }
  }

  lemma {:induction false} TreeIsSolid(size: string -> pos, s: Stmt)
    requires NonEmptyTiles(s)
    ensures SolidTrace(TreeTrace(size, s))
  {
    if s.Seq? {
      TreeIsSolid(size, s.left);
      TreeIsSolid(size, s.right);
    } else {
      MembersAreSolid(size, s, 0);
    }
  }

  /** The programs do the same on all machines of logs. */
  ghost predicate SamePrograms(size: string -> pos, s: Stmt, t: Stmt) {
    forall cs: Sets, mem: Mem<Contents> :: Cliques(cs) ==> SameTreeFrom(LogMachine(size, cs), s, t, mem)
  }

  ghost predicate SameTreeFrom<C, V>(M: Machine<C, V>, s: Stmt, t: Stmt, mem: Mem<C>) {
    RunTree(M, s, mem) == RunTree(M, t, mem)
  }

  lemma SameTreeRuns<C, V>(M: Machine<C, V>, s: Stmt, t: Stmt, mem: Mem<C>)
    ensures SameTreeFrom(M, s, t, mem) <==>
      Run(M, TreeTrace(M.tileSize, s), mem) == Run(M, TreeTrace(M.tileSize, t), mem)
  {
    TreeRuns(M, s, mem);
    TreeRuns(M, t, mem);
  }

  lemma SameProgramsRun(size: string -> pos, s: Stmt, t: Stmt)
    ensures SamePrograms(size, s, t) <==> SameOnLogs(size, TreeTrace(size, s), TreeTrace(size, t))
  {
    forall cs: Sets, mem: Mem<Contents>
      ensures SameTreeFrom(LogMachine(size, cs), s, t, mem) <==>
        Run(LogMachine(size, cs), TreeTrace(size, s), mem) == Run(LogMachine(size, cs), TreeTrace(size, t), mem)
    {
      SameTreeRuns(LogMachine(size, cs), s, t, mem);
    }
  }

  /** The same for programs of nodes with joined names, whatever the numbers of their members: one may
      stand for the other on all machines of logs exactly when tied stores have the same turns in both. */
  lemma SameProgramIff(size: string -> pos, s: Stmt, t: Stmt)
    requires NonEmptyTiles(s) && NonEmptyTiles(t)
    ensures SamePrograms(size, s, t) <==> OrdersAgree(TreeTrace(size, s), TreeTrace(size, t))
  {
    TreeIsSolid(size, s);
    TreeIsSolid(size, t);
    RunsExact(size, TreeTrace(size, s), TreeTrace(size, t));
    SameProgramsRun(size, s, t);
  }

  /** And then on every machine that keeps regions apart. */
  lemma SameProgram<C(!new), V(!new)>(M: Machine<C, V>, s: Stmt, t: Stmt, mem: Mem<C>)
    requires KeepsRegionsApart(M) && OrdersAgree(TreeTrace(M.tileSize, s), TreeTrace(M.tileSize, t))
    ensures RunTree(M, s, mem) == RunTree(M, t, mem)
  {
    SameTreeRuns(M, s, t, mem);
    OrdersRun(M, TreeTrace(M.tileSize, s), TreeTrace(M.tileSize, t), mem);
  }

  // ---------------------------------------------------------------------------------------------
  // The condition on rounds of single stores

  function OneLoop(s1: Stmt, s2: Stmt, x: Name, tile: string, h: int): Stmt {
    Loop(Num(0), Num(h), tile, x, Seq(s1, s2))
  }

  function TwoLoops(s1: Stmt, s2: Stmt, x: Name, tile: string, h: int): Stmt {
    Seq(Loop(Num(0), Num(h), tile, x, s1), Loop(Num(0), Num(h), tile, x, s2))
  }

  ghost predicate SplitsAtEnd(size: string -> pos, s1: Stmt, s2: Stmt, x: Name, tile: string, env: Env, h: int) {
    forall cs: Sets, mem: Mem<Contents> :: Cliques(cs) ==>
      LoopExact.SplitsAt(LogMachine(size, cs), s1, s2, x, tile, env, h, mem)
  }

  ghost predicate RoundsAgree(size: string -> pos, s1: Stmt, s2: Stmt, x: Name, tile: string, env: Env, h: int) {
    OrdersAgree(Trace(size, TwoLoops(s1, s2, x, tile, h), env), Trace(size, OneLoop(s1, s2, x, tile, h), env))
  }

  /** At one end, splitting a loop over any bodies is right on all machines of logs exactly when the orders
      agree there. */
  lemma OneEndIff(size: string -> pos, s1: Stmt, s2: Stmt, x: Name, tile: string, env: Env, h: int)
    requires NonEmptyTiles(Seq(s1, s2))
    ensures SplitsAtEnd(size, s1, s2, x, tile, env, h) <==> RoundsAgree(size, s1, s2, x, tile, env, h)
  {
    var s, t := TwoLoops(s1, s2, x, tile, h), OneLoop(s1, s2, x, tile, h);
    SameEffectIff(size, s, t, env);
    forall cs: Sets, mem: Mem<Contents>
      ensures SameFrom(LogMachine(size, cs), s, t, env, mem) <==>
        LoopExact.SplitsAt(LogMachine(size, cs), s1, s2, x, tile, env, h, mem)
    {
    }
  }

  /** At every end up to a bound it is so for single stores exactly when no round of the second store is in
      conflict with a later round of the first. */
  lemma AllEndsIff(size: string -> pos, s1: Stmt, s2: Stmt, x: Name, tile: string, env: Env, bound: int)
    requires s1.Store? && s2.Store? && LoopExact.NonEmptyAccesses(s1) && LoopExact.NonEmptyAccesses(s2)
    ensures (forall h: int :: h <= bound ==> RoundsAgree(size, s1, s2, x, tile, env, h)) <==>
      LoopExact.NoHazard(s1, s2, x, size(tile), env, bound)
  {
    LoopExact.FissionExact(size, s1, s2, x, tile, env, bound);
    forall h: int ensures SplitsAtEnd(size, s1, s2, x, tile, env, h) <==> RoundsAgree(size, s1, s2, x, tile, env, h) {
      OneEndIff(size, s1, s2, x, tile, env, h);
    }
    AllEnds(size, s1, s2, x, tile, env, bound);
  }

  lemma AllEnds(size: string -> pos, s1: Stmt, s2: Stmt, x: Name, tile: string, env: Env, bound: int)
    ensures (forall h: int :: h <= bound ==> SplitsAtEnd(size, s1, s2, x, tile, env, h)) <==>
      forall cs :: Cliques(cs) ==> LoopExact.SplitsRight(LogMachine(size, cs), s1, s2, x, tile, env, bound)
  {
    if forall h: int :: h <= bound ==> SplitsAtEnd(size, s1, s2, x, tile, env, h) {
      forall cs, h: int, mem: Mem<Contents> | Cliques(cs) && h <= bound
        ensures LoopExact.SplitsAt(LogMachine(size, cs), s1, s2, x, tile, env, h, mem)
      {
        assert SplitsAtEnd(size, s1, s2, x, tile, env, h);
      }
    }
    if forall cs :: Cliques(cs) ==> LoopExact.SplitsRight(LogMachine(size, cs), s1, s2, x, tile, env, bound) {
      forall h: int, cs: Sets, mem: Mem<Contents> | h <= bound && Cliques(cs)
        ensures LoopExact.SplitsAt(LogMachine(size, cs), s1, s2, x, tile, env, h, mem)
      {
        assert LoopExact.SplitsRight(LogMachine(size, cs), s1, s2, x, tile, env, bound);
      }
    }
  }
}
