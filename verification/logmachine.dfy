/** Machines that forget nothing.  A tensor keeps, for every one of some sets of regions that all meet
    each other, the list of what was stored there; arithmetic builds terms.  Every such machine keeps
    regions apart, and from what one of them shows one can tell the order of two executed stores
    that do not commute.
    Main results: LogMachineKeepsRegionsApart and OrderShows. */
module LogMachines {
  import opened Ast
  import opened Machines
  import opened Reordering

  datatype Term = Lit(text: string) | Ran(lo: int, len: int) | App(op: Oper, args: seq<Term>) | Seen(tag: Name,
    at: Region, logs: seq<seq<Entry>>)
  datatype Entry = Entry(at: Region, value: Term)

  /** A tensor with its name and one log per set of regions. */
  datatype Contents = Contents(tag: Name, logs: seq<seq<Entry>>)

  type Sets = seq<set<Region>>

  /** The regions of a set all meet each other, and themselves. */
  ghost predicate Cliques(cs: Sets) {
    forall i, r, q :: 0 <= i < |cs| && r in cs[i] && q in cs[i] ==> !Apart(r, q)
  }

  /** A read sees the logs its region belongs to. */
  function Visible(cs: Sets, c: Contents, r: Region): seq<seq<Entry>> {
    seq(|cs|, i requires 0 <= i < |cs| => if i < |c.logs| && r in cs[i] then c.logs[i] else [])
  }

  function Noted(cs: Sets, c: Contents, r: Region, v: Term): Contents {
    Contents(c.tag,
      seq(|c.logs|,
      i requires 0 <= i < |c.logs| => if i < |cs| && r in cs[i] then c.logs[i] + [Entry(r, v)] else c.logs[i]))
  }

  function Blank(n: nat): seq<seq<Entry>> { seq(n, _ => []) }

  function LogMachine(size: string -> pos, cs: Sets): Machine<Contents, Term> {
    Machine(size, Contents("", Blank(|cs|)), (c: Contents, r) => Seen(c.tag, r, Visible(cs, c, r)),
      (c: Contents, r, v) => Noted(cs, c, r, v),
            t => Lit(t), (lo, n) => Ran(lo, n), (op, vs) => App(op, vs))
  }

  lemma LogMachineKeepsRegionsApart(size: string -> pos, cs: Sets)
    requires Cliques(cs)
    ensures KeepsRegionsApart(LogMachine(size, cs))
  {
    var M := LogMachine(size, cs);
    forall c: Contents, r: Region, q: Region, v: Term | Apart(r, q)
      ensures M.read(M.write(c, r, v), q) == M.read(c, q)
    {
      assert Visible(cs, Noted(cs, c, r, v), q) == Visible(cs, c, q);
    }
    forall c: Contents, r: Region, q: Region, v: Term, w: Term | Apart(r, q)
      ensures M.write(M.write(c, r, v), q, w) == M.write(M.write(c, q, w), r, v)
    {
      assert Noted(cs, Noted(cs, c, r, v), q, w).logs == Noted(cs, Noted(cs, c, q, w), r, v).logs;
    }
  }

  // ---------------------------------------------------------------------------------------------
  // What a memory of logs tells

  /** These tensors are there under their own names, with all their logs. */
  ghost predicate Tagged(mem: Mem<Contents>, names: set<Name>, n: nat) {
    forall t :: t in names ==> t in mem && mem[t].tag == t && |mem[t].logs| == n
  }

  /** Tensors with empty logs. */
  function Fresh(names: set<Name>, n: nat): Mem<Contents> { map t | t in names :: Contents(t, Blank(n)) }

  lemma FreshTagged(names: set<Name>, n: nat)
    ensures Tagged(Fresh(names, n), names, n)
  {
  }

  /** Nothing is forgotten. */
  ghost predicate Grown(m1: Mem<Contents>, m2: Mem<Contents>, names: set<Name>) {
    forall t :: t in names && t in m1 ==>
      t in m2 && |m1[t].logs| == |m2[t].logs| && forall i :: 0 <= i < |m1[t].logs| ==> m1[t].logs[i] <= m2[t].logs[i]
  }

  lemma StepGrows(size: string -> pos, cs: Sets, a: Act, mem: Mem<Contents>, names: set<Name>)
    requires Tagged(mem, names, |cs|) && a.tensor in names
    ensures Tagged(Step(LogMachine(size, cs), a, mem), names, |cs|) &&
      Grown(mem, Step(LogMachine(size, cs), a, mem), names)
  {
  }

  lemma {:induction false} RunGrows(size: string -> pos, cs: Sets, tr: seq<Act>, mem: Mem<Contents>, names: set<Name>)
    requires Tagged(mem, names, |cs|) && Touches(tr, names, names)
    ensures Tagged(Run(LogMachine(size, cs), tr, mem), names, |cs|) &&
      Grown(mem, Run(LogMachine(size, cs), tr, mem), names)
  {
    if tr != [] {
      assert tr[0] in tr;
      StepGrows(size, cs, tr[0], mem, names);
      RunGrows(size, cs, tr[1..], Step(LogMachine(size, cs), tr[0], mem), names);
    }
  }

  /** One value comes from one resolved expression, which saw the same of every tensor it loads. */
  lemma {:induction false} ValueTells(size: string -> pos, cs: Sets, e: Expr, env: Env, m1: Mem<Contents>, f: Expr,
      env': Env, m2: Mem<Contents>, names: set<Name>)
    requires Loads(e) <= names && Loads(f) <= names && Tagged(m1, names, |cs|) && Tagged(m2, names, |cs|)
    requires Eval(LogMachine(size, cs), e, env, m1) == Eval(LogMachine(size, cs), f, env', m2)
    ensures ResolveExpr(e, env) == ResolveExpr(f, env')
    ensures forall p :: p in LoadAccesses(e) ==>
      p.0 in names && Visible(cs, m1[p.0], ResolveAll(p.1, env)) == Visible(cs, m2[p.0], ResolveAll(p.1, env))
  {
    var M := LogMachine(size, cs);
    match e
    case Load(t, ix) => assert f.Load?;
    case Const(_) => assert f.Const?;
    case Arange(_) => assert f.Arange?;
    case Op(op, args) =>
      assert f.Op?;
      assert EvalAll(M, args, env, m1) == EvalAll(M, f.args, env', m2);
      forall k | 0 <= k < |args|
        ensures ResolveExpr(args[k], env) == ResolveExpr(f.args[k], env')
        ensures forall p :: p in LoadAccesses(args[k]) ==>
          p.0 in names && Visible(cs, m1[p.0], ResolveAll(p.1, env)) == Visible(cs, m2[p.0], ResolveAll(p.1, env))
      {
        assert EvalAll(M, args, env, m1)[k] == EvalAll(M, f.args, env', m2)[k];
        forall n | n in Loads(args[k]) ensures n in names { assert n in Loads(e); }
        forall n | n in Loads(f.args[k]) ensures n in names { assert n in Loads(f); }
        ValueTells(size, cs, args[k], env, m1, f.args[k], env', m2, names);
      }
      assert ResolveExprs(args, env) == ResolveExprs(f.args, env');
  }

  /** What a store notes first stays at its place in the log, whatever runs after it. */
  lemma FirstNote(size: string -> pos, cs: Sets, a: Act, tr: seq<Act>, mem: Mem<Contents>, names: set<Name>, i: nat)
    requires Tagged(mem, names, |cs|) && a.tensor in names && Touches(tr, names, names) && i < |cs| &&
      a.Where() in cs[i]
    ensures var M, at := LogMachine(size, cs), |mem[a.tensor].logs[i]|;
            var end := Run(M, tr, Step(M, a, mem));
            Noticed(end, a.tensor, i, at, Entry(a.Where(), Eval(M, a.value, a.env, mem)))
  {
    var M := LogMachine(size, cs);
    var mem1 := Step(M, a, mem);
    StepGrows(size, cs, a, mem, names);
    RunGrows(size, cs, tr, mem1, names);
    assert mem1[a.tensor].logs[i] == mem[a.tensor].logs[i] + [Entry(a.Where(), Eval(M, a.value, a.env, mem))];
  }

  /** The log has this entry at this place. */
  ghost predicate Noticed(mem: Mem<Contents>, t: Name, i: nat, at: nat, e: Entry) {
    t in mem && i < |mem[t].logs| && at < |mem[t].logs[i]| && mem[t].logs[i][at] == e
  }

  /** A log that has not grown since the memory m, while the log of what the value v saw has. */
  ghost predicate Aged(m: Mem<Contents>, mem: Mem<Contents>, t: Name, u: Name) {
    && t in m && t in mem && |m[t].logs| == |mem[t].logs| == 2 && mem[t].logs[1] == m[t].logs[1]
    && u in m && u in mem && |m[u].logs| == |mem[u].logs| == 2 && |m[u].logs[0]| < |mem[u].logs[0]|
  }

  /** A value that saw a log does not come out again once the log is longer. */
  lemma LongerLogShows(size: string -> pos, cs: Sets, e: Expr, env: Env, m: Mem<Contents>, f: Expr, env': Env,
      mem: Mem<Contents>, names: set<Name>, u: Name, q: Index)
    requires |cs| == 2 && (u, q) in LoadAccesses(e) && ResolveAll(q, env) in cs[0] && Loads(e) <= names &&
      Loads(f) <= names && u in names
    requires Tagged(m, names, 2) && Tagged(mem, names, 2) && |m[u].logs[0]| < |mem[u].logs[0]|
    ensures Eval(LogMachine(size, cs), f, env', mem) != Eval(LogMachine(size, cs), e, env, m)
  {
    SameValueSameView(size, cs, e, env, m, f, env', mem, names, u, q);
    assert Visible(cs, m[u], ResolveAll(q, env))[0] == m[u].logs[0] &&
      Visible(cs, mem[u], ResolveAll(q, env))[0] == mem[u].logs[0];
  }

  lemma SameValueSameView(size: string -> pos, cs: Sets, e: Expr, env: Env, m: Mem<Contents>, f: Expr, env': Env,
      mem: Mem<Contents>, names: set<Name>, u: Name, q: Index)
    requires (u, q) in LoadAccesses(e) && Loads(e) <= names && Loads(f) <= names && u in names &&
      Tagged(m, names, |cs|) && Tagged(mem, names, |cs|)
    ensures Eval(LogMachine(size, cs), f, env', mem) == Eval(LogMachine(size, cs), e, env, m) ==>
      Visible(cs, m[u], ResolveAll(q, env)) == Visible(cs, mem[u], ResolveAll(q, env))
  {
    if Eval(LogMachine(size, cs), f, env', mem) == Eval(LogMachine(size, cs), e, env, m) {
      ValueTells(size, cs, e, env, m, f, env', mem, names);
      assert (u, q).0 == u && (u, q).1 == q;
    }
  }

  /** The first entry a later run makes is not the one the act would have made before. */
  lemma {:induction false} LaterNote(size: string -> pos, cs: Sets, a: Act, q: Index, u: Name, tr: seq<Act>,
      m: Mem<Contents>, mem: Mem<Contents>, names: set<Name>)
    requires |cs| == 2 && cs[1] == {a.Where()} && (u, q) in LoadAccesses(a.value) && ResolveAll(q, a.env) in cs[0]
    requires Tagged(m, names, 2) && Tagged(mem, names, 2) && Touches(tr, names, names) && a in tr && u in names
    requires Aged(m, mem, a.tensor, u)
    ensures var M := LogMachine(size, cs);
            !Noticed(Run(M, tr, mem), a.tensor, 1, |m[a.tensor].logs[1]|, Entry(a.Where(), Eval(M, a.value, a.env, m)))
  {
    var M, b := LogMachine(size, cs), tr[0];
    assert b in tr;
    var mem1 := Step(M, b, mem);
    StepGrows(size, cs, b, mem, names);
    if b.tensor == a.tensor && b.Where() == a.Where() {
      FirstNote(size, cs, b, tr[1..], mem, names, 1);
      LongerLogShows(size, cs, a.value, a.env, m, b.value, b.env, mem, names, u, q);
    } else {
      assert a in tr[1..];
      assert mem[u].logs[0] <= mem1[u].logs[0];
      LaterNote(size, cs, a, q, u, tr[1..], m, mem1, names);
    }
  }

  // ---------------------------------------------------------------------------------------------
  // The order of two stores that do not commute

  /** A region that meets itself: it is not empty. */
  predicate Solid(r: Region) { !Apart(r, r) }

  /** The act stores to, and loads from, regions that are not empty. */
  predicate SolidAct(a: Act) {
    Solid(a.Where()) && forall p :: p in LoadAccesses(a.value) ==> Solid(ResolveAll(p.1, a.env))
  }

  /** Tiles written out as constants are not empty. */
  predicate NonEmpty(ix: Index) { forall d :: 0 <= d < |ix| && ix[d].ConstTile? ==> ix[d].interval > 0 }

  lemma NonEmptyIsSolid(ix: Index, env: Env)
    requires NonEmpty(ix)
    ensures Solid(ResolveAll(ix, env))
  {
    var r := ResolveAll(ix, env);
    forall d | 0 <= d < |r| ensures !ApartExtents(r[d], r[d]) { assert r[d] == Resolve(ix[d], env); }
  }

  lemma MeetingSet(r: Region, q: Region)
    requires Solid(r) && Solid(q) && !Apart(r, q)
    ensures forall x, y :: x in {r, q} && y in {r, q} ==> !Apart(x, y)
  {
    if Apart(q, r) {
      var d :| 0 <= d < |q| && d < |r| && ApartExtents(q[d], r[d]);
      assert ApartExtents(r[d], q[d]);
      assert false;
    }
  }

  /** b runs, then others, then a, against a before b. */
  ghost predicate OrderIsSeen(size: string -> pos, cs: Sets, a: Act, b: Act, mid: seq<Act>, last: seq<Act>,
      m: Mem<Contents>)
  {
    Run(LogMachine(size, cs), mid + [a] + last, Step(LogMachine(size, cs), b, m)) !=
      Run(LogMachine(size, cs), mid + last, Step(LogMachine(size, cs), b, Step(LogMachine(size, cs), a, m)))
  }

  lemma RunFirst<C, V>(M: Machine<C, V>, a: Act, tr: seq<Act>, mem: Mem<C>)
    ensures Run(M, [a] + tr, mem) == Run(M, tr, Step(M, a, mem))
  {
    assert ([a] + tr)[1..] == tr;
  }

  lemma TouchesParts(x: seq<Act>, y: seq<Act>, names: set<Name>)
    requires Touches(x, names, names) && Touches(y, names, names)
    ensures Touches(x + y, names, names)
  {
  }

  /** Both write the same place. */
  lemma WritesShow(size: string -> pos, a: Act, b: Act, mid: seq<Act>, last: seq<Act>, names: set<Name>,
      m: Mem<Contents>)
    requires SolidAct(a) && SolidAct(b) && a.tensor == b.tensor && !Apart(a.Where(), b.Where()) && !SameAct(a, b)
    requires Touches([a], names, names) && Touches([b], names, names) && Touches(mid, names, names) &&
      Touches(last, names, names) && Tagged(m, names, 1)
    ensures OrderIsSeen(size, [{a.Where(), b.Where()}], a, b, mid, last, m)
  {
    var cs := [{a.Where(), b.Where()}];
    var M, at := LogMachine(size, cs), |m[a.tensor].logs[0]|;
    assert a in [a] && b in [b];
    TouchesParts(mid, [a], names);
    TouchesParts(mid + [a], last, names);
    TouchesParts(mid, last, names);
    TouchesParts([b], mid + last, names);
    FirstNote(size, cs, b, mid + [a] + last, m, names, 0);
    FirstNote(size, cs, a, [b] + (mid + last), m, names, 0);
    RunFirst(M, b, mid + last, Step(M, a, m));
    DifferentNotes(size, cs, a, b, m, names);
  }

  lemma DifferentNotes(size: string -> pos, cs: Sets, a: Act, b: Act, m: Mem<Contents>, names: set<Name>)
    requires Tagged(m, names, |cs|) && Touches([a], names, names) && Touches([b], names, names) &&
      a.tensor == b.tensor && !SameAct(a, b)
    ensures Entry(a.Where(), Eval(LogMachine(size, cs), a.value, a.env, m)) != Entry(b.Where(),
      Eval(LogMachine(size, cs), b.value, b.env, m))
  {
    assert a in [a] && b in [b];
    var M := LogMachine(size, cs);
    if Eval(M, a.value, a.env, m) == Eval(M, b.value, b.env, m) {
      ValueTells(size, cs, a.value, a.env, m, b.value, b.env, m, names);
    }
  }

  /** b reads what a writes. */
  lemma EarlierReadShows(size: string -> pos, a: Act, b: Act, q: Index, mid: seq<Act>, last: seq<Act>, names: set<Name>,
      m: Mem<Contents>)
    requires SolidAct(a) && SolidAct(b) && (a.tensor == b.tensor ==> Apart(a.Where(), b.Where()))
    requires (a.tensor, q) in LoadAccesses(b.value) && !Apart(a.Where(), ResolveAll(q, b.env))
    requires Touches([a], names, names) && Touches([b], names, names) && Touches(mid, names, names) &&
      Touches(last, names, names) && Tagged(m, names, 2)
    ensures OrderIsSeen(size, [{a.Where(), ResolveAll(q, b.env)}, {b.Where()}], a, b, mid, last, m)
  {
    var cs := [{a.Where(), ResolveAll(q, b.env)}, {b.Where()}];
    var M, at := LogMachine(size, cs), |m[b.tensor].logs[1]|;
    assert a in [a] && b in [b];
    var m1 := Step(M, a, m);
    StepGrows(size, cs, a, m, names);
    assert a.tensor == b.tensor ==> a.Where() != b.Where();
    assert m1[b.tensor].logs[1] == m[b.tensor].logs[1];
    TouchesParts(mid, [a], names);
    TouchesParts(mid + [a], last, names);
    TouchesParts(mid, last, names);
    FirstNote(size, cs, b, mid + [a] + last, m, names, 1);
    FirstNote(size, cs, b, mid + last, m1, names, 1);
    assert m1[a.tensor].logs[0] == m[a.tensor].logs[0] + [Entry(a.Where(), Eval(M, a.value, a.env, m))];
    LongerLogShows(size, cs, b.value, b.env, m, b.value, b.env, m1, names, a.tensor, q);
  }

  /** a reads what b writes. */
  lemma LaterReadShows(size: string -> pos, a: Act, b: Act, q: Index, mid: seq<Act>, last: seq<Act>, names: set<Name>,
      m: Mem<Contents>)
    requires SolidAct(a) && SolidAct(b) && (a.tensor == b.tensor ==> Apart(a.Where(), b.Where()))
    requires (b.tensor, q) in LoadAccesses(a.value) && !Apart(b.Where(), ResolveAll(q, a.env))
    requires Touches([a], names, names) && Touches([b], names, names) && Touches(mid, names, names) &&
      Touches(last, names, names) && Tagged(m, names, 2)
    ensures OrderIsSeen(size, [{b.Where(), ResolveAll(q, a.env)}, {a.Where()}], a, b, mid, last, m)
  {
    var cs := [{b.Where(), ResolveAll(q, a.env)}, {a.Where()}];
    var M, at := LogMachine(size, cs), |m[a.tensor].logs[1]|;
    assert a in [a] && b in [b];
    var m1 := Step(M, b, m);
    StepGrows(size, cs, b, m, names);
    assert a.tensor == b.tensor ==> a.Where() != b.Where();
    assert m1[b.tensor].logs[0] == m[b.tensor].logs[0] + [Entry(b.Where(), Eval(M, b.value, b.env, m))];
    assert Aged(m, m1, a.tensor, b.tensor);
    TouchesParts(mid, [a], names);
    TouchesParts(mid + [a], last, names);
    TouchesParts(mid, last, names);
    TouchesParts([b], mid + last, names);
    assert a in mid + [a] + last;
    LaterNote(size, cs, a, q, b.tensor, mid + [a] + last, m, m1, names);
    FirstNote(size, cs, a, [b] + (mid + last), m, names, 1);
    RunFirst(M, b, mid + last, Step(M, a, m));
  }

  /** Two stores that are neither independent nor the same run in an order some of these machines show. */
  lemma OrderShows(size: string -> pos, a: Act, b: Act, mid: seq<Act>, last: seq<Act>, names: set<Name>)
      returns (cs: Sets)
    requires SolidAct(a) && SolidAct(b) && !Independent(b, a) && !SameAct(a, b)
    requires Touches([a], names, names) && Touches([b], names, names) && Touches(mid, names, names) &&
      Touches(last, names, names)
    ensures Cliques(cs)
    ensures forall m :: Tagged(m, names, |cs|) ==> OrderIsSeen(size, cs, a, b, mid, last, m)
  {
    if a.tensor == b.tensor && !Apart(b.Where(), a.Where()) {
      MeetingSet(b.Where(), a.Where());
      cs := [{a.Where(), b.Where()}];
      forall m | Tagged(m, names, |cs|)
        ensures OrderIsSeen(size, cs, a, b, mid, last, m)
      {
        WritesShow(size, a, b, mid, last, names, m);
      }
    } else if !LoadsApart(b.value, b.env, a) {
      var p :| p in LoadAccesses(b.value) && p.0 == a.tensor && !Apart(a.Where(), ResolveAll(p.1, b.env));
      MeetingSet(a.Where(), ResolveAll(p.1, b.env));
      cs := [{a.Where(), ResolveAll(p.1, b.env)}, {b.Where()}];
      forall m | Tagged(m, names, |cs|)
        ensures OrderIsSeen(size, cs, a, b, mid, last, m)
      {
        EarlierReadShows(size, a, b, p.1, mid, last, names, m);
      }
    } else {
      var p :| p in LoadAccesses(a.value) && p.0 == b.tensor && !Apart(b.Where(), ResolveAll(p.1, a.env));
      MeetingSet(b.Where(), ResolveAll(p.1, a.env));
      cs := [{b.Where(), ResolveAll(p.1, a.env)}, {a.Where()}];
      forall m | Tagged(m, names, |cs|)
        ensures OrderIsSeen(size, cs, a, b, mid, last, m)
      {
        LaterReadShows(size, a, b, p.1, mid, last, names, m);
      }
    }
  }
}
