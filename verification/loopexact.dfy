/** When loops may be split and fused, exactly (optimizer/src/rules.rs, applier.rs). */
module LoopExact {
  import opened Ast
  import opened Text
  import opened LoopNames
  import opened Machines
  import opened Reordering
  import opened LoopRules
  import opened LogMachines

  // For bodies of single stores, splitting a loop is right on every machine that keeps regions apart, for
  // every trip count up to a bound, if and only if every round of the second body is independent of, or
  // the same store as, every later round of the first (FissionExact); for fusion, the tiles must have one
  // size unless the loops do not run (FusionTilesExact).

  // ---------------------------------------------------------------------------------------------
  // Rounds of a single store

  /** What the store executes in round k of a loop from 0. */
  function Round(s: Stmt, x: Name, step: pos, env: Env, k: nat): Act
    requires s.Store?
  {
    Act(s.tensor, s.value, s.index, Bind(env, x, k * step, step))
  }

  function Rounds(s: Stmt, x: Name, step: pos, env: Env, from: nat, end: nat): (r: seq<Act>)
    requires s.Store? && from <= end
    ensures |r| == end - from && forall k :: 0 <= k < |r| ==> r[k] == Round(s, x, step, env, from + k)
    decreases end - from
  {
    if from == end then [] else [Round(s, x, step, env, from)] + Rounds(s, x, step, env, from + 1, end)
  }

  /** The bound h gives n rounds. */
  predicate Gives(h: int, step: pos, n: nat) {
    h <= n * step && (n > 0 ==> (n - 1) * step < h)
  }

  lemma RoundStarts(k: nat, n: nat, step: pos)
    requires k < n
    ensures k * step <= (n - 1) * step
  {
    assert (n - 1 - k) * step >= 0;
  }

  lemma {:induction false} LoopRounds(size: string -> pos, s: Stmt, x: Name, step: pos, h: int, env: Env, k: nat,
      n: nat)
    requires s.Store? && k <= n && Gives(h, step, n)
    ensures LoopTrace(size, s, x, step, k * step, h, env) == Rounds(s, x, step, env, k, n)
    decreases n - k
  {
    if k < n {
      RoundStarts(k, n, step);
      assert (k + 1) * step == k * step + step;
      LoopRounds(size, s, x, step, h, env, k + 1, n);
      assert Trace(size, s, Bind(env, x, k * step, step)) == [Round(s, x, step, env, k)];
    }
  }

  function Mixed(s1: Stmt, s2: Stmt, x: Name, step: pos, env: Env, from: nat, end: nat): seq<Act>
    requires s1.Store? && s2.Store? && from <= end
    decreases end - from
  {
    if from == end then []
    else [Round(s1, x, step, env, from), Round(s2, x, step, env, from)] + Mixed(s1, s2, x, step, env, from + 1, end)
  }

  lemma {:induction false} LoopMixed(size: string -> pos, s1: Stmt, s2: Stmt, x: Name, step: pos, h: int, env: Env,
      k: nat, n: nat)
    requires s1.Store? && s2.Store? && k <= n && Gives(h, step, n)
    ensures LoopTrace(size, Seq(s1, s2), x, step, k * step, h, env) == Mixed(s1, s2, x, step, env, k, n)
    decreases n - k
  {
    if k < n {
      RoundStarts(k, n, step);
      assert (k + 1) * step == k * step + step;
      LoopMixed(size, s1, s2, x, step, h, env, k + 1, n);
      var env' := Bind(env, x, k * step, step);
      assert Trace(size, s1, env') + Trace(size, s2, env') == [Round(s1, x, step, env, k), Round(s2, x, step, env, k)];
    }
  }

  lemma {:induction false} MixedLast(s1: Stmt, s2: Stmt, x: Name, step: pos, env: Env, from: nat, end: nat)
    requires s1.Store? && s2.Store? && from <= end
    ensures Mixed(s1, s2, x, step, env, from, end + 1) ==
      Mixed(s1, s2, x, step, env, from, end) + [Round(s1, x, step, env, end), Round(s2, x, step, env, end)]
    decreases end - from
  {
    if from < end {
      MixedLast(s1, s2, x, step, env, from + 1, end);
    } else {
      assert Mixed(s1, s2, x, step, env, end + 1, end + 1) == [];
    }
  }

  lemma RoundsAt(s: Stmt, x: Name, step: pos, env: Env, n: nat, p: nat)
    requires s.Store? && p < n
    ensures Rounds(s, x, step, env, 0, n) ==
      Rounds(s, x, step, env, 0, p) + [Round(s, x, step, env, p)] + Rounds(s, x, step, env, p + 1, n)
  {
  }

  // ---------------------------------------------------------------------------------------------
  // The exact condition

  /** Round p of the second store may change places with round q of the first. */
  predicate Exchangeable(s1: Stmt, s2: Stmt, x: Name, step: pos, env: Env, p: nat, q: nat)
    requires s1.Store? && s2.Store?
  {
    Independent(Round(s2, x, step, env, p), Round(s1, x, step, env, q)) ||
      SameAct(Round(s1, x, step, env, q), Round(s2, x, step, env, p))
  }

  /** So may every round and every later one, as long as the loop runs. */
  ghost predicate NoHazard(s1: Stmt, s2: Stmt, x: Name, step: pos, env: Env, bound: int)
    requires s1.Store? && s2.Store?
  {
    forall p: nat, q: nat :: p < q && q * step < bound ==> Exchangeable(s1, s2, x, step, env, p, q)
  }

  /** Splitting the loop is right from every memory, for every end up to the bound. */
  ghost predicate SplitsRight<C(!new), V(!new)>(M: Machine<C, V>, s1: Stmt, s2: Stmt, x: Name, tile: string, env: Env,
      bound: int)
  {
    forall h: int, mem: Mem<C> :: h <= bound ==> SplitsAt(M, s1, s2, x, tile, env, h, mem)
  }

  ghost predicate SplitsAt<C, V>(M: Machine<C, V>, s1: Stmt, s2: Stmt, x: Name, tile: string, env: Env, h: int,
      mem: Mem<C>)
  {
    Exec(M, Seq(Loop(Num(0), Num(h), tile, x, s1), Loop(Num(0), Num(h), tile, x, s2)), env, mem) ==
      Exec(M, Loop(Num(0), Num(h), tile, x, Seq(s1, s2)), env, mem)
  }

  lemma ExchangeableCommute<C(!new), V(!new)>(M: Machine<C, V>, a: Act, b: Act, mem: Mem<C>)
    requires KeepsRegionsApart(M) && (Independent(b, a) || SameAct(a, b))
    ensures Step(M, a, Step(M, b, mem)) == Step(M, b, Step(M, a, mem))
  {
    if SameAct(a, b) {
      SameStep(M, a, b, mem);
      SameStep(M, a, b, Step(M, b, mem));
    } else {
      SwapActs(M, b, a, mem);
    }
  }

  lemma {:induction false} ActPastBlock<C(!new), V(!new)>(M: Machine<C, V>, b: Act, tr: seq<Act>, mem: Mem<C>)
    requires KeepsRegionsApart(M) && forall a :: a in tr ==> Independent(b, a) || SameAct(a, b)
    ensures Run(M, tr, Step(M, b, mem)) == Step(M, b, Run(M, tr, mem))
  {
    if tr != [] {
      assert tr[0] in tr;
      ExchangeableCommute(M, tr[0], b, mem);
      ActPastBlock(M, b, tr[1..], Step(M, tr[0], mem));
    }
  }

  lemma {:induction false} BlockPastAct<C(!new), V(!new)>(M: Machine<C, V>, a: Act, tr: seq<Act>, mem: Mem<C>)
    requires KeepsRegionsApart(M) && forall b :: b in tr ==> Independent(b, a) || SameAct(a, b)
    ensures Run(M, tr, Step(M, a, mem)) == Step(M, a, Run(M, tr, mem))
  {
    if tr != [] {
      assert tr[0] in tr;
      ExchangeableCommute(M, a, tr[0], mem);
      BlockPastAct(M, a, tr[1..], Step(M, tr[0], mem));
    }
  }

  /** Without a hazard the rounds commute. */
  lemma {:induction false} ExchangeableRounds<C(!new), V(!new)>(M: Machine<C, V>, s1: Stmt, s2: Stmt, x: Name,
      step: pos, env: Env, h: int, bound: int, k: nat, n: nat)
    requires s1.Store? && s2.Store? && KeepsRegionsApart(M) && NoHazard(s1, s2, x, step, env, bound)
    requires k <= n && Gives(h, step, n) && h <= bound
    ensures RoundsCommute(M, s1, s2, x, step, k * step, h, env)
    decreases n - k
  {
    if k < n {
      RoundStarts(k, n, step);
      NextStart(k, step);
      ExchangeableRounds(M, s1, s2, x, step, env, h, bound, k + 1, n);
      RoundCommutes(M, s1, s2, x, step, env, h, bound, k, n);
    }
  }

  lemma RoundCommutes<C(!new), V(!new)>(M: Machine<C, V>, s1: Stmt, s2: Stmt, x: Name, step: pos, env: Env, h: int,
      bound: int, k: nat, n: nat)
    requires s1.Store? && s2.Store? && KeepsRegionsApart(M) && NoHazard(s1, s2, x, step, env, bound)
    requires k < n && Gives(h, step, n) && h <= bound
    ensures BlocksCommute(M, Trace(M.tileSize, s2, Bind(env, x, k * step, step)),
      LoopTrace(M.tileSize, s1, x, step, k * step + step, h, env))
  {
    LaterTraces(M.tileSize, s1, s2, x, step, env, h, k, n);
    LaterExchangeable(s1, s2, x, step, env, h, bound, k, n);
    ActCommutes(M, Round(s2, x, step, env, k), Rounds(s1, x, step, env, k + 1, n));
  }

  lemma LaterTraces(size: string -> pos, s1: Stmt, s2: Stmt, x: Name, step: pos, env: Env, h: int, k: nat, n: nat)
    requires s1.Store? && s2.Store? && k < n && Gives(h, step, n)
    ensures Trace(size, s2, Bind(env, x, k * step, step)) == [Round(s2, x, step, env, k)]
    ensures LoopTrace(size, s1, x, step, k * step + step, h, env) == Rounds(s1, x, step, env, k + 1, n)
  {
    NextStart(k, step);
    LoopRounds(size, s1, x, step, h, env, k + 1, n);
    StoreTrace(size, s2, x, step, env, k);
  }

  lemma NextStart(k: nat, step: pos)
    ensures (k + 1) * step == k * step + step
  {
  }

  lemma StoreTrace(size: string -> pos, s: Stmt, x: Name, step: pos, env: Env, k: nat)
    requires s.Store?
    ensures Trace(size, s, Bind(env, x, k * step, step)) == [Round(s, x, step, env, k)]
  {
  }

  lemma LaterExchangeable(s1: Stmt, s2: Stmt, x: Name, step: pos, env: Env, h: int, bound: int, k: nat, n: nat)
    requires s1.Store? && s2.Store? && NoHazard(s1, s2, x, step, env, bound) && k < n && Gives(h, step, n) && h <= bound
    ensures forall a :: a in Rounds(s1, x, step, env, k + 1, n) ==>
      Independent(Round(s2, x, step, env, k), a) || SameAct(a, Round(s2, x, step, env, k))
  {
    var later := Rounds(s1, x, step, env, k + 1, n);
    forall a | a in later ensures Independent(Round(s2, x, step, env, k), a) || SameAct(a, Round(s2, x, step, env, k)) {
      var j :| 0 <= j < |later| && later[j] == a;
      RoundStarts(k + 1 + j, n, step);
      assert Exchangeable(s1, s2, x, step, env, k, k + 1 + j);
    }
  }

  lemma ActCommutes<C(!new), V(!new)>(M: Machine<C, V>, b: Act, later: seq<Act>)
    requires KeepsRegionsApart(M) && forall a :: a in later ==> Independent(b, a) || SameAct(a, b)
    ensures BlocksCommute(M, [b], later)
  {
    forall mem: Mem<C> ensures Run(M, later, Run(M, [b], mem)) == Run(M, [b], Run(M, later, mem)) {
      ActPastBlock(M, b, later, mem);
      RunOne(M, b, mem);
      RunOne(M, b, Run(M, later, mem));
    }
  }

  lemma RunOne<C, V>(M: Machine<C, V>, a: Act, mem: Mem<C>)
    ensures Run(M, [a], mem) == Step(M, a, mem)
  {
    assert Run(M, [a], mem) == Run(M, [a][1..], Step(M, a, mem));
  }

  function RoundCount(h: int, step: pos): (n: nat)
    ensures Gives(h, step, n)
  {
    if h <= 0 then 0
    else
      var n := RoundCount(h - 1, step);
      if h <= n * step then n
      else
        assert (n + 1) * step == n * step + step;
        n + 1
  }

  /** Enough on every machine that keeps regions apart. */
  lemma NoHazardSplits<C(!new), V(!new)>(M: Machine<C, V>, s1: Stmt, s2: Stmt, x: Name, tile: string, env: Env,
      bound: int)
    requires s1.Store? && s2.Store? && KeepsRegionsApart(M) && NoHazard(s1, s2, x, M.tileSize(tile), env, bound)
    ensures SplitsRight(M, s1, s2, x, tile, env, bound)
  {
    var step := M.tileSize(tile);
    forall h: int, mem: Mem<C> | h <= bound ensures SplitsAt(M, s1, s2, x, tile, env, h, mem) {
      var l1, l2 := Loop(Num(0), Num(h), tile, x, s1), Loop(Num(0), Num(h), tile, x, s2);
      var zero: nat := 0;
      assert zero * step == 0;
      ExchangeableRounds(M, s1, s2, x, step, env, h, bound, 0, RoundCount(h, step));
      SplitLoopTrace(M, s1, s2, x, step, 0, h, env, mem);
      ExecIsRun(M, l1, env, mem);
      ExecIsRun(M, l2, env, Exec(M, l1, env, mem));
      ExecIsRun(M, Loop(Num(0), Num(h), tile, x, Seq(s1, s2)), env, mem);
    }
  }

  // ---------------------------------------------------------------------------------------------
  // Nothing less will do

  /** What a split loop of n rounds runs. */
  lemma SplitRuns<C, V>(M: Machine<C, V>, s1: Stmt, s2: Stmt, x: Name, tile: string, env: Env, h: int, n: nat,
      mem: Mem<C>)
    requires s1.Store? && s2.Store? && Gives(h, M.tileSize(tile), n)
    ensures var step := M.tileSize(tile);
      && Exec(M, Loop(Num(0), Num(h), tile, x, Seq(s1, s2)), env, mem) == Run(M, Mixed(s1, s2, x, step, env, 0, n), mem)
      && Exec(M, Seq(Loop(Num(0), Num(h), tile, x, s1), Loop(Num(0), Num(h), tile, x, s2)), env, mem) ==
           Run(M, Rounds(s2, x, step, env, 0, n), Run(M, Rounds(s1, x, step, env, 0, n), mem))
  {
    var step := M.tileSize(tile);
    var l1, l2 := Loop(Num(0), Num(h), tile, x, s1), Loop(Num(0), Num(h), tile, x, s2);
    var zero: nat := 0;
    assert zero * step == 0;
    ExecIsRun(M, l1, env, mem);
    ExecIsRun(M, l2, env, Exec(M, l1, env, mem));
    ExecIsRun(M, Loop(Num(0), Num(h), tile, x, Seq(s1, s2)), env, mem);
    LoopRounds(M.tileSize, s1, x, step, h, env, 0, n);
    LoopRounds(M.tileSize, s2, x, step, h, env, 0, n);
    LoopMixed(M.tileSize, s1, s2, x, step, h, env, 0, n);
  }

  /** Splitting q rounds and q + 1 rounds gives the last round of the first store before and after the
      rounds of the second. */
  lemma LastRoundMoves<C, V>(M: Machine<C, V>, s1: Stmt, s2: Stmt, x: Name, tile: string, env: Env, q: nat, mem: Mem<C>)
    requires s1.Store? && s2.Store? && q > 0
    requires SplitsAt(M, s1, s2, x, tile, env, q * M.tileSize(tile), mem) &&
      SplitsAt(M, s1, s2, x, tile, env, q * M.tileSize(tile) + 1, mem)
    ensures var step := M.tileSize(tile);
      var a, b := Round(s1, x, step, env, q), Round(s2, x, step, env, q);
      var m, bs := Run(M, Rounds(s1, x, step, env, 0, q), mem), Rounds(s2, x, step, env, 0, q);
      Run(M, [a, b], Run(M, bs, m)) == Run(M, bs + [b], Step(M, a, m))
  {
    var step := M.tileSize(tile);
    BoundsGive(q, step);
    SplitEquals(M, s1, s2, x, tile, env, q * step, q, mem);
    SplitEquals(M, s1, s2, x, tile, env, q * step + 1, q + 1, mem);
    RoundsMove(M, s1, s2, x, step, env, q, mem);
  }

  lemma SplitEquals<C, V>(M: Machine<C, V>, s1: Stmt, s2: Stmt, x: Name, tile: string, env: Env, h: int, n: nat,
      mem: Mem<C>)
    requires s1.Store? && s2.Store? && Gives(h, M.tileSize(tile), n) && SplitsAt(M, s1, s2, x, tile, env, h, mem)
    ensures var step := M.tileSize(tile);
      Run(M, Mixed(s1, s2, x, step, env, 0, n), mem) ==
        Run(M, Rounds(s2, x, step, env, 0, n), Run(M, Rounds(s1, x, step, env, 0, n), mem))
  {
    SplitRuns(M, s1, s2, x, tile, env, h, n, mem);
  }

  lemma RoundsMove<C, V>(M: Machine<C, V>, s1: Stmt, s2: Stmt, x: Name, step: pos, env: Env, q: nat, mem: Mem<C>)
    requires s1.Store? && s2.Store?
    requires forall n :: n == q || n == q + 1 ==>
      Run(M, Mixed(s1, s2, x, step, env, 0, n), mem) ==
        Run(M, Rounds(s2, x, step, env, 0, n), Run(M, Rounds(s1, x, step, env, 0, n), mem))
    ensures var a, b := Round(s1, x, step, env, q), Round(s2, x, step, env, q);
      var m, bs := Run(M, Rounds(s1, x, step, env, 0, q), mem), Rounds(s2, x, step, env, 0, q);
      Run(M, [a, b], Run(M, bs, m)) == Run(M, bs + [b], Step(M, a, m))
  {
    MixedRuns(M, s1, s2, x, step, env, q, mem);
    LastRound(M, s1, x, step, env, q, mem);
    RoundsLast(s2, x, step, env, q);
  }

  lemma MixedRuns<C, V>(M: Machine<C, V>, s1: Stmt, s2: Stmt, x: Name, step: pos, env: Env, q: nat, mem: Mem<C>)
    requires s1.Store? && s2.Store?
    ensures Run(M, Mixed(s1, s2, x, step, env, 0, q + 1), mem) ==
      Run(M, [Round(s1, x, step, env, q), Round(s2, x, step, env, q)], Run(M, Mixed(s1, s2, x, step, env, 0, q), mem))
  {
    MixedLast(s1, s2, x, step, env, 0, q);
    RunAppend(M, Mixed(s1, s2, x, step, env, 0, q), [Round(s1, x, step, env, q), Round(s2, x, step, env, q)], mem);
  }

  lemma RoundsLast(s: Stmt, x: Name, step: pos, env: Env, q: nat)
    requires s.Store?
    ensures Rounds(s, x, step, env, 0, q + 1) == Rounds(s, x, step, env, 0, q) + [Round(s, x, step, env, q)]
  {
  }

  lemma LastRound<C, V>(M: Machine<C, V>, s: Stmt, x: Name, step: pos, env: Env, q: nat, mem: Mem<C>)
    requires s.Store?
    ensures Run(M, Rounds(s, x, step, env, 0, q + 1), mem) ==
      Step(M, Round(s, x, step, env, q), Run(M, Rounds(s, x, step, env, 0, q), mem))
  {
    var a, first := Round(s, x, step, env, q), Rounds(s, x, step, env, 0, q);
    RoundsLast(s, x, step, env, q);
    RunAppend(M, first, [a], mem);
    RunOne(M, a, Run(M, first, mem));
  }

  lemma BoundsGive(q: nat, step: pos)
    requires q > 0
    ensures Gives(q * step, step, q) && Gives(q * step + 1, step, q + 1)
  {
    assert (q + 1) * step == q * step + step && (q - 1) * step == q * step - step;
  }

  /** The machines told apart below keep a log of every tensor the stores name. */
  function NamesOf(s1: Stmt, s2: Stmt): set<Name>
    requires s1.Store? && s2.Store?
  {
    Loads(s1.value) + Loads(s2.value) + {s1.tensor, s2.tensor}
  }

  lemma RoundsTouch(s1: Stmt, s2: Stmt, x: Name, step: pos, env: Env, p: nat, q: nat)
    requires s1.Store? && s2.Store? && p <= q
    ensures Touches(Rounds(s1, x, step, env, p, q), NamesOf(s1, s2), NamesOf(s1, s2))
    ensures Touches(Rounds(s2, x, step, env, p, q), NamesOf(s1, s2), NamesOf(s1, s2))
    ensures Touches([Round(s1, x, step, env, q)], NamesOf(s1, s2), NamesOf(s1, s2))
    ensures Touches([Round(s2, x, step, env, p)], NamesOf(s1, s2), NamesOf(s1, s2))
  {
  }

  predicate NonEmptyAccesses(s: Stmt)
    requires s.Store?
  {
    NonEmpty(s.index) && forall p :: p in LoadAccesses(s.value) ==> NonEmpty(p.1)
  }

  lemma RoundIsSolid(s: Stmt, x: Name, step: pos, env: Env, k: nat)
    requires s.Store? && NonEmptyAccesses(s)
    ensures SolidAct(Round(s, x, step, env, k))
  {
    var env' := Bind(env, x, k * step, step);
    NonEmptyIsSolid(s.index, env');
    forall p | p in LoadAccesses(s.value) ensures Solid(ResolveAll(p.1, env')) { NonEmptyIsSolid(p.1, env'); }
  }

  lemma {:induction false} FirstHazard(s1: Stmt, s2: Stmt, x: Name, step: pos, env: Env, p: nat, q: nat)
      returns (first: nat)
    requires s1.Store? && s2.Store? && p < q && !Exchangeable(s1, s2, x, step, env, p, q)
    ensures first < q && !Exchangeable(s1, s2, x, step, env, first, q)
    ensures forall j :: 0 <= j < first ==> Exchangeable(s1, s2, x, step, env, j, q)
    decreases p
  {
    if j: nat :| j < p && !Exchangeable(s1, s2, x, step, env, j, q) {
      first := FirstHazard(s1, s2, x, step, env, j, q);
    } else {
      first := p;
    }
  }

  /** Round q of the first store moves over the rounds of the second that it may change places with. */
  lemma MovesToHazard<C(!new), V(!new)>(M: Machine<C, V>, s1: Stmt, s2: Stmt, x: Name, step: pos, env: Env, p: nat,
      q: nat, m: Mem<C>)
    requires s1.Store? && s2.Store? && KeepsRegionsApart(M) && p < q
    requires forall j :: 0 <= j < p ==> Exchangeable(s1, s2, x, step, env, j, q)
    ensures var a, early := Round(s1, x, step, env, q), Rounds(s2, x, step, env, 0, p);
            Run(M, early, Step(M, a, m)) == Step(M, a, Run(M, early, m))
  {
    var a, early := Round(s1, x, step, env, q), Rounds(s2, x, step, env, 0, p);
    forall b | b in early ensures Independent(b, a) || SameAct(a, b) {
      var j :| 0 <= j < |early| && early[j] == b;
      assert Exchangeable(s1, s2, x, step, env, j, q);
    }
    BlockPastAct(M, a, early, m);
  }

  /** The two orders of the first hazard, in one run. */
  lemma HazardOrders<C(!new), V(!new)>(M: Machine<C, V>, s1: Stmt, s2: Stmt, x: Name, step: pos, env: Env, p: nat,
      q: nat, m: Mem<C>)
    requires s1.Store? && s2.Store? && KeepsRegionsApart(M) && p < q
    requires forall j :: 0 <= j < p ==> Exchangeable(s1, s2, x, step, env, j, q)
    ensures var a, b, last := Round(s1, x, step, env, q), Round(s2, x, step, env, p), Round(s2, x, step, env, q);
      var bs, mid := Rounds(s2, x, step, env, 0, q), Rounds(s2, x, step, env, p + 1, q);
      var m' := Run(M, Rounds(s2, x, step, env, 0, p), m);
      && Run(M, [a, last], Run(M, bs, m)) == Run(M, mid + [a] + [last], Step(M, b, m'))
      && Run(M, bs + [last], Step(M, a, m)) == Run(M, mid + [last], Step(M, b, Step(M, a, m')))
  {
    var a, b, last := Round(s1, x, step, env, q), Round(s2, x, step, env, p), Round(s2, x, step, env, q);
    var early, mid := Rounds(s2, x, step, env, 0, p), Rounds(s2, x, step, env, p + 1, q);
    var m' := Run(M, early, m);
    RoundsAt(s2, x, step, env, q, p);
    assert [a] + [last] == [a, last];
    MovesToHazard(M, s1, s2, x, step, env, p, q, m);
    Regrouped(M, early, b, mid, [a, last], m);
    assert mid + [a] + [last] == mid + [a, last];
    Regrouped(M, early, b, mid, [last], Step(M, a, m));
    RunAppend(M, early + [b] + mid, [last], Step(M, a, m));
  }

  lemma Regrouped<C, V>(M: Machine<C, V>, early: seq<Act>, b: Act, mid: seq<Act>, late: seq<Act>, m: Mem<C>)
    ensures Run(M, late, Run(M, early + [b] + mid, m)) == Run(M, mid + late, Step(M, b, Run(M, early, m)))
  {
    RunAppend(M, early + [b], mid, m);
    RunAppend(M, early, [b], m);
    RunOne(M, b, Run(M, early, m));
    RunAppend(M, mid, late, Step(M, b, Run(M, early, m)));
  }

  /** The first hazard shows on some machine. */
  lemma HazardShows(size: string -> pos, s1: Stmt, s2: Stmt, x: Name, tile: string, env: Env, bound: int, p: nat,
      q: nat) returns (cs: Sets)
    requires s1.Store? && s2.Store? && NonEmptyAccesses(s1) && NonEmptyAccesses(s2)
    requires p < q && q * size(tile) < bound && !Exchangeable(s1, s2, x, size(tile), env, p, q)
    requires forall j :: 0 <= j < p ==> Exchangeable(s1, s2, x, size(tile), env, j, q)
    ensures Cliques(cs) && !SplitsRight(LogMachine(size, cs), s1, s2, x, tile, env, bound)
  {
    var step, names := size(tile), NamesOf(s1, s2);
    var a, b, last := Round(s1, x, step, env, q), Round(s2, x, step, env, p), Round(s2, x, step, env, q);
    var mid := Rounds(s2, x, step, env, p + 1, q);
    RoundIsSolid(s1, x, step, env, q);
    RoundIsSolid(s2, x, step, env, p);
    RoundsTouch(s1, s2, x, step, env, p, q);
    RoundsTouch(s1, s2, x, step, env, p + 1, q);
    RoundsTouch(s1, s2, x, step, env, q, q);
    cs := OrderShows(size, a, b, mid, [last], names);
    HazardBreaks(size, cs, s1, s2, x, tile, env, bound, p, q);
  }

  /** Where both splits are right, the two orders give the same memory. */
  lemma SplitsHideOrder<C(!new), V(!new)>(M: Machine<C, V>, s1: Stmt, s2: Stmt, x: Name, tile: string, env: Env, p: nat,
      q: nat, mem: Mem<C>)
    requires s1.Store? && s2.Store? && KeepsRegionsApart(M) && p < q
    requires forall j :: 0 <= j < p ==> Exchangeable(s1, s2, x, M.tileSize(tile), env, j, q)
    requires SplitsAt(M, s1, s2, x, tile, env, q * M.tileSize(tile), mem) &&
      SplitsAt(M, s1, s2, x, tile, env, q * M.tileSize(tile) + 1, mem)
    ensures var step := M.tileSize(tile);
      var a, b, last := Round(s1, x, step, env, q), Round(s2, x, step, env, p), Round(s2, x, step, env, q);
      var mid, m := Rounds(s2, x, step, env, p + 1, q), BeforeHazard(M, s1, s2, x, step, env, p, q, mem);
      Run(M, mid + [a] + [last], Step(M, b, m)) == Run(M, mid + [last], Step(M, b, Step(M, a, m)))
  {
    var step := M.tileSize(tile);
    LastRoundMoves(M, s1, s2, x, tile, env, q, mem);
    HazardOrders(M, s1, s2, x, step, env, p, q, Run(M, Rounds(s1, x, step, env, 0, q), mem));
  }

  function BeforeHazard<C, V>(M: Machine<C, V>, s1: Stmt, s2: Stmt, x: Name, step: pos, env: Env, p: nat, q: nat,
      mem: Mem<C>): Mem<C>
    requires s1.Store? && s2.Store?
  {
    Run(M, Rounds(s2, x, step, env, 0, p), Run(M, Rounds(s1, x, step, env, 0, q), mem))
  }

  lemma BeforeHazardTagged(size: string -> pos, cs: Sets, s1: Stmt, s2: Stmt, x: Name, step: pos, env: Env, p: nat,
      q: nat)
    requires s1.Store? && s2.Store? && p <= q
    ensures Tagged(BeforeHazard(LogMachine(size, cs), s1, s2, x, step, env, p, q, Fresh(NamesOf(s1, s2), |cs|)),
      NamesOf(s1, s2), |cs|)
  {
    var names := NamesOf(s1, s2);
    FreshTagged(names, |cs|);
    RoundsTouch(s1, s2, x, step, env, 0, q);
    RoundsTouch(s1, s2, x, step, env, 0, p);
    RunGrows(size, cs, Rounds(s1, x, step, env, 0, q), Fresh(names, |cs|), names);
    RunGrows(size, cs, Rounds(s2, x, step, env, 0, p),
      Run(LogMachine(size, cs), Rounds(s1, x, step, env, 0, q), Fresh(names, |cs|)), names);
  }

  lemma HazardBreaks(size: string -> pos, cs: Sets, s1: Stmt, s2: Stmt, x: Name, tile: string, env: Env, bound: int,
      p: nat, q: nat)
    requires s1.Store? && s2.Store? && Cliques(cs) && p < q && q * size(tile) < bound
    requires forall j :: 0 <= j < p ==> Exchangeable(s1, s2, x, size(tile), env, j, q)
    requires forall m :: Tagged(m, NamesOf(s1, s2), |cs|) ==>
      OrderIsSeen(size, cs, Round(s1, x, size(tile), env, q), Round(s2, x, size(tile), env, p),
        Rounds(s2, x, size(tile), env, p + 1, q), [Round(s2, x, size(tile), env, q)], m)
    ensures !SplitsRight(LogMachine(size, cs), s1, s2, x, tile, env, bound)
  {
    var M, mem := LogMachine(size, cs), Fresh(NamesOf(s1, s2), |cs|);
    LogMachineKeepsRegionsApart(size, cs);
    BeforeHazardTagged(size, cs, s1, s2, x, size(tile), env, p, q);
    if SplitsRight(M, s1, s2, x, tile, env, bound) {
      assert SplitsAt(M, s1, s2, x, tile, env, q * size(tile), mem);
      assert SplitsAt(M, s1, s2, x, tile, env, q * size(tile) + 1, mem);
      SplitsHideOrder(M, s1, s2, x, tile, env, p, q, mem);
    }
    assert OrderIsSeen(size, cs, Round(s1, x, size(tile), env, q), Round(s2, x, size(tile), env, p),
      Rounds(s2, x, size(tile), env, p + 1, q), [Round(s2, x, size(tile), env, q)],
                       BeforeHazard(M, s1, s2, x, size(tile), env, p, q, mem));
  }

  /** For single stores, splitting a loop is right on every machine of logs, at every end up to the
      bound, exactly when no round of the second store is in conflict with a later round of the first;
      by NoHazardSplits it is then right on every machine that keeps regions apart. */
  lemma FissionExact(size: string -> pos, s1: Stmt, s2: Stmt, x: Name, tile: string, env: Env, bound: int)
    requires s1.Store? && s2.Store? && NonEmptyAccesses(s1) && NonEmptyAccesses(s2)
    ensures (forall cs :: Cliques(cs) ==> SplitsRight(LogMachine(size, cs), s1, s2, x, tile, env, bound)) <==>
      NoHazard(s1, s2, x, size(tile), env, bound)
  {
    if NoHazard(s1, s2, x, size(tile), env, bound) {
      forall cs | Cliques(cs) ensures SplitsRight(LogMachine(size, cs), s1, s2, x, tile, env, bound) {
        LogMachineKeepsRegionsApart(size, cs);
        NoHazardSplits(LogMachine(size, cs), s1, s2, x, tile, env, bound);
      }
    } else {
      var p: nat, q: nat :| p < q && q * size(tile) < bound && !Exchangeable(s1, s2, x, size(tile), env, p, q);
      var first := FirstHazard(s1, s2, x, size(tile), env, p, q);
      var cs := HazardShows(size, s1, s2, x, tile, env, bound, first, q);
      assert Cliques(cs) && !SplitsRight(LogMachine(size, cs), s1, s2, x, tile, env, bound);
    }
  }

  // ---------------------------------------------------------------------------------------------
  // Tiles of fused loops

  /** Writing a constant tile by tile. */
  function Marks(t: Name, x: Name): Stmt { Store(t, Const("1"), [Tile(x)]) }

  /** Two loops that share no tensor; the check lets them fuse whatever their tiles. */
  function MarkLoops(lo: Bound, hi: Bound, tile1: string, tile2: string, x: Name): Stmt {
    Seq(Loop(lo, hi, tile1, x, Marks("t", x)), Loop(lo, hi, tile2, x, Marks("u", x)))
  }

  lemma MarksAreSafe(x: Name)
    ensures SafeBodies(Marks("t", x), Marks("u", x), x) && NoRawDependency(Marks("t", x), Marks("u", x), x)
  {
    SplitOne("t");
    SplitOne("u");
    assert ReadSet(Marks("t", x)) == {} && ReadSet(Marks("u", x)) == {};
    assert !BasesOverlap("t", "u");
  }

  ghost predicate MarksIn(tr: seq<Act>, t: Name, step: pos) {
    forall a :: a in tr ==> a.tensor == t && a.value == Const("1") && exists v :: a.Where() == [Span(v, step)]
  }

  lemma {:induction false} MarkRounds(size: string -> pos, t: Name, x: Name, step: pos, lo: int, hi: int, env: Env)
    ensures MarksIn(LoopTrace(size, Marks(t, x), x, step, lo, hi, env), t, step)
    decreases if lo < hi then hi - lo else 0
  {
    if lo < hi {
      MarkRounds(size, t, x, step, lo + step, hi, env);
      var env' := Bind(env, x, lo, step);
      LookupBind(env, x, lo, step, x);
      assert ResolveAll([Tile(x)], env') == [Span(lo, step)];
    }
  }

  /** Regions outside the sets leave no note. */
  lemma {:induction false} NothingNoted(size: string -> pos, cs: Sets, tr: seq<Act>, t: Name, mem: Mem<Contents>)
    requires t in mem && |mem[t].logs| == 1 && |cs| == 1 && forall a :: a in tr ==> a.tensor == t && a.Where() !in cs[0]
    ensures var end := Run(LogMachine(size, cs), tr, mem);
      t in end && |end[t].logs| == 1 && end[t].logs[0] == mem[t].logs[0]
  {
    if tr != [] {
      assert tr[0] in tr;
      NothingNoted(size, cs, tr[1..], t, Step(LogMachine(size, cs), tr[0], mem));
    }
  }

  /** The log of a tensor marked with tiles of a size the sets know grows, with another it does not. */
  lemma MarksNoted(size: string -> pos, t: Name, x: Name, lo: Bound, hi: Bound, tile: string, known: pos, env: Env,
      mem: Mem<Contents>)
    requires Tagged(mem, {t}, 1) && BoundValue(lo, env) < BoundValue(hi, env)
    ensures var end := Exec(LogMachine(size, [{[Span(BoundValue(lo, env), known)]}]),
      Loop(lo, hi, tile, x, Marks(t, x)), env, mem);
      t in end && |end[t].logs| == 1 && (size(tile) == known <==> end[t].logs[0] != mem[t].logs[0])
  {
    var cs, step, from := [{[Span(BoundValue(lo, env), known)]}], size(tile), BoundValue(lo, env);
    var M, tr := LogMachine(size, cs),
      LoopTrace(size, Marks(t, x), x, size(tile), BoundValue(lo, env), BoundValue(hi, env), env);
    ExecIsRun(M, Loop(lo, hi, tile, x, Marks(t, x)), env, mem);
    MarkRounds(size, t, x, step, from, BoundValue(hi, env), env);
    if step == known {
      FirstMark(size, cs, t, x, step, from, BoundValue(hi, env), env, mem);
    } else {
      forall a | a in tr ensures a.Where() !in cs[0] {
        var v :| a.Where() == [Span(v, step)];
        assert [Span(v, step)][0] != [Span(from, known)][0];
      }
      NothingNoted(size, cs, tr, t, mem);
    }
  }

  lemma FirstMark(size: string -> pos, cs: Sets, t: Name, x: Name, step: pos, from: int, hi: int, env: Env,
      mem: Mem<Contents>)
    requires Tagged(mem, {t}, 1) && from < hi && cs == [{[Span(from, step)]}]
    ensures var end := Run(LogMachine(size, cs), LoopTrace(size, Marks(t, x), x, step, from, hi, env), mem);
      t in end && |end[t].logs| == 1 && end[t].logs[0] != mem[t].logs[0]
  {
    var env' := Bind(env, x, from, step);
    var a, rest := Act(t, Const("1"), [Tile(x)], env'), LoopTrace(size, Marks(t, x), x, step, from + step, hi, env);
    LookupBind(env, x, from, step, x);
    assert a.Where() == [Span(from, step)];
    MarkRounds(size, t, x, step, from + step, hi, env);
    assert Touches(rest, {t}, {t});
    StepGrows(size, cs, a, mem, {t});
    RunGrows(size, cs, rest, Step(LogMachine(size, cs), a, mem), {t});
    FirstNote(size, cs, a, rest, mem, {t}, 0);
    assert Trace(size, Marks(t, x), env') == [a];
    RunFirst(LogMachine(size, cs), a, rest, mem);
  }

  ghost predicate FusesAt(size: string -> pos, cs: Sets, s: Stmt, env: Env, mem: Mem<Contents>) {
    FuseLoops(s).Some? ==>
      Exec(LogMachine(size, cs), FuseLoops(s).value, env, mem) == Exec(LogMachine(size, cs), s, env, mem)
  }

  /** Loops with these bounds and tiles are fused rightly, whatever their bodies, as long as all hazards are carried. */
  ghost predicate FusesRight(size: string -> pos, lo: Bound, hi: Bound, tile1: string, tile2: string, x: Name,
      env: Env)
  {
    forall b1, b2, cs, mem :: Cliques(cs) && SafeBodies(b1, b2, x) ==>
      FusesAt(size, cs, Seq(Loop(lo, hi, tile1, x, b1), Loop(lo, hi, tile2, x, b2)), env, mem)
  }

  lemma FusedMarks(size: string -> pos, cs: Sets, lo: Bound, hi: Bound, tile1: string, tile2: string, x: Name, env: Env,
      mem: Mem<Contents>)
    requires Cliques(cs) && FusesAt(size, cs, MarkLoops(lo, hi, tile1, tile2, x), env, mem)
    ensures FuseLoops(MarkLoops(lo, hi, tile1, tile2, x)).Some?
    ensures var tile := FuseLoops(MarkLoops(lo, hi, tile1, tile2, x)).value.tile;
      Exec(LogMachine(size, cs), MarkLoops(lo, hi, tile, tile, x), env, mem) ==
        Exec(LogMachine(size, cs), MarkLoops(lo, hi, tile1, tile2, x), env, mem)
  {
    MarksAreSafe(x);
    var tile := FuseLoops(MarkLoops(lo, hi, tile1, tile2, x)).value.tile;
    LogMachineKeepsRegionsApart(size, cs);
    LoopOverSeq(LogMachine(size, cs), lo, hi, tile, x, Marks("t", x), Marks("u", x), env, mem);
  }

  /** What the two loops leave in the logs. */
  lemma BothNoted(size: string -> pos, lo: Bound, hi: Bound, tile1: string, tile2: string, known: pos, x: Name,
      env: Env, mem: Mem<Contents>)
    requires Tagged(mem, {"t", "u"}, 1) && BoundValue(lo, env) < BoundValue(hi, env)
    ensures var end := Exec(LogMachine(size, [{[Span(BoundValue(lo, env), known)]}]),
      MarkLoops(lo, hi, tile1, tile2, x), env, mem);
      && "t" in end && |end["t"].logs| == 1 && (size(tile1) == known <==> end["t"].logs[0] != mem["t"].logs[0])
      && "u" in end && |end["u"].logs| == 1 && (size(tile2) == known <==> end["u"].logs[0] != mem["u"].logs[0])
  {
    var M := LogMachine(size, [{[Span(BoundValue(lo, env), known)]}]);
    var l1, l2 := Loop(lo, hi, tile1, x, Marks("t", x)), Loop(lo, hi, tile2, x, Marks("u", x));
    var mid := Exec(M, l1, env, mem);
    MarksNoted(size, "t", x, lo, hi, tile1, known, env, mem);
    OtherKept(M, l1, "u", env, mem);
    MarksNoted(size, "u", x, lo, hi, tile2, known, env, mid);
    OtherKept(M, l2, "t", env, mid);
  }

  lemma OtherKept(M: Machine<Contents, Term>, s: Stmt, t: Name, env: Env, mem: Mem<Contents>)
    requires t in mem && t !in StmtStores(s)
    ensures t in Exec(M, s, env, mem) && Exec(M, s, env, mem)[t] == mem[t]
  {
    ExecIsRun(M, s, env, mem);
    TraceTouches(M.tileSize, s, env);
    RunKeeps(M, Trace(M.tileSize, s, env), t, mem);
  }

  lemma {:induction false} RunKeeps(M: Machine<Contents, Term>, tr: seq<Act>, t: Name, mem: Mem<Contents>)
    requires t in mem && forall a :: a in tr ==> a.tensor != t
    ensures t in Run(M, tr, mem) && Run(M, tr, mem)[t] == mem[t]
  {
    if tr != [] {
      assert tr[0] in tr;
      RunKeeps(M, tr[1..], t, Step(M, tr[0], mem));
    }
  }

  lemma OneSpanClique(v: int, n: pos)
    ensures Cliques([{[Span(v, n)]}])
  {
  }

  /** Some bodies tell the tiles apart. */
  lemma TilesShow(size: string -> pos, lo: Bound, hi: Bound, tile1: string, tile2: string, x: Name, env: Env)
    requires BoundValue(lo, env) < BoundValue(hi, env) && size(tile1) != size(tile2)
    ensures !FusesRight(size, lo, hi, tile1, tile2, x, env)
  {
    var s, mem := MarkLoops(lo, hi, tile1, tile2, x), Fresh({"t", "u"}, 1);
    MarksAreSafe(x);
    FreshTagged({"t", "u"}, 1);
    var tile := FuseLoops(s).value.tile;
    var known := if size(tile) == size(tile1) then size(tile2) else size(tile1);
    var cs := [{[Span(BoundValue(lo, env), known)]}];
    OneSpanClique(BoundValue(lo, env), known);
    BothNoted(size, lo, hi, tile1, tile2, known, x, env, mem);
    BothNoted(size, lo, hi, tile, tile, known, x, env, mem);
    if FusesAt(size, cs, s, env, mem) {
      FusedMarks(size, cs, lo, hi, tile1, tile2, x, env, mem);
      assert false;
    }
    assert !FusesAt(size, cs, Seq(Loop(lo, hi, tile1, x, Marks("t", x)), Loop(lo, hi, tile2, x, Marks("u", x))), env,
      mem);
  }

  /** Loops are fused rightly for all bodies exactly when their tiles have one size or they do not run. */
  lemma FusionTilesExact(size: string -> pos, lo: Bound, hi: Bound, tile1: string, tile2: string, x: Name, env: Env)
    ensures FusesRight(size, lo, hi, tile1, tile2, x, env) <==>
      BoundValue(lo, env) >= BoundValue(hi, env) || size(tile1) == size(tile2)
  {
    if BoundValue(lo, env) >= BoundValue(hi, env) || size(tile1) == size(tile2) {
      forall b1, b2, cs, mem | Cliques(cs) && SafeBodies(b1, b2, x)
        ensures FusesAt(size, cs, Seq(Loop(lo, hi, tile1, x, b1), Loop(lo, hi, tile2, x, b2)), env, mem)
      {
        TilesFuse(size, cs, Loop(lo, hi, tile1, x, b1), Loop(lo, hi, tile2, x, b2), env, mem);
      }
    } else {
      TilesShow(size, lo, hi, tile1, tile2, x, env);
    }
  }

  lemma TilesFuse(size: string -> pos, cs: Sets, l1: Stmt, l2: Stmt, env: Env, mem: Mem<Contents>)
    requires l1.Loop? && l2.Loop? && Cliques(cs) && SafeBodies(l1.body, l2.body, l1.loopVar)
    requires size(l1.tile) == size(l2.tile) || BoundValue(l1.start, env) >= BoundValue(l1.end, env)
    ensures FusesAt(size, cs, Seq(l1, l2), env, mem)
  {
    if FuseLoops(Seq(l1, l2)).Some? {
      LogMachineKeepsRegionsApart(size, cs);
      EqualTilesAgree(size, l1, l2, env);
      FusePair(LogMachine(size, cs), l1, l2, env, mem);
    }
  }
}
