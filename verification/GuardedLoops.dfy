// Loops whose rounds take the step unequally often: a call behind a test of the counter.
module GuardedLoops {
  import opened Words
  import opened Tree
  import opened Source
  import opened CounterWords
  import opened Desugaring
  import opened ForLoops
  import opened ForRange
  import opened StepCount
  import opened FirstEmission
  import opened LoopTrips
  import opened LoopExamples

  /** `i c m`, i being local 0. */
  function Guard(c: BinOp, m: nat): Expr { Binary(c, I64, Local(0), Literal(m)) }

  /** `for i 0:<limit { if i c m { f(i) } }`. */
  function Guarded(limit: nat, c: BinOp, m: nat): Stmt { Counting(limit, [If(Guard(c, m), [CALL], [])]) }

  /** The calls that are meant in the round of b. */
  function CallsAt(c: BinOp, m: nat): int -> seq<Event>
    requires IsComparison(c)
  {
    (b: int) => if Compare(c, b, m) then CallOf(b) else []
  }

  /** The steps that it takes. */
  function StepsAt(c: BinOp, m: nat): int -> Count
    requires IsComparison(c)
  {
    (b: int) => if Compare(c, b, m) then 2 else 1
  }

  /** No two numbers in a row, from b on and below limit, pass the test. */
  predicate NoneInARow(c: BinOp, m: nat, b: int, limit: int)
    requires IsComparison(c)
  {
    forall v: int :: b <= v && v + 1 < limit && Compare(c, v, m) ==> !Compare(c, v + 1, m)
  }

  // ----- one round -----

  lemma GuardValue(c: BinOp, m: nat, f: Frame, st: State)
    requires IsComparison(c) && m < 0x8000_0000_0000_0000
    ensures Eval(Guard(c, m), f, st.env, st.trace)
            == (BoolWord(Compare(c, Decode(I64, Get(st.env, 0)), m)), st.trace)
  {
    hide Decode, InRange;
    NumbersFit(m);
  }

  /** The body does what CALL does where the test holds, and nothing else. */
  lemma GuardedRuns(body: seq<Stmt>, e: Expr, branch: seq<Stmt>, fuel: nat, f: Frame, st: State)
    requires body == [If(e, branch, [])] && branch == [CALL] && Eval(e, f, st.env, st.trace).1 == st.trace
    ensures ExecBlock(body, fuel, f, st) ==
            (Normal, if Truth(Eval(e, f, st.env, st.trace).0) then Called(st) else st)
  {
    hide Exec, Eval;
    CallMakes(fuel, f, st);
    OnlyStatement(branch, fuel, f, st);
    OnlyStatement(body, fuel, f, st);
    BranchTaken(body[0], e, branch, fuel, f, st);
  }

  lemma GuardedEmits(body: seq<Stmt>, e: Expr, branch: seq<Stmt>, fuel: nat, f: Frame, st: State)
    requires body == [If(e, branch, [])] && branch == [CALL] && Eval(e, f, st.env, st.trace).1 == st.trace
    ensures EmissionsIn(body, [NoStep], fuel, f, st) == if Truth(Eval(e, f, st.env, st.trace).0) then 2 else 1
  {
    hide Eval;
    assert st.(trace := st.trace) == st;
    var other := body[0].els;
    assert EmissionsIn(branch, [NoStep], fuel, f, st) == 1 && EmittedBlock(branch, [NoStep], fuel, f, st).0 == Normal;
    assert EmissionsIn(other, [NoStep], fuel, f, st) == 0 && EmittedBlock(other, [NoStep], fuel, f, st).0 == Normal;
    assert Emitted(body[0], [NoStep], fuel, f, st).0 == Normal;
  }

  lemma {:induction false} GuardedIsRangeLoop(s: Stmt, limit: nat, c: BinOp, m: nat, f: Frame, st: State)
    requires IsComparison(c) && s == Guarded(limit, c, m)
    requires limit < 0x8000_0000_0000_0000 && m < 0x8000_0000_0000_0000
    ensures RangeLoop(s, {}, limit, 1, StepsAt(c, m), 0, f, CallsAt(c, m))
  {
    hide Pow2, EarlyIn, AllSupported, DesugarAll, ExecBlock, EmissionsIn, Constant, Decode, Eval, Called, CallOf;
    CountingIsConstant(limit, s.body, f, st);
    GuardAvoidsNothing(c, m);
    BranchIsEarly(s.body, Guard(c, m), [CALL]);
    forall fuel: nat, st: State
      ensures var passes := Compare(c, Number(s, st), m);
              && ExecBlock(s.body, fuel, f, st) == (Normal, if passes then Called(st) else st)
              && EmissionsIn(s.body, [NoStep], fuel, f, st) == (if passes then 2 else 1)
    {
      GuardValue(c, m, f, st);
      GuardedRuns(s.body, Guard(c, m), [CALL], fuel, f, st);
      GuardedEmits(s.body, Guard(c, m), [CALL], fuel, f, st);
    }
    GuardedMakesCalls(s, c, m, f);
  }

  lemma GuardAvoidsNothing(c: BinOp, m: nat)
    ensures Avoids(Guard(c, m), {})
  {}

  lemma {:induction false} GuardedMakesCalls(s: Stmt, c: BinOp, m: nat, f: Frame)
    requires IsComparison(c) && s.For? && s.counter == 0 && s.ty.counter == I64
    requires forall fuel: nat, st: State ::
               ExecBlock(s.body, fuel, f, st) == (Normal, if Compare(c, Number(s, st), m) then Called(st) else st)
    ensures MakesCalls(s, CallsAt(c, m), f) && RunsThrough(s.body, 0, f) && Within(s.body, 0, f)
  {
    hide ExecBlock, Decode, Pow2, Called, CallOf;
    forall fuel: nat, st: State | IsWord(s, st) && Through(ExecBlock(s.body, fuel, f, st))
      ensures ExecBlock(s.body, fuel, f, st).1.trace == st.trace + CallsAt(c, m)(Number(s, st))
    {
      CalledWithNumber(st);
      assert st.trace + [] == st.trace;
    }
    forall st: State ensures Get(Called(st).env, 0) == Get(st.env, 0) { CalledKeeps(st); }
  }

  // ----- whole loops -----

  /** A round that calls leaves out the next number, so only a call for that is missed. */
  lemma {:induction false} SkippedInARow(c: BinOp, m: nat, b: int, limit: int)
    requires IsComparison(c)
    ensures Skipped(CallsAt(c, m), StepsAt(c, m), Lt, b, limit, 1) == [] <==> NoneInARow(c, m, b, limit)
    decreases limit - b
  {
    hide Compare, CallOf;
    var calls, n := CallsAt(c, m), StepsAt(c, m);
    if b < limit {
      var next := b + 1;
      assert Moved(Lt, b, 1) == next && Moved(Lt, b, n(b) * 1) == b + n(b);
      assert Between(calls, Lt, next, limit, 1, 0) == [] && Between(calls, Lt, next + 1, limit, 1, 0) == [];
      assert CallOf(next) != [] by { CallIsLoud(next); }
      SkippedInARow(c, m, b + n(b), limit);
      InARowFrom(c, m, b, limit);
      if Compare(c, b, m) {
        InARowFrom(c, m, next, limit);
      }
    }
  }

  lemma CallIsLoud(v: int)
    ensures CallOf(v) != []
  {}

  lemma InARowFrom(c: BinOp, m: nat, b: int, limit: int)
    requires IsComparison(c)
    ensures NoneInARow(c, m, b, limit) <==>
            NoneInARow(c, m, b + 1, limit) && !(b + 1 < limit && Compare(c, b, m) && Compare(c, b + 1, m))
  {
    hide Compare;
  }

  /** `for i 0:<limit { if i c m { f(i) } }` is meant to call f for every number below limit that
      passes the test, and behind each of these leaves the next number out. Its calls are those
      meant exactly if no two numbers in a row pass. */
  lemma {:induction false} GuardedLoopIsRightExactly(s: Stmt, limit: nat, c: BinOp, m: nat, fuel: nat, f: Frame,
                                                     st: State)
    requires IsComparison(c) && s == Guarded(limit, c, m)
    requires limit + 2 < 0x8000_0000_0000_0000 && m < 0x8000_0000_0000_0000 && fuel > limit
    ensures var meant, done := Exec(s, fuel, f, st), Emitted(Desugar(s), [], fuel, f, st);
            && meant.0 == done.0 == Normal
            && meant.1.trace == st.trace + AllCalls(CallsAt(c, m), Lt, 0, limit, 1)
            && done.1.trace == st.trace + CallsAlong(CallsAt(c, m), StepsAt(c, m), Lt, 0, limit, 1)
            && (meant.1.trace == done.1.trace <==> NoneInARow(c, m, 0, limit))
  {
    hide RangeLoop, Fits, Exec, Emitted, AllCalls, CallsAlong, Skipped, Trips, Compare, InRange, FitsAlong, NoneInARow;
    GuardedIsRangeLoop(s, limit, c, m, f, st);
    CountingIsConstant(limit, s.body, f, st);
    CountingFits(limit, 1, s.body);
    TripsByOne(limit);
    NumbersFit(0);
    NumbersFit(limit + 2);
    BoundedFits(Lt, I64, StepsAt(c, m), 2, 0, limit, 1);
    SkippedInARow(c, m, 0, limit);
    RightUnlessSkipped(s, {}, limit, 1, StepsAt(c, m), 0, fuel, f, st, CallsAt(c, m));
  }

  /** `for i 0:<limit { if i == m { f(i) } }` makes the calls that are meant, whatever m and limit
      are, although the round of m takes two steps. */
  lemma {:induction false} OneCallIsRight(s: Stmt, limit: nat, m: nat, fuel: nat, f: Frame, st: State)
    requires s == Guarded(limit, Eq, m)
    requires limit + 2 < 0x8000_0000_0000_0000 && m < 0x8000_0000_0000_0000 && fuel > limit
    ensures Emitted(Desugar(s), [], fuel, f, st).0 == Normal
    ensures Emitted(Desugar(s), [], fuel, f, st).1.trace == Exec(s, fuel, f, st).1.trace
            == st.trace + if m < limit then CallOf(m) else []
  {
    hide Exec, Emitted, AllCalls, CallsAlong, CallOf;
    GuardedLoopIsRightExactly(s, limit, Eq, m, fuel, f, st);
    OnlyAt(m, 0, limit);
  }

  lemma {:induction false} OnlyAt(m: nat, b: int, limit: int)
    ensures AllCalls(CallsAt(Eq, m), Lt, b, limit, 1) == if b <= m < limit then CallOf(m) else []
    decreases limit - b
  {
    hide AllCalls, Trips, CallOf;
    FirstRound(CallsAt(Eq, m), Lt, b, limit, 1);
    if b < limit {
      OnlyAt(m, b + 1, limit);
    }
  }

  /** `for i 0:<limit { if i < m { f(i) } }` is right exactly if at most one call is meant. */
  lemma {:induction false} FirstCallsAreRightExactly(s: Stmt, limit: nat, m: nat, fuel: nat, f: Frame, st: State)
    requires s == Guarded(limit, Lt, m)
    requires limit + 2 < 0x8000_0000_0000_0000 && m < 0x8000_0000_0000_0000 && fuel > limit
    ensures var meant, done := Exec(s, fuel, f, st), Emitted(Desugar(s), [], fuel, f, st);
            meant.1.trace == done.1.trace <==> limit <= 1 || m <= 1
  {
    hide Exec, Emitted, AllCalls, CallsAlong;
    GuardedLoopIsRightExactly(s, limit, Lt, m, fuel, f, st);
    FirstInARow(m, limit);
  }

  lemma FirstInARow(m: nat, limit: nat)
    ensures NoneInARow(Lt, m, 0, limit) <==> limit <= 1 || m <= 1
  {
    if limit > 1 && m > 1 {
      var v := 0;
      assert Compare(Lt, v, m) && Compare(Lt, v + 1, m) && v + 1 < limit;
    }
  }
}
