// A loop that uses its counter behind a branch, when the step has already been taken.
module LateUse {
  import opened Words
  import opened Tree
  import opened Source
  import opened Desugaring
  import opened ForLoops
  import opened ForRange
  import opened LoopExits
  import opened LoopTrips
  import opened LoopExamples

  /** `g()`. */
  const ANNOUNCE: Stmt := Evaluate(Call("g", []))

  const ANNOUNCED: seq<Event> := [Event("g", [])]

  function Announced(st: State): State { st.(trace := st.trace + ANNOUNCED) }

  /** The calls of the round of b as it is meant, and as it is emitted. */
  const LATE_MEANT: int -> seq<Event> := (b: int) => ANNOUNCED + CallOf(b)

  const LATE_DONE: int -> seq<Event> := (b: int) => ANNOUNCED + CallOf(b + 1)

  /** `for i 0:<limit { if true { g() } f(i) }`. */
  function Late(limit: nat): Stmt { Counting(limit, [If(Literal(1), [ANNOUNCE], []), CALL]) }

  lemma Announces(fuel: nat, f: Frame, st: State)
    ensures Exec(ANNOUNCE, fuel, f, st) == (Normal, Announced(st))
  {
    assert EvalAll([], f, st.env, st.trace) == ([], st.trace);
  }

  lemma LateRuns(body: seq<Stmt>, branch: seq<Stmt>, fuel: nat, f: Frame, st: State)
    requires body == [If(Literal(1), branch, []), CALL] && branch == [ANNOUNCE]
    ensures ExecBlock(body, fuel, f, st) == (Normal, Called(Announced(st)))
  {
    hide Exec;
    Announces(fuel, f, st);
    OnlyStatement(branch, fuel, f, st);
    BranchTaken(body[0], Literal(1), branch, fuel, f, st);
    CallMakes(fuel, f, Announced(st));
    OnlyStatement(body[1..], fuel, f, Announced(st));
  }

  lemma {:induction false} LateMakesCalls(s: Stmt, limit: nat, f: Frame)
    requires s == Late(limit)
    ensures MakesCalls(s, LATE_MEANT, f) && RunsThrough(s.body, 0, f) && Within(s.body, 0, f)
  {
    hide ExecBlock, Decode, Pow2, Called, CallOf;
    forall fuel: nat, st: State ensures ExecBlock(s.body, fuel, f, st) == (Normal, Called(Announced(st))) {
      LateRuns(s.body, [ANNOUNCE], fuel, f, st);
    }
    forall fuel: nat, st: State | IsWord(s, st) && Through(ExecBlock(s.body, fuel, f, st))
      ensures ExecBlock(s.body, fuel, f, st).1.trace == st.trace + LATE_MEANT(Number(s, st))
    {
      CalledWithNumber(Announced(st));
      var call := CallOf(Number(s, st));
      assert st.trace + ANNOUNCED + call == st.trace + (ANNOUNCED + call);
    }
    forall st: State ensures Get(Called(Announced(st)).env, 0) == Get(st.env, 0) { CalledKeeps(Announced(st)); }
  }

  /** The emitted body: a step behind g, and another behind f. */
  lemma LateBodyEmitted(body: seq<Stmt>, branch: seq<Stmt>, step: Step, fuel: nat, f: Frame, st: State)
    requires body == [If(Literal(1), branch, []), CALL] && branch == [ANNOUNCE]
    ensures EmittedBlock(body, [step], fuel, f, st)
            == (Normal, TakeStep(step, f, Called(TakeStep(step, f, Announced(st)))))
  {
    hide TakeStep, TakeSteps;
    var st1 := TakeStep(step, f, Announced(st));
    LastStepTaken([step], step, f, Announced(st));
    LastStepTaken([step], step, f, Called(st1));
    assert EvalAll([], f, st.env, st.trace) == ([], st.trace);
    assert st.(trace := st.trace) == st;
    assert EmittedBlock(branch, [step], fuel, f, st) == (Normal, st1);
    assert body[1..] == [CALL];
    OneArgument([Local(0)], f, st1);
    assert Emitted(CALL, [step], fuel, f, st1) == (Normal, Called(st1));
    assert EmittedBlock(body[1..], [step], fuel, f, st1) == (Normal, TakeStep(step, f, Called(st1)));
  }

  lemma {:induction false} LateRound(s: Stmt, limit: nat, j: nat, fuel: nat, f: Frame, st: State)
    returns (st1: State)
    requires s == Late(limit) && j + 2 < 0x8000_0000_0000_0000 && Get(st.env, 0) == j
    ensures EmittedBlock(DesugarAll(s.body), [StepFor(s)], fuel, f, st) == (Normal, st1)
    ensures Get(st1.env, 0) == j + 2 && st1.trace == st.trace + LATE_DONE(j)
  {
    hide EmittedBlock, DesugarAll, TakeStep, Pow2;
    LateDesugars(s.body, [ANNOUNCE]);
    LateBodyEmitted(s.body, [ANNOUNCE], StepFor(s), fuel, f, st);
    CountingStep(s, 0, limit, j, f, Announced(st));
    var st2 := Called(TakeStep(StepFor(s), f, Announced(st)));
    CountingStep(s, 0, limit, j + 1, f, st2);
    CallOfNumber(j + 1);
    assert st.trace + ANNOUNCED + CallOf(j + 1) == st.trace + (ANNOUNCED + CallOf(j + 1));
    st1 := TakeStep(StepFor(s), f, st2);
  }

  lemma LateDesugars(body: seq<Stmt>, branch: seq<Stmt>)
    requires body == [If(Literal(1), branch, []), CALL] && branch == [ANNOUNCE]
    ensures DesugarAll(body) == body
  {
    assert branch[1..] == [] && DesugarAll(branch[1..]) == [] && DesugarAll(branch) == branch;
    assert DesugarAll(body[0].els) == [];
    assert body[1..] == [CALL] && [CALL][1..] == [] && DesugarAll([CALL][1..]) == [] && DesugarAll([CALL]) == [CALL];
  }

  lemma {:induction false} LateEmitted(s: Stmt, limit: nat, j: nat, fuel: nat, f: Frame, st: State)
    requires s == Late(limit) && limit + 2 < 0x8000_0000_0000_0000
    requires j <= limit + 1 && fuel > 0 && fuel + j > limit && Get(st.env, 0) == j
    ensures var r := Emitted(WhileFor(s), [], fuel, f, st);
            r.0 == Normal && r.1.trace == st.trace + AllCalls(LATE_DONE, Lt, j, limit, 2)
    decreases fuel
  {
    hide Emitted, EmittedBlock, DesugarAll, Eval, AllCalls, Trips, CallOf, Truth, StepFor, TestExpr, NextExpr,
      LATE_DONE;
    var w := WhileFor(s);
    CountingTest(s, 0, limit, j, f, st);
    FirstRound(LATE_DONE, Lt, j, limit, 2);
    if j < limit {
      var st1 := LateRound(s, limit, j, fuel - 1, f, st);
      assert [] + [StepFor(s)] == [StepFor(s)];
      WhileRound(w, [], fuel, f, st, st1);
      LateEmitted(s, limit, j + 2, fuel - 1, f, st1);
      var rest := AllCalls(LATE_DONE, Lt, j + 2, limit, 2);
      assert st.trace + LATE_DONE(j) + rest == st.trace + (LATE_DONE(j) + rest);
    } else {
      WhileOver(w, [], fuel, f, st);
      assert st.trace + [] == st.trace;
    }
  }

  /** `for i 0:<limit { if true { g() } f(i) }` is meant to call g and then f for 0, 1, ...,
      limit - 1; it calls f with a counter that has already moved, for 1, 3, 5, ... . That is
      right exactly if there is no round. */
  lemma {:induction false} LateUseIsOneAhead(s: Stmt, limit: nat, fuel: nat, f: Frame, st: State)
    requires s == Late(limit) && limit + 2 < 0x8000_0000_0000_0000 && fuel > limit
    ensures var meant, done := Exec(s, fuel, f, st), Emitted(Desugar(s), [], fuel, f, st);
            && meant.0 == done.0 == Normal
            && meant.1.trace == st.trace + AllCalls(LATE_MEANT, Lt, 0, limit, 1)
            && done.1.trace == st.trace + AllCalls(LATE_DONE, Lt, 0, limit, 2)
            && (meant.1.trace == done.1.trace <==> limit == 0)
  {
    hide Exec, Emitted, Trips, RunsThrough, Within, MakesCalls, Constant, CallOf, Pow2;
    LateMakesCalls(s, limit, f);
    CountingIsConstant(limit, s.body, f, st);
    CountingFits(limit, 1, s.body);
    TripsByOne(limit);
    RangeCalls(s, limit, 1, limit, 0, fuel, f, st, LATE_MEANT);
    EmittedLoop(s, fuel, f, st);
    LateEmitted(s, limit, 0, fuel, f, Begun(s, f, st));
    LateCallsDiffer(limit);
    SameEnds(st.trace, AllCalls(LATE_MEANT, Lt, 0, limit, 1), AllCalls(LATE_DONE, Lt, 0, limit, 2));
  }

  lemma {:induction false} LateCallsDiffer(limit: nat)
    ensures AllCalls(LATE_MEANT, Lt, 0, limit, 1) == AllCalls(LATE_DONE, Lt, 0, limit, 2) <==> limit == 0
  {
    hide AllCalls, Trips, CallOf;
    FirstRound(LATE_MEANT, Lt, 0, limit, 1);
    FirstRound(LATE_DONE, Lt, 0, limit, 2);
    CallOfNumber(0);
    CallOfNumber(1);
    if limit > 0 {
      var meant, done := AllCalls(LATE_MEANT, Lt, 0, limit, 1), AllCalls(LATE_DONE, Lt, 0, limit, 2);
      assert meant[1] == Event("f", [0]) && done[1] == Event("f", [1]);
    }
  }
}
