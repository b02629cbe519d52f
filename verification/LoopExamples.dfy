// Loops whose emitted form makes fewer calls than are meant, for every length.
module LoopExamples {
  import opened Words
  import opened NumberLaws
  import opened Tree
  import opened Source
  import opened CounterWords
  import opened Desugaring
  import opened ForLoops
  import opened ForRange
  import opened StepCount
  import opened FirstEmission
  import opened OutsideFragment
  import opened LoopTrips

  const I64: IntType := Int(true, 8)

  /** `for i 0:<limit body`, i being local 0. */
  function Counting(limit: nat, body: seq<Stmt>): Stmt
  {
    For(0, CounterTypes(I64, I64, I64), None, Lt, Literal(limit), None, body)
  }

  lemma NumbersFit(n: nat)
    requires n < 0x8000_0000_0000_0000
    ensures InRange(n, I64) && Decode(I64, n) == n
  {
    PowersOf(64);
    DecodeNumber(n, I64);
  }

  lemma CountingIsConstant(limit: nat, body: seq<Stmt>, f: Frame, st: State)
    requires limit < 0x8000_0000_0000_0000
    ensures var s := Counting(limit, body);
            Constant(s, limit, 1, f) && StartNumber(s, f, st) == 0 && StartCalls(s, f, st) == st.trace
            && IsWord(s, Begun(s, f, st))
  {
    hide Pow2, Decode, InRange;
    NumbersFit(limit);
    NumbersFit(0);
    assert 0 % Pow2(64) == 0;
  }

  /** Numbers up to limit + n are representable. */
  lemma {:induction false} CountingFits(limit: nat, n: nat, body: seq<Stmt>)
    requires n > 0 && limit + n < 0x8000_0000_0000_0000
    ensures Fits(Counting(limit, body), 0, limit, n)
    ensures 0 <= Trips(Lt, 0, limit, n) <= limit
  {
    hide Pow2, InRange;
    if limit > 0 {
      var q := (limit + n - 1) / n;
      assert q * n + (limit + n - 1) % n == limit + n - 1;
      RoundsUp(limit, n, q);
      NumbersFit(q * n);
    } else {
      NumbersFit(0);
    }
  }

  lemma {:induction false} RoundsUp(limit: int, n: int, q: int)
    requires n > 0 && limit > 0 && limit <= q * n <= limit + n - 1
    ensures 0 <= q <= limit
  {
    MultipleIsFar(q, n);
    MultipleIsFar(q - limit, n);
    Distributes(q, limit, n);
    ProductGrows(limit, n);
  }

  lemma Distributes(q: int, limit: int, n: int)
    ensures (q - limit) * n == q * n - limit * n
  {}

  lemma {:induction false} ProductGrows(limit: int, n: int)
    requires n > 0 && limit > 0
    ensures limit * n >= limit
  {
    assert limit * n == limit * (n - 1) + limit;
    assert limit * (n - 1) >= 0;
  }

  /** `for d 0:<limit`. */
  predicate CountsTo(s: Stmt, d: DeclId, limit: nat)
  {
    && s.For? && s.counter == d && s.ty == CounterTypes(I64, I64, I64)
    && s.begin == None && s.cmp == Lt && s.end == Literal(limit) && s.step == None
  }

  lemma CountingTest(s: Stmt, d: DeclId, limit: nat, j: nat, f: Frame, st: State)
    requires CountsTo(s, d, limit) && limit < 0x8000_0000_0000_0000 && j < 0x8000_0000_0000_0000
    requires Get(st.env, d) == j
    ensures var (v, tr) := Eval(WhileFor(s).cond, f, st.env, st.trace); Truth(v) == (j < limit) && tr == st.trace
  {
    hide Pow2, Decode, InRange, Tested;
    WhileFormTest(s, f, st);
    NumbersFit(limit);
    NumbersFit(j);
    TestedNumber(Lt, s.ty, j, limit, f.world.undef);
  }

  lemma CountingStep(s: Stmt, d: DeclId, limit: nat, j: nat, f: Frame, st: State)
    requires CountsTo(s, d, limit) && j < 0x8000_0000_0000_0000 && Get(st.env, d) == j
    ensures TakeStep(StepFor(s), f, st) == st.(env := st.env[d := j + 1])
  {
    hide NextWord, Pow2;
    PowersOf(64);
    WhileFormStep(d, s.ty, Lt, Literal(1), f, st);
    NextModulo(Lt, s.ty, j, 1, f.world.undef);
    ModUnique(j + 1, Pow2(64), 0, j + 1);
  }

  lemma TripsByOne(limit: nat)
    ensures Trips(Lt, 0, limit, 1) == limit
  {
    ModUnique(limit, 1, limit, 0);
  }

  // ----- a call in a branch -----

  /** `f(i)`. */
  const CALL: Stmt := Evaluate(Call("f", [Local(0)]))

  /** The call of f with the word of a number. */
  function CallOf(v: int): seq<Event> { [Event("f", [Unsigned(v, 64)])] }

  lemma CallOfNumber(v: nat)
    requires v < 0x8000_0000_0000_0000
    ensures CallOf(v) == [Event("f", [v])]
  {
    hide Pow2;
    PowersOf(64);
    ModUnique(v, Pow2(64), 0, v);
  }

  /** What CALL does: the argument is the counter's word. */
  function Called(st: State): State { st.(trace := st.trace + [Event("f", [Get(st.env, 0)])]) }

  lemma CallMakes(fuel: nat, f: Frame, st: State)
    ensures Exec(CALL, fuel, f, st) == (Normal, Called(st))
  {
    OneArgument([Local(0)], f, st);
  }

  lemma OneArgument(es: seq<Expr>, f: Frame, st: State)
    requires es == [Local(0)]
    ensures EvalAll(es, f, st.env, st.trace) == ([Get(st.env, 0)], st.trace)
  {
    assert es[1..] == [];
    assert EvalAll(es[1..], f, st.env, st.trace) == ([], st.trace);
    assert [Get(st.env, 0)] + [] == [Get(st.env, 0)];
    assert Eval(es[0], f, st.env, st.trace) == (Get(st.env, 0), st.trace);
  }

  lemma BranchRuns(body: seq<Stmt>, branch: seq<Stmt>, fuel: nat, f: Frame, st: State)
    requires body == [If(Literal(1), branch, [])] && branch == [CALL]
    ensures ExecBlock(body, fuel, f, st) == (Normal, Called(st))
  {
    hide Exec;
    CallMakes(fuel, f, st);
    OnlyStatement(branch, fuel, f, st);
    OnlyStatement(body, fuel, f, st);
    BranchTaken(body[0], Literal(1), branch, fuel, f, st);
  }

  lemma OnlyStatement(ss: seq<Stmt>, fuel: nat, f: Frame, st: State)
    requires |ss| == 1
    ensures ExecBlock(ss, fuel, f, st) == Exec(ss[0], fuel, f, st)
  {
    hide Exec;
    assert ss[1..] == [] && ExecBlock([], fuel, f, Exec(ss[0], fuel, f, st).1) == (Normal, Exec(ss[0], fuel, f, st).1);
  }

  lemma BranchTaken(s: Stmt, e: Expr, branch: seq<Stmt>, fuel: nat, f: Frame, st: State)
    requires s == If(e, branch, []) && Eval(e, f, st.env, st.trace).1 == st.trace
    ensures Exec(s, fuel, f, st) ==
            if Truth(Eval(e, f, st.env, st.trace).0) then ExecBlock(branch, fuel, f, st) else (Normal, st)
  {
    assert st.(trace := st.trace) == st;
  }

  /** The counter is used before the first step only. */
  lemma BranchIsEarly(body: seq<Stmt>, e: Expr, branch: seq<Stmt>)
    requires body == [If(e, branch, [])] && branch == [CALL] && Avoids(e, {})
    ensures AllSupported(body, {}) && EarlyIn(body, 0) && DesugarAll(body) == body
  {
    assert branch[1..] == [] && body[1..] == [] && body[0].els == [];
    assert DesugarAll(branch[1..]) == [] && DesugarAll(branch) == branch && DesugarAll(body[0].els) == [];
    assert AllSupported([], {}) && AllSupported(branch, {}) by { assert Avoids(CALL.expr, {}); }
    assert IgnoresIn([], 0) && EarlyIn([], 0) && EarlyIn(branch, 0);
  }

  /** The body takes two steps. */
  lemma BranchTakesTwo(body: seq<Stmt>, branch: seq<Stmt>)
    requires body == [If(Literal(1), branch, [])] && branch == [CALL]
    ensures GoingIn(body) == Always(2)
  {
    assert branch[1..] == [] && body[1..] == [] && body[0].els == [];
    assert GoingIn([]) == Always(0) && GoingIn(branch) == Always(1);
  }

  lemma {:induction false} BranchIsRangeLoop(s: Stmt, limit: nat, f: Frame, st: State)
    requires s == Counting(limit, [If(Literal(1), [CALL], [])]) && limit < 0x8000_0000_0000_0000
    ensures RangeLoop(s, {}, limit, 1, Evenly(2), 0, f, CallOf)
  {
    hide Pow2, EarlyIn, AllSupported, GoingIn, DesugarAll, ExecBlock, Constant;
    CountingIsConstant(limit, s.body, f, st);
    BranchIsEarly(s.body, Literal(1), [CALL]);
    BranchTakesTwo(s.body, [CALL]);
    PlainBodyAlwaysEmits(s, 2, f);
    AlwaysEmitsEvenly(s, 2, f);
    forall fuel: nat, st: State
      ensures ExecBlock(s.body, fuel, f, st) == (Normal, Called(st))
    {
      BranchRuns(s.body, [CALL], fuel, f, st);
    }
    BranchMakesCalls(s, f);
  }

  lemma {:induction false} BranchMakesCalls(s: Stmt, f: Frame)
    requires s.For? && s.counter == 0 && s.ty.counter == I64
    requires forall fuel: nat, st: State :: ExecBlock(s.body, fuel, f, st) == (Normal, Called(st))
    ensures MakesCalls(s, CallOf, f) && RunsThrough(s.body, 0, f) && Within(s.body, 0, f)
  {
    hide ExecBlock, Decode, Pow2, Called, CallOf;
    forall fuel: nat, st: State | IsWord(s, st) && Through(ExecBlock(s.body, fuel, f, st))
      ensures ExecBlock(s.body, fuel, f, st).1.trace == st.trace + CallOf(Number(s, st))
    {
      CalledWithNumber(st);
    }
    forall st: State ensures Get(Called(st).env, 0) == Get(st.env, 0) { CalledKeeps(st); }
  }

  lemma CalledKeeps(st: State)
    ensures Get(Called(st).env, 0) == Get(st.env, 0)
  {}

  /** Called with the word of the counter, f is called with its number. */
  lemma CalledWithNumber(st: State)
    requires 0 <= Get(st.env, 0) < Pow2(64)
    ensures Called(st).trace == st.trace + CallOf(Decode(I64, Get(st.env, 0)))
  {
    hide Pow2, Decode;
    var x := Get(st.env, 0);
    DecodesModulo(I64, x);
    ModUnique(x, Pow2(64), 0, x);
  }

  /** `for i 0:<limit { if true { f(i) } }` is meant to call f for 0, 1, ..., limit - 1, and
      calls it for 0, 2, 4, ...: the step runs at the end of the branch and again at the end
      of the body. That is right exactly if limit is at most 1. */
  lemma {:induction false} NestedBlockStepsAgain(s: Stmt, limit: nat, fuel: nat, f: Frame, st: State)
    requires s == Counting(limit, [If(Literal(1), [CALL], [])]) && limit + 2 < 0x8000_0000_0000_0000 && fuel > limit
    ensures var meant, done := Exec(s, fuel, f, st), Emitted(Desugar(s), [], fuel, f, st);
            && meant.0 == done.0 == Normal
            && meant.1.trace == st.trace + AllCalls(CallOf, Lt, 0, limit, 1)
            && done.1.trace == st.trace + AllCalls(CallOf, Lt, 0, limit, 2)
            && (meant.1.trace == done.1.trace <==> limit <= 1)
  {
    hide RangeLoop, Fits, Exec, Emitted, AllCalls, Trips;
    BranchIsRangeLoop(s, limit, f, st);
    CountingIsConstant(limit, s.body, f, st);
    CountingFits(limit, 1, s.body);
    CountingFits(limit, 2, s.body);
    TripsByOne(limit);
    LoopIsRightExactly(s, {}, limit, 1, 2, 0, fuel, f, st, CallOf);
  }

  // ----- a for loop in a for loop -----

  /** `f()`. */
  const PLAIN: Stmt := Evaluate(Call("f", []))

  const CALLED: seq<Event> := [Event("f", [])]

  function Repeated(calls: seq<Event>, n: nat): seq<Event>
  {
    if n == 0 then [] else calls + Repeated(calls, n - 1)
  }

  /** `for j 0:<rounds { f() }`, j being local 1. */
  function Inner(rounds: nat): Stmt
  {
    For(1, CounterTypes(I64, I64, I64), None, Lt, Literal(rounds), None, [PLAIN])
  }

  lemma PlainRuns(fuel: nat, f: Frame, st: State)
    ensures Exec(PLAIN, fuel, f, st) == (Normal, st.(trace := st.trace + CALLED))
  {
    assert EvalAll([], f, st.env, st.trace) == ([], st.trace);
  }

  /** The calls of an inner loop from j on, and how it ends. */
  predicate InnerResult(r: (Outcome, State), rounds: nat, j: nat, fuel: nat, st: State)
    requires j <= rounds
  {
    && Get(r.1.env, 0) == Get(st.env, 0)
    && if fuel <= rounds - j then r.0 == Timeout
       else r.0 == Normal && r.1.trace == st.trace + Repeated(CALLED, rounds - j)
  }

  lemma OneMoreCall(trace: seq<Event>, n: nat)
    ensures trace + CALLED + Repeated(CALLED, n) == trace + Repeated(CALLED, n + 1)
    ensures trace + Repeated(CALLED, 0) == trace
  {
    assert Repeated(CALLED, 0) == [];
    assert trace + CALLED + Repeated(CALLED, n) == trace + (CALLED + Repeated(CALLED, n));
  }

  /** The inner loop as it is meant. */
  lemma {:induction false} InnerMeant(s: Stmt, rounds: nat, j: nat, fuel: nat, f: Frame, st: State)
    requires s == Inner(rounds) && rounds < 0x8000_0000_0000_0000 && j <= rounds && Get(st.env, 1) == j
    ensures InnerResult(Rounds(s, fuel, f, st), rounds, j, fuel, st)
    decreases rounds - j
  {
    hide Tested, NextWord, Exec, Rounds, Repeated, Eval, Pow2;
    CountingTest(s, 1, rounds, j, f, st);
    OneMoreCall(st.trace, 0);
    if fuel == 0 || j == rounds {
      NoMoreRounds(s, fuel, f, st);
    } else {
      PlainRuns(fuel - 1, f, st);
      OnlyStatement(s.body, fuel - 1, f, st);
      var st1 := st.(trace := st.trace + CALLED);
      CountingStep(s, 1, rounds, j, f, st1);
      OneMoreRound(s, fuel, f, st, st1);
      InnerMeant(s, rounds, j + 1, fuel - 1, f, TakeStep(StepFor(s), f, st1));
      OneMoreCall(st.trace, rounds - j - 1);
    }
  }

  lemma NoMoreRounds(s: Stmt, fuel: nat, f: Frame, st: State)
    requires s.For?
    requires var (v, tr) := Eval(WhileFor(s).cond, f, st.env, st.trace); fuel > 0 ==> !Truth(v) && tr == st.trace
    ensures Rounds(s, fuel, f, st) == if fuel == 0 then (Timeout, st) else (Normal, st)
  {
    hide Tested;
    WhileFormTest(s, f, st);
    assert st.(trace := st.trace) == st;
  }

  lemma OneMoreRound(s: Stmt, fuel: nat, f: Frame, st: State, st1: State)
    requires s.For? && fuel > 0 && ExecBlock(s.body, fuel - 1, f, st) == (Normal, st1)
    requires var (v, tr) := Eval(WhileFor(s).cond, f, st.env, st.trace); Truth(v) && tr == st.trace
    ensures Rounds(s, fuel, f, st) == Rounds(s, fuel - 1, f, TakeStep(StepFor(s), f, st1))
  {
    hide Tested, NextWord;
    WhileFormTest(s, f, st);
    WhileFormStep(s.counter, s.ty, s.cmp, StepAmount(s), f, st1);
    assert st.(trace := st.trace) == st;
  }

  /** The inner loop emitted, without the step of the outer one: it takes that step once in
      each of its rounds. */
  lemma {:induction false} InnerEmitted(s: Stmt, rounds: nat, j: nat, fuel: nat, f: Frame, st: State)
    requires s == Inner(rounds) && rounds < 0x8000_0000_0000_0000 && j <= rounds && Get(st.env, 1) == j
    ensures var w := WhileFor(s);
            && Emitted(w, [NoStep], fuel, f, st).0 == (if fuel <= rounds - j then Timeout else Normal)
            && (fuel > rounds - j ==> Emissions(w, [NoStep], fuel, f, st) == rounds - j)
    decreases rounds - j
  {
    hide Emitted, Emissions, Eval, TakeSteps, TakeStep, Pow2;
    var w := WhileFor(s);
    CountingTest(s, 1, rounds, j, f, st);
    if fuel == 0 {
      WhileCutOff(w, [NoStep], f, st);
    } else if j == rounds {
      WhileOver(w, [NoStep], fuel, f, st);
    } else {
      var steps, st1 := [NoStep] + [w.prologue], st.(trace := st.trace + CALLED);
      PlainBody(s.body, steps, fuel - 1, f, st);
      LastStepTaken(steps, w.prologue, f, st1);
      CountingStep(s, 1, rounds, j, f, st1);
      WhileRound(w, [NoStep], fuel, f, st, TakeSteps(steps, f, st1));
      InnerEmitted(s, rounds, j + 1, fuel - 1, f, TakeSteps(steps, f, st1));
    }
  }

  lemma WhileCutOff(w: Stmt, steps: seq<Step>, f: Frame, st: State)
    requires w.While?
    ensures Emitted(w, steps, 0, f, st).0 == Timeout
  {}

  lemma WhileOver(w: Stmt, steps: seq<Step>, fuel: nat, f: Frame, st: State)
    requires w.While? && fuel > 0 && !Truth(Eval(w.cond, f, st.env, st.trace).0)
    ensures Emitted(w, steps, fuel, f, st) == (Normal, st.(trace := Eval(w.cond, f, st.env, st.trace).1))
    ensures Emissions(w, steps, fuel, f, st) == 0
  {}

  /** A round of a loop whose test makes no calls. */
  lemma WhileRound(w: Stmt, steps: seq<Step>, fuel: nat, f: Frame, st: State, st1: State)
    requires w.While? && fuel > 0
    requires Truth(Eval(w.cond, f, st.env, st.trace).0) && Eval(w.cond, f, st.env, st.trace).1 == st.trace
    requires EmittedBlock(w.body, steps + [w.prologue], fuel - 1, f, st) == (Normal, st1)
    ensures Emitted(w, steps, fuel, f, st) == Emitted(w, steps, fuel - 1, f, st1)
    ensures Emissions(w, steps, fuel, f, st)
            == EmissionsIn(w.body, steps + [w.prologue], fuel - 1, f, st) + Emissions(w, steps, fuel - 1, f, st1)
  {
    assert st.(trace := st.trace) == st;
  }

  lemma PlainBody(body: seq<Stmt>, steps: seq<Step>, fuel: nat, f: Frame, st: State)
    requires body == [PLAIN]
    ensures DesugarAll(body) == body
    ensures EmittedBlock(body, steps, fuel, f, st)
            == (Normal, TakeSteps(steps, f, st.(trace := st.trace + CALLED)))
    ensures EmissionsIn(body, steps, fuel, f, st) == 1
  {
    hide TakeSteps;
    assert body[1..] == [] && DesugarAll(body[1..]) == [];
    assert EvalAll([], f, st.env, st.trace) == ([], st.trace);
  }

  /** An inner loop that ends takes the step of the outer one in each of its own emissions,
      at the end of the block it was desugared into, and at the end of the outer body. */
  lemma {:induction false} InnerForEmitsTwiceMore(d: DeclId, e: Expr, w: Stmt, steps: seq<Step>, fuel: nat, f: Frame,
                                                  st: State)
    requires w.While? && Emitted(w, steps, fuel, f, SetTo(d, e, f, st)).0 == Normal
    ensures EmissionsIn([Nested([Declare(d, e), w])], steps, fuel, f, st) ==
            Emissions(w, steps, fuel, f, SetTo(d, e, f, st)) + 2
  {
    var inner := [Declare(d, e), w];
    assert inner[1..] == [w];
    assert EmissionsIn([w], steps, fuel, f, SetTo(d, e, f, st)) == Emissions(w, steps, fuel, f, SetTo(d, e, f, st)) + 1;
    assert EmittedBlock([w], steps, fuel, f, SetTo(d, e, f, st)).0 == Normal;
    assert EmissionsIn(inner, steps, fuel, f, st) == Emissions(w, steps, fuel, f, SetTo(d, e, f, st)) + 1;
    assert EmittedBlock(inner, steps, fuel, f, st).0 == Normal;
  }

  /** A round of the outer loop takes its step once in each inner round and twice more. */
  lemma {:induction false} OuterEmits(s: Stmt, rounds: nat, fuel: nat, f: Frame, st: State)
    requires s == Inner(rounds) && rounds < 0x8000_0000_0000_0000
    requires EmittedBlock(DesugarAll([s]), [NoStep], fuel, f, st).0 != Timeout
    ensures EmissionsIn(DesugarAll([s]), [NoStep], fuel, f, st) == rounds + 2
  {
    hide EmissionsIn, Emissions, Emitted, EmittedBlock;
    var begin := OrLiteral(s.begin, 0);
    var st1 := Begun(s, f, st);
    OneDesugars(s);
    DesugaredFor(s);
    OneBlock([Declare(1, begin), WhileFor(s)], fuel, f, st);
    EmittedPair(1, begin, WhileFor(s), [NoStep], fuel, f, st);
    InnerEmitted(s, rounds, 0, fuel, f, st1);
    InnerForEmitsTwiceMore(1, begin, WhileFor(s), [NoStep], fuel, f, st);
  }

  lemma OneDesugars(s: Stmt)
    ensures DesugarAll([s]) == [Desugar(s)]
  {
    assert [s][1..] == [] && DesugarAll([s][1..]) == [];
  }

  lemma OneBlock(ss: seq<Stmt>, fuel: nat, f: Frame, st: State)
    ensures EmittedBlock([Nested(ss)], [NoStep], fuel, f, st).0 == EmittedBlock(ss, [NoStep], fuel, f, st).0
  {}

  lemma {:induction false} OuterIsSteady(s: Stmt, limit: nat, inner: Stmt, rounds: nat)
    requires inner == Inner(rounds) && s == Counting(limit, [inner])
    ensures Steady(s, {1})
  {
    hide Desugar, DesugarAll, EarlyIn, AllSupported, Fixed, Pow2;
    InnerIsSupported([inner], inner, rounds);
    InnerIsEarly(inner, rounds);
    OneIsFixed(StepAmount(s));
  }

  lemma OneIsFixed(e: Expr)
    requires e == Literal(1)
    ensures Fixed(e)
  {}

  lemma InnerIsSupported(body: seq<Stmt>, inner: Stmt, rounds: nat)
    requires inner == Inner(rounds) && body == [inner]
    ensures AllSupported(body, {1})
  {
    assert body[1..] == [] && AllSupported(body[1..], {1});
    var calls := inner.body;
    assert calls[1..] == [] && AllInForBody(calls[1..], 1, {1});
    assert Avoids(PLAIN.expr, {1} - {1});
    assert AllInForBody(calls, 1, {1});
  }

  lemma InnerIsEarly(inner: Stmt, rounds: nat)
    requires inner == Inner(rounds)
    ensures EarlyIn(DesugarAll([inner]), 0)
  {
    hide Desugar, DesugarAll;
    var w := WhileFor(inner);
    var pair := [Declare(1, Literal(0)), w];
    OneDesugars(inner);
    DesugaredFor(inner);
    InnerIgnores(inner, rounds, w);
    assert pair[1..] == [w] && EarlyIn([w], 0) by { assert [w][1..] == [] && IgnoresIn([w][1..], 0); }
    assert EarlyIn(pair, 0);
    assert [Nested(pair)][1..] == [] && IgnoresIn([Nested(pair)][1..], 0);
  }

  lemma InnerIgnores(inner: Stmt, rounds: nat, w: Stmt)
    requires inner == Inner(rounds) && w == WhileFor(inner)
    ensures Ignores(w, 0)
  {
    var calls := inner.body;
    assert calls[1..] == [] && DesugarAll(calls[1..]) == [] && DesugarAll(calls) == calls;
    assert IgnoresIn(calls[1..], 0) && Avoids(PLAIN.expr, {0});
  }

  /** The calls of one round of the outer loop. */
  function RoundCalls(rounds: nat): int -> seq<Event> { (_: int) => Repeated(CALLED, rounds) }

  lemma {:induction false} OuterIsRangeLoop(s: Stmt, limit: nat, inner: Stmt, rounds: nat, f: Frame, st: State)
    requires inner == Inner(rounds) && s == Counting(limit, [inner])
    requires limit < 0x8000_0000_0000_0000 && rounds < 0x8000_0000_0000_0000
    ensures RangeLoop(s, {1}, limit, 1, Evenly(rounds + 2), rounds + 1, f, RoundCalls(rounds))
  {
    hide Steady, Constant, Pow2, EmittedBlock, EmissionsIn, DesugarAll, Exec, ExecBlock, Rounds, Repeated;
    CountingIsConstant(limit, s.body, f, st);
    OuterIsSteady(s, limit, inner, rounds);
    forall fuel: nat, st: State | GoesOn(s, fuel, f, st)
      ensures EmissionsIn(DesugarAll(s.body), [NoStep], fuel, f, st) == rounds + 2
    {
      OuterEmits(inner, rounds, fuel, f, st);
    }
    forall fuel: nat, st: State ensures InnerResult(ExecBlock(s.body, fuel, f, st), rounds, 0, fuel, st) {
      OuterBodyRuns(s.body, inner, rounds, fuel, f, st);
    }
  }

  lemma OuterBodyRuns(body: seq<Stmt>, inner: Stmt, rounds: nat, fuel: nat, f: Frame, st: State)
    requires inner == Inner(rounds) && body == [inner] && rounds < 0x8000_0000_0000_0000
    ensures InnerResult(ExecBlock(body, fuel, f, st), rounds, 0, fuel, st)
  {
    hide Exec, ExecBlock, Rounds, Repeated;
    OnlyStatement(body, fuel, f, st);
    RoundsFromBegin(inner, fuel, f, st);
    InnerMeant(inner, rounds, 0, fuel, f, Begun(inner, f, st));
  }

  /** `for i 0:<limit { for j 0:<rounds { f() } }` is meant to run its inner loop limit times;
      as emitted it counts i in steps of rounds + 2. That is right exactly if at most one outer
      round is meant. */
  lemma {:induction false} ForInForStepsAgain(s: Stmt, limit: nat, rounds: nat, fuel: nat, f: Frame, st: State)
    requires s == Counting(limit, [Inner(rounds)]) && rounds > 0
    requires limit + rounds + 2 < 0x8000_0000_0000_0000 && fuel > limit + rounds + 1
    ensures var calls := RoundCalls(rounds);
            var meant, done := Exec(s, fuel, f, st), Emitted(Desugar(s), [], fuel, f, st);
            && meant.0 == done.0 == Normal
            && meant.1.trace == st.trace + AllCalls(calls, Lt, 0, limit, 1)
            && done.1.trace == st.trace + AllCalls(calls, Lt, 0, limit, rounds + 2)
            && (meant.1.trace == done.1.trace <==> limit <= 1)
  {
    hide RangeLoop, Fits, Exec, Emitted, AllCalls, Trips, Repeated;
    OuterIsRangeLoop(s, limit, Inner(rounds), rounds, f, st);
    CountingIsConstant(limit, s.body, f, st);
    CountingFits(limit, 1, s.body);
    CountingFits(limit, rounds + 2, s.body);
    TripsByOne(limit);
    RepeatedIsLoud(rounds);
    LoopIsRightExactly(s, {1}, limit, 1, rounds + 2, rounds + 1, fuel, f, st, RoundCalls(rounds));
  }

  lemma RepeatedIsLoud(rounds: nat)
    requires rounds > 0
    ensures NeverSilent(RoundCalls(rounds))
  {
    assert |Repeated(CALLED, rounds)| >= |CALLED|;
  }
}
