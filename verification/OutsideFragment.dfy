// For loops that take their step more or less often than is meant: how far a round is off,
// exactly, and what the whole loop then does.
module OutsideFragment {
  import opened Words
  import opened Tree
  import opened Source
  import opened CounterWords
  import opened Desugaring
  import opened ForLoops
  import opened ForRange
  import opened SameEmissions
  import opened StepCount
  import opened FirstEmission
  import opened LoopExits

  // ----- empty bodies -----

  /** An empty for body: the step is never emitted, so a loop that starts never ends. */
  lemma {:induction false} EmptyForBodyHangs(s: Stmt, fuel: nat, f: Frame, st: State)
    requires s.For? && s.body == [] && CallFree(s.end)
    ensures var test := WhileFor(s).cond;
            Emitted(WhileFor(s), [], fuel, f, st).0
            == if fuel == 0 || Truth(Eval(test, f, st.env, st.trace).0) then Timeout else Normal
    decreases fuel
  {
    var test := WhileFor(s).cond;
    HeadReads(s, {});
    ConvertedReads(s.ty.counter, s.ty.test, Local(s.counter), {});
    CallFreeIsSilent(test, f, st.env, st.trace);
    assert st.(trace := st.trace) == st;
    if fuel > 0 && Truth(Eval(test, f, st.env, st.trace).0) {
      EmptyForBodyHangs(s, fuel - 1, f, st);
    }
  }

  lemma {:induction false} FixedIsCallFree(e: Expr)
    requires Fixed(e)
    ensures CallFree(e)
    decreases e
  {
    match e
    case Binary(_, _, l, r) => FixedIsCallFree(l); FixedIsCallFree(r);
    case Logical(_, l, r) => FixedIsCallFree(l); FixedIsCallFree(r);
    case Cast(_, _, x) => FixedIsCallFree(x);
    case _ =>
  }

  /** A range loop with an empty body is meant to end after Trips rounds, and hangs exactly
      if there are any. */
  lemma {:induction false} EmptyRangeHangs(s: Stmt, limit: int, k: int, n: nat, fuel: nat, f: Frame, st: State)
    requires Constant(s, limit, k, f) && s.body == [] && k > 0
    requires n == Trips(s.cmp, StartNumber(s, f, st), limit, k) && fuel > n
    requires InRange(StartNumber(s, f, st) + Signum(s.cmp) * (n * k), s.ty.counter)
    ensures Exec(s, fuel, f, st).0 == Normal
    ensures Emitted(Desugar(s), [], fuel, f, st).0 == if n > 0 then Timeout else Normal
  {
    hide Trips, InRange, Decode, Tested, Fixed;
    var st1 := Begun(s, f, st);
    EmittedLoop(s, fuel, f, st);
    BegunAsWritten(s, f, st);
    RangeRuns(s, limit, k, n, 0, fuel, f, st);
    FixedIsCallFree(s.end);
    EmptyForBodyHangs(s, fuel, f, st1);
    WhileFormTest(s, f, st1);
    FixedIsFixed(s.end, f, st1.env, st1.trace);
    TestedNumber(s.cmp, s.ty, Get(st1.env, s.counter), Amount(s.end, f), f.world.undef);
    OneTripLess(s.cmp, Number(s, st1), limit, k);
  }

  // ----- how far a round is off -----

  predicate LoopFree(s: Stmt)
  {
    match s
    case Nested(body) => LoopFreeIn(body)
    case If(_, t, e) => LoopFreeIn(t) && LoopFreeIn(e)
    case While(_, _, _) => false
    case For(_, _, _, _, _, _, _) => false
    case _ => true
  }

  predicate LoopFreeIn(ss: seq<Stmt>)
  {
    ss == [] || (LoopFree(ss[0]) && LoopFreeIn(ss[1..]))
  }

  predicate Completes(ss: seq<Stmt>, steps: seq<Step>, fuel: nat, f: Frame, st: State)
  {
    ss != [] && EmittedBlock(ss, steps, fuel, f, st).0 == Normal
  }

  /** The non-empty blocks nested in a loop-free statement that run to their end. */
  function Completed(s: Stmt, steps: seq<Step>, fuel: nat, f: Frame, st: State): nat
    decreases s
  {
    match s
    case Nested(body) => CompletedIn(body, steps, fuel, f, st) + if Completes(body, steps, fuel, f, st) then 1 else 0
    case If(c, t, e) =>
      var (v, tr) := Eval(c, f, st.env, st.trace);
      var branch := if Truth(v) then t else e;
      CompletedIn(branch, steps, fuel, f, st.(trace := tr))
      + if Completes(branch, steps, fuel, f, st.(trace := tr)) then 1 else 0
    case _ => 0
  }

  function CompletedIn(ss: seq<Stmt>, steps: seq<Step>, fuel: nat, f: Frame, st: State): nat
    decreases ss
  {
    if ss == [] || ss[0].IsTerminator() then 0 else
    var (o, st1) := Emitted(ss[0], steps, fuel, f, st);
    Completed(ss[0], steps, fuel, f, st) + if o == Normal then CompletedIn(ss[1..], steps, fuel, f, st1) else 0
  }

  /** A loop-free body that is not empty takes the step once, and once more for every
      non-empty branch or nested block that completes. */
  lemma {:induction false} OneStepMorePerCompletedBlock(ss: seq<Stmt>, steps: seq<Step>, fuel: nat, f: Frame, st: State)
    requires LoopFreeIn(ss)
    ensures EmissionsIn(ss, steps, fuel, f, st) == if ss == [] then 0 else 1 + CompletedIn(ss, steps, fuel, f, st)
    ensures EmittedBlock(ss, steps, fuel, f, st).0 != Timeout
    decreases ss
  {
    if ss != [] && !ss[0].IsTerminator() {
      StatementEmissions(ss[0], steps, fuel, f, st);
      OneStepMorePerCompletedBlock(ss[1..], steps, fuel, f, Emitted(ss[0], steps, fuel, f, st).1);
      if |ss| == 1 {
        assert ss[1..] == [];
      }
    }
  }

  lemma {:induction false} StatementEmissions(s: Stmt, steps: seq<Step>, fuel: nat, f: Frame, st: State)
    requires LoopFree(s) && !s.IsTerminator()
    ensures var o := Emitted(s, steps, fuel, f, st).0;
            && o != Timeout
            && Emissions(s, steps, fuel, f, st) == Completed(s, steps, fuel, f, st) + if o == Normal then 0 else 1
    decreases s
  {
    match s
    case Nested(body) => OneStepMorePerCompletedBlock(body, steps, fuel, f, st);
    case If(c, t, e) =>
      var (v, tr) := Eval(c, f, st.env, st.trace);
      OneStepMorePerCompletedBlock(if Truth(v) then t else e, steps, fuel, f, st.(trace := tr));
    case _ =>
  }

  // ----- at least one step a round -----

  lemma {:induction false} LeavingEmits(s: Stmt, steps: seq<Step>, fuel: nat, f: Frame, st: State)
    requires !s.IsTerminator() && Emitted(s, steps, fuel, f, st).0 !in {Normal, Timeout}
    ensures Emissions(s, steps, fuel, f, st) > 0
    decreases fuel, s, 1
  {
    match s
    case Nested(body) => EndingEmits(body, steps, fuel, f, st);
    case If(c, t, e) =>
      var (v, tr) := Eval(c, f, st.env, st.trace);
      EndingEmits(if Truth(v) then t else e, steps, fuel, f, st.(trace := tr));
    case While(c, body, step) =>
      var (v, tr) := Eval(c, f, st.env, st.trace);
      var st1 := st.(trace := tr);
      var (o, st2) := EmittedBlock(body, steps + [step], fuel - 1, f, st1);
      if o == Normal || o == Continued {
        LeavingEmits(s, steps, fuel - 1, f, st2);
      } else {
        EndingEmits(body, steps + [step], fuel - 1, f, st1);
      }
    case _ =>
  }

  /** A block that ends, and is not empty, emits the step. */
  lemma {:induction false} EndingEmits(ss: seq<Stmt>, steps: seq<Step>, fuel: nat, f: Frame, st: State)
    requires ss != [] && EmittedBlock(ss, steps, fuel, f, st).0 != Timeout
    ensures EmissionsIn(ss, steps, fuel, f, st) > 0
    decreases fuel, ss, 0
  {
    if !ss[0].IsTerminator() {
      var (o, st1) := Emitted(ss[0], steps, fuel, f, st);
      if o != Normal {
        LeavingEmits(ss[0], steps, fuel, f, st);
      } else if |ss| > 1 {
        EndingEmits(ss[1..], steps, fuel, f, st1);
      }
    }
  }

  // ----- rounds -----

  function MotionOf(s: Stmt): Motion
    requires s.For?
  {
    Motion(s.cmp, s.ty, StepAmount(s))
  }

  /** A for loop with a fixed step whose body uses the counter in any way until the first step
      of a round, and whose inner loops, if any, are in the fragment. K are their counters. */
  ghost predicate Steady(s: Stmt, K: set<DeclId>)
  {
    && s.For? && s.counter !in K && s.body != [] && Fitting(s.ty)
    && AllSupported(s.body, K) && EarlyIn(DesugarAll(s.body), s.counter)
    && Fixed(StepAmount(s)) && Avoids(s.end, K)
  }

  /** The emitted round of such a loop has the outcome, the calls and the other locals that
      are meant; its counter has moved once more for every emission of the step. */
  lemma {:induction false} RoundMovesPerEmission(s: Stmt, K: set<DeclId>, fuel: nat, f: Frame, st: State, st': State)
    requires Steady(s, K) && Agree(st, st', K)
    ensures var r := ExecBlock(s.body, fuel, f, st);
            var r' := EmittedBlock(DesugarAll(s.body), [StepFor(s)], fuel, f, st');
            var n := EmissionsIn(DesugarAll(s.body), [NoStep], fuel, f, st');
            && r.0 == r'.0 && Agree(r.1, r'.1, K + {s.counter})
            && Get(r'.1.env, s.counter) == Shifted(MotionOf(s), n, Get(r.1.env, s.counter), f)
            && EmittedBlock(DesugarAll(s.body), [NoStep], fuel, f, st').0 == r.0
  {
    hide Shifted, NextWord, EarlyIn, AllSupported, DesugarAll, EmittedBlock, ExecBlock, EmissionsIn;
    AllSupportedAgree(s.body, K, [NoStep], fuel, f, st, st');
    assert [] + [NoStep] + [] == [NoStep] && [] + [StepFor(s)] + [] == [StepFor(s)];
    EarlyBlock(DesugarAll(s.body), [], StepFor(s), [], s.counter, MotionOf(s), fuel, f, st');
  }

  /** n steps of one amount are one step of n times the amount. */
  lemma {:induction false} ShiftedIsMultiplied(m: Motion, n: nat, x: int, f: Frame)
    requires Fitting(m.ty) && n > 0
    ensures Shifted(m, n, x, f) == NextWord(m.cmp, m.ty, x, n * Amount(m.step, f), f.world.undef)
    decreases n
  {
    hide NextWord;
    var amount := Amount(m.step, f);
    if n == 1 {
      ShiftedOnce(m, x, f);
    } else {
      ShiftedAdds(m, n - 1, 1, x, f);
      ShiftedIsMultiplied(m, n - 1, x, f);
      ShiftedOnce(m, Shifted(m, n - 1, x, f), f);
      StepsCombine(m.cmp, m.ty, x, (n - 1) * amount, amount, f.world.undef);
      assert (n - 1) * amount + amount == n * amount;
    }
  }

  /** A counter that has moved n times in a round is where it is meant to be exactly if the
      n - 1 steps too many add up to a multiple of the word size. */
  lemma {:induction false} CounterIsRightExactly(m: Motion, n: nat, x: int, f: Frame)
    requires Fitting(m.ty) && n > 0
    ensures Shifted(m, n, x, f) == Shifted(m, 1, x, f)
            <==> ((n - 1) * Amount(m.step, f)) % Pow2(m.ty.counter.Width()) == 0
  {
    hide Pow2, NextWord;
    var size, amount := Pow2(m.ty.counter.Width()), Amount(m.step, f);
    var all := n * amount;
    ShiftedIsMultiplied(m, n, x, f);
    ShiftedIsMultiplied(m, 1, x, f);
    NextModulo(m.cmp, m.ty, x, all, f.world.undef);
    NextModulo(m.cmp, m.ty, x, amount, f.world.undef);
    assert all - amount == (n - 1) * amount;
    if m.cmp in {Lt, Le} {
      DifferenceVanishes(x + all, x + amount, size);
    } else {
      DifferenceVanishes(x - amount, x - all, size);
    }
  }

  /** A round that goes on is exactly right, counter included, if the steps taken too many add
      up to a multiple of the word size. Without inner loops they are as many as non-empty
      blocks completed in it. */
  lemma {:induction false} RoundIsRightExactly(s: Stmt, K: set<DeclId>, fuel: nat, f: Frame, st: State)
    requires Steady(s, K) && Through(ExecBlock(s.body, fuel, f, st))
    ensures var r := ExecBlock(s.body, fuel, f, st);
            var r' := EmittedBlock(DesugarAll(s.body), [StepFor(s)], fuel, f, st);
            var extra := EmissionsIn(DesugarAll(s.body), [NoStep], fuel, f, st) - 1;
            && r.0 == r'.0 && Agree(r.1, r'.1, K + {s.counter})
            && (Get(TakeStep(StepFor(s), f, r.1).env, s.counter) == Get(r'.1.env, s.counter)
                <==> (extra * Amount(StepAmount(s), f)) % Pow2(s.ty.counter.Width()) == 0)
            && (LoopFreeIn(DesugarAll(s.body)) ==>
                  extra == CompletedIn(DesugarAll(s.body), [NoStep], fuel, f, st))
  {
    hide NextWord, Shifted, Pow2, EarlyIn, AllSupported, EmissionsIn, CompletedIn, ExecBlock, EmittedBlock;
    var body := DesugarAll(s.body);
    RoundMovesPerEmission(s, K, fuel, f, st, st);
    EndingEmits(body, [NoStep], fuel, f, st);
    if LoopFreeIn(body) {
      OneStepMorePerCompletedBlock(body, [NoStep], fuel, f, st);
    }
    var st1 := ExecBlock(s.body, fuel, f, st).1;
    MovesCounter(StepFor(s), s.counter, MotionOf(s), f, st1);
    CounterIsRightExactly(MotionOf(s), EmissionsIn(body, [NoStep], fuel, f, st), Get(st1.env, s.counter), f);
  }

  // ----- whole loops -----

  /** The steps that the emitted round from this state takes. */
  function StepsOfRound(s: Stmt, fuel: nat, f: Frame, st: State): nat
    requires s.For?
  {
    EmissionsIn(DesugarAll(s.body), [NoStep], fuel, f, st)
  }

  /** The rounds as they are meant, but for the counter: behind a round that goes on it moves as
      often as that round emits the step. */
  function SteppedRounds(s: Stmt, fuel: nat, f: Frame, st: State): (Outcome, State)
    requires s.For?
    decreases fuel
  {
    if fuel == 0 then (Timeout, st) else
    var (limit, tr) := Eval(s.end, f, st.env, st.trace);
    if !Truth(Tested(s.cmp, s.ty, Get(st.env, s.counter), limit, f.world.undef)) then (Normal, st.(trace := tr)) else
    var st1 := st.(trace := tr);
    var (o, st2) := ExecBlock(s.body, fuel - 1, f, st1);
    match o
    case Broke => (Normal, st2)
    case Returned(_) => (o, st2)
    case Timeout => (o, st2)
    case _ =>
      var x := Shifted(MotionOf(s), StepsOfRound(s, fuel - 1, f, st1), Get(st2.env, s.counter), f);
      SteppedRounds(s, fuel - 1, f, st2.(env := st2.env[s.counter := x]))
  }

  /** Such a loop, emitted, does what is meant, for every cut-off, but that each round moves the
      counter as often as it emits the step. */
  lemma {:induction false} LoopTakesEmittedSteps(s: Stmt, K: set<DeclId>, fuel: nat, f: Frame, st: State, st': State)
    requires Steady(s, K) && Agree(st, st', K)
    ensures var r := SteppedRounds(s, fuel, f, st); var r' := Emitted(WhileFor(s), [], fuel, f, st');
            r.0 == r'.0 && Agree(r.1, r'.1, K + {s.counter})
    decreases fuel
  {
    hide NextWord, Tested, EarlyIn, AllSupported, Fixed, Fitting, EmittedBlock, ExecBlock, EmissionsIn, Shifted,
      StepFor, TestExpr, TruncMod;
    if fuel > 0 {
      var w := WhileFor(s);
      SteadyTest(s, K, f, st, st');
      var (v, tr) := Eval(w.cond, f, st.env, st.trace);
      if Truth(v) {
        var st1, st1' := st.(trace := tr), st'.(trace := tr);
        RoundMovesPerEmission(s, K, fuel - 1, f, st1, st1');
        AllEmitAlike(s.body, K, [NoStep], fuel - 1, f, st1, st1');
        var (o, st2) := ExecBlock(s.body, fuel - 1, f, st1);
        assert [] + [StepFor(s)] == [StepFor(s)];
        if o == Normal || o == Continued {
          var st2' := EmittedBlock(w.body, [StepFor(s)], fuel - 1, f, st1').1;
          var x := Shifted(MotionOf(s), StepsOfRound(s, fuel - 1, f, st1), Get(st2.env, s.counter), f);
          LoopTakesEmittedSteps(s, K, fuel - 1, f, st2.(env := st2.env[s.counter := x]), st2');
        }
      }
    }
  }

  /** Every round that goes on to another emits the step n times. */
  ghost predicate AlwaysEmits(s: Stmt, n: nat, f: Frame)
    requires s.For?
  {
    forall fuel: nat, st: State :: GoesOn(s, fuel, f, st) ==> StepsOfRound(s, fuel, f, st) == n
  }

  predicate GoesOn(s: Stmt, fuel: nat, f: Frame, st: State)
    requires s.For?
  {
    Through(EmittedBlock(DesugarAll(s.body), [NoStep], fuel, f, st))
  }

  /** The loop as emitted, if every round emits the step n times. */
  function Multiplied(s: Stmt, n: nat, f: Frame): Stmt
    requires s.For?
  {
    s.(step := Some(Literal(n * Amount(StepAmount(s), f))))
  }

  lemma EmitsNow(s: Stmt, n: nat, fuel: nat, f: Frame, st: State)
    requires s.For? && AlwaysEmits(s, n, f) && GoesOn(s, fuel, f, st)
    ensures StepsOfRound(s, fuel, f, st) == n
  {}

  lemma {:induction false} SteppedIsMultiplied(s: Stmt, K: set<DeclId>, n: nat, fuel: nat, f: Frame, st: State)
    requires Steady(s, K) && n > 0 && AlwaysEmits(s, n, f)
    ensures SteppedRounds(s, fuel, f, st) == Rounds(Multiplied(s, n, f), fuel, f, st)
    decreases fuel
  {
    hide NextWord, Tested, AlwaysEmits, EarlyIn, AllSupported, Fixed, Fitting, EmittedBlock, ExecBlock, StepsOfRound,
      Shifted;
    if fuel > 0 {
      var (limit, tr) := Eval(s.end, f, st.env, st.trace);
      var st1 := st.(trace := tr);
      var (o, st2) := ExecBlock(s.body, fuel - 1, f, st1);
      if (o == Normal || o == Continued) &&
         Truth(Tested(s.cmp, s.ty, Get(st.env, s.counter), limit, f.world.undef)) {
        var x := Get(st2.env, s.counter);
        RoundMovesPerEmission(s, K, fuel - 1, f, st1, st1);
        EmitsNow(s, n, fuel - 1, f, st1);
        ShiftedIsMultiplied(MotionOf(s), n, x, f);
        SteppedIsMultiplied(s, K, n, fuel - 1, f, st2.(env := st2.env[s.counter := Shifted(MotionOf(s), n, x, f)]));
      }
    }
  }

  /** A loop whose rounds emit the step n times does what is meant by a loop with a step n
      times as large, for every cut-off. */
  lemma {:induction false} LoopRunsWithMultipliedStep(s: Stmt, K: set<DeclId>, n: nat, fuel: nat, f: Frame, st: State,
                                                      st': State)
    requires Steady(s, K) && n > 0 && AlwaysEmits(s, n, f) && Agree(st, st', K)
    ensures var r := Rounds(Multiplied(s, n, f), fuel, f, st); var r' := Emitted(WhileFor(s), [], fuel, f, st');
            r.0 == r'.0 && Agree(r.1, r'.1, K + {s.counter})
  {
    hide Steady, AlwaysEmits, SteppedRounds, Rounds, Emitted, WhileFor;
    LoopTakesEmittedSteps(s, K, fuel, f, st, st');
    SteppedIsMultiplied(s, K, n, fuel, f, st);
  }

  lemma SteadyTest(s: Stmt, K: set<DeclId>, f: Frame, st: State, st': State)
    requires Steady(s, K) && Agree(st, st', K)
    ensures var (limit, tr) := Eval(s.end, f, st.env, st.trace);
            var test := WhileFor(s).cond;
            && Eval(test, f, st.env, st.trace) ==
               (Tested(s.cmp, s.ty, Get(st.env, s.counter), limit, f.world.undef), tr)
            && Eval(test, f, st'.env, st'.trace) == Eval(test, f, st.env, st.trace)
  {
    hide Tested;
    WhileFormTest(s, f, st);
    HeadReads(s, K);
    EvalOff(WhileFor(s).cond, K, f, st.env, st'.env, st.trace);
  }

  // ----- emissions that can be read off the body -----

  /** Never: the statement does not go on to another round. Always: it takes n steps if it
      completes, and does not continue. Varies: neither is plain to see. */
  datatype Going = Never | Always(n: nat) | Varies

  function Joined(a: Going, b: Going): Going
  {
    if a.Never? then b else if b.Never? || a == b then a else Varies
  }

  function GoingOf(s: Stmt): Going
  {
    match s
    case Nested(body) => GoingIn(body)
    case If(Literal(v), t, e) => if Truth(v) then GoingIn(t) else GoingIn(e)
    case If(_, t, e) => Joined(GoingIn(t), GoingIn(e))
    case While(_, _, _) => Varies
    case Break => Never
    case Return(_) => Never
    case Continue => Varies
    case _ => Always(0)
  }

  function GoingIn(ss: seq<Stmt>): Going
  {
    if ss == [] then Always(0) else
    match GoingOf(ss[0])
    case Never => Never
    case Varies => Varies
    case Always(j) =>
      if |ss| == 1 then Always(j + 1) else
      match GoingIn(ss[1..])
      case Always(k) => Always(j + k)
      case other => other
  }

  ghost predicate Goes(g: Going, o: Outcome, n: nat)
  {
    match g
    case Never => o != Normal && o != Continued
    case Always(k) => o != Continued && (o == Normal ==> n == k)
    case Varies => true
  }

  lemma {:induction false} StatementGoes(s: Stmt, steps: seq<Step>, fuel: nat, f: Frame, st: State)
    ensures Goes(GoingOf(s), Emitted(s, steps, fuel, f, st).0, Emissions(s, steps, fuel, f, st))
    decreases s, 1
  {
    match s
    case Nested(body) => BlockGoes(body, steps, fuel, f, st);
    case If(c, t, e) =>
      var (v, tr) := Eval(c, f, st.env, st.trace);
      BlockGoes(t, steps, fuel, f, st.(trace := tr));
      BlockGoes(e, steps, fuel, f, st.(trace := tr));
    case _ =>
  }

  lemma {:induction false} BlockGoes(ss: seq<Stmt>, steps: seq<Step>, fuel: nat, f: Frame, st: State)
    ensures Goes(GoingIn(ss), EmittedBlock(ss, steps, fuel, f, st).0, EmissionsIn(ss, steps, fuel, f, st))
    decreases ss, 0
  {
    if ss == [] {
    } else if ss[0].IsTerminator() {
      StatementGoes(ss[0], steps, fuel, f, TakeSteps(steps, f, st));
    } else {
      StatementGoes(ss[0], steps, fuel, f, st);
      BlockGoes(ss[1..], steps, fuel, f, Emitted(ss[0], steps, fuel, f, st).1);
    }
  }

  /** So n can be read off the body where the body says so. */
  lemma {:induction false} PlainBodyAlwaysEmits(s: Stmt, n: nat, f: Frame)
    requires s.For? && GoingIn(DesugarAll(s.body)) == Always(n)
    ensures AlwaysEmits(s, n, f)
  {
    forall fuel: nat, st: State | GoesOn(s, fuel, f, st)
      ensures EmissionsIn(DesugarAll(s.body), [NoStep], fuel, f, st) == n
    {
      BlockGoes(DesugarAll(s.body), [NoStep], fuel, f, st);
    }
  }
}
