// For loops that take exactly one step a round, whatever the step: they do what is meant but
// for their last round, in which a break or a return takes a step that is not meant.
module LoopExits {
  import opened Words
  import opened Tree
  import opened Source
  import opened Desugaring
  import opened ForLoops
  import opened ForRange
  import opened FirstEmission

  // ----- bodies -----

  /** Nested blocks are empty or never complete, and there is no inner loop. */
  predicate Direct(s: Stmt)
  {
    match s
    case Nested(body) => Quiet(body) && DirectIn(body)
    case If(_, t, e) => Quiet(t) && Quiet(e) && DirectIn(t) && DirectIn(e)
    case While(_, _, _) => false
    case For(_, _, _, _, _, _, _) => false
    case _ => true
  }

  predicate DirectIn(ss: seq<Stmt>)
  {
    ss == [] || (Direct(ss[0]) && DirectIn(ss[1..]))
  }

  /** How a body ends, and the state in which it does, before any step is taken. */
  datatype Exit =
    | Completes(state: State) | Continues(state: State) | Breaks(state: State)
    | Returns(value: Option<Expr>, state: State)

  function ReachedBy(s: Stmt, f: Frame, st: State): Exit
  {
    match s
    case Declare(d, e) => Completes(SetTo(d, e, f, st))
    case Assign(d, e) => Completes(SetTo(d, e, f, st))
    case Evaluate(e) => Completes(st.(trace := Eval(e, f, st.env, st.trace).1))
    case Nested(body) => Reached(body, f, st)
    case If(c, t, e) =>
      var (v, tr) := Eval(c, f, st.env, st.trace);
      Reached(if Truth(v) then t else e, f, st.(trace := tr))
    case Break => Breaks(st)
    case Continue => Continues(st)
    case Return(v) => Returns(v, st)
    case _ => Completes(st)
  }

  function Reached(ss: seq<Stmt>, f: Frame, st: State): Exit
  {
    if ss == [] then Completes(st) else
    var x := ReachedBy(ss[0], f, st);
    if x.Completes? then Reached(ss[1..], f, x.state) else x
  }

  /** The result that ends in this way. */
  function Result(x: Exit, f: Frame): (Outcome, State)
  {
    match x
    case Completes(st) => (Normal, st)
    case Continues(st) => (Continued, st)
    case Breaks(st) => (Broke, st)
    case Returns(v, st) => ReturnWith(v, f, st)
  }

  function Stepped(x: Exit, steps: seq<Step>, f: Frame): Exit { x.(state := TakeSteps(steps, f, x.state)) }

  lemma {:induction false} DirectMeant(ss: seq<Stmt>, fuel: nat, f: Frame, st: State)
    requires DirectIn(ss)
    ensures ExecBlock(ss, fuel, f, st) == Result(Reached(ss, f, st), f)
    decreases ss, 0
  {
    if ss != [] {
      DirectStatementMeant(ss[0], fuel, f, st);
      if ReachedBy(ss[0], f, st).Completes? {
        DirectMeant(ss[1..], fuel, f, ReachedBy(ss[0], f, st).state);
      }
    }
  }

  lemma {:induction false} DirectStatementMeant(s: Stmt, fuel: nat, f: Frame, st: State)
    requires Direct(s)
    ensures Exec(s, fuel, f, st) == Result(ReachedBy(s, f, st), f)
    decreases s, 1
  {
    match s
    case Nested(body) => DirectMeant(body, fuel, f, st);
    case If(c, t, e) =>
      var (v, tr) := Eval(c, f, st.env, st.trace);
      DirectMeant(if Truth(v) then t else e, fuel, f, st.(trace := tr));
    case _ =>
  }

  lemma {:induction false} QuietReaches(ss: seq<Stmt>, f: Frame, st: State)
    requires NeverCompletes(ss)
    ensures !Reached(ss, f, st).Completes?
    decreases ss
  {
    if Escapes(ss[0]) && ss[0].If? {
      var (v, tr) := Eval(ss[0].cond, f, st.env, st.trace);
      QuietReaches(if Truth(v) then ss[0].thn else ss[0].els, f, st.(trace := tr));
    } else if Escapes(ss[0]) && ss[0].Nested? {
      QuietReaches(ss[0].body, f, st);
    } else if !Escapes(ss[0]) && ReachedBy(ss[0], f, st).Completes? {
      QuietReaches(ss[1..], f, ReachedBy(ss[0], f, st).state);
    }
  }

  /** Emitted, a block that is not empty takes the pending steps once, at its end or before
      its break, continue or return. */
  lemma {:induction false} DirectEmitted(ss: seq<Stmt>, steps: seq<Step>, fuel: nat, f: Frame, st: State)
    requires ss != [] && DirectIn(ss)
    ensures EmittedBlock(DesugarAll(ss), steps, fuel, f, st) == Result(Stepped(Reached(ss, f, st), steps, f), f)
    decreases ss, 0
  {
    hide TakeSteps, SetTo, Eval, ReturnWith;
    var rest := DesugarAll(ss[1..]);
    assert DesugarAll(ss)[0] == Desugar(ss[0]) && DesugarAll(ss)[1..] == rest;
    if ss[0].IsTerminator() {
      assert Desugar(ss[0]) == ss[0];
    } else {
      DirectStatementEmitted(ss[0], steps, fuel, f, st);
      var x := ReachedBy(ss[0], f, st);
      if x.Completes? && |ss| > 1 {
        DirectEmitted(ss[1..], steps, fuel, f, x.state);
      } else if x.Completes? {
        assert ss[1..] == [];
      }
    }
  }

  lemma {:induction false} DirectStatementEmitted(s: Stmt, steps: seq<Step>, fuel: nat, f: Frame, st: State)
    requires Direct(s) && !s.IsTerminator()
    ensures !Desugar(s).IsTerminator()
    ensures var x := ReachedBy(s, f, st);
            Emitted(Desugar(s), steps, fuel, f, st) == Result(if x.Completes? then x else Stepped(x, steps, f), f)
    ensures Emitted(Desugar(s), steps, fuel, f, st).0 == Normal <==> ReachedBy(s, f, st).Completes?
    decreases s, 1
  {
    hide TakeSteps;
    match s
    case Nested(body) => DirectBranch(body, steps, fuel, f, st);
    case If(c, t, e) =>
      var (v, tr) := Eval(c, f, st.env, st.trace);
      DirectBranch(if Truth(v) then t else e, steps, fuel, f, st.(trace := tr));
    case _ =>
  }

  lemma {:induction false} DirectBranch(ss: seq<Stmt>, steps: seq<Step>, fuel: nat, f: Frame, st: State)
    requires Quiet(ss) && DirectIn(ss)
    ensures var x := Reached(ss, f, st); var r := EmittedBlock(DesugarAll(ss), steps, fuel, f, st);
            && r == Result(if x.Completes? then x else Stepped(x, steps, f), f)
            && (r.0 == Normal <==> x.Completes?)
    decreases ss, 1
  {
    if ss != [] {
      QuietReaches(ss, f, st);
      DirectEmitted(ss, steps, fuel, f, st);
    }
  }

  // ----- loops -----

  /** How a loop ends: cut off, over, or left by a break or a return. */
  datatype Ending = CutOff(state: State) | Over(state: State) | Left(exit: Exit)

  function EndOf(s: Stmt, fuel: nat, f: Frame, st: State): Ending
    requires s.For?
    decreases fuel
  {
    if fuel == 0 then CutOff(st) else
    var (limit, tr) := Eval(s.end, f, st.env, st.trace);
    if !Truth(Tested(s.cmp, s.ty, Get(st.env, s.counter), limit, f.world.undef)) then Over(st.(trace := tr)) else
    var x := Reached(s.body, f, st.(trace := tr));
    if x.Breaks? || x.Returns? then Left(x) else EndOf(s, fuel - 1, f, TakeStep(StepFor(s), f, x.state))
  }

  function LoopResult(e: Ending, f: Frame): (Outcome, State)
  {
    match e
    case CutOff(st) => (Timeout, st)
    case Over(st) => (Normal, st)
    case Left(x) => if x.Breaks? then (Normal, x.state) else Result(x, f)
  }

  /** The step that is taken, and not meant, on the way out. */
  function LastStep(e: Ending, step: Step, f: Frame): Ending
  {
    if e.Left? then Left(Stepped(e.exit, [step], f)) else e
  }

  /** For every step, with or without calls, every cut-off and every state: the loop does what
      is meant, except that a break or a return runs the step once more before it. */
  lemma {:induction false} OnlyTheExitStepsAgain(s: Stmt, pads: seq<Step>, fuel: nat, f: Frame, st: State)
    requires s.For? && s.body != [] && DirectIn(s.body) && NoSteps(pads)
    ensures var e := EndOf(s, fuel, f, st);
            && Rounds(s, fuel, f, st) == LoopResult(e, f)
            && Emitted(WhileFor(s), pads, fuel, f, st) == LoopResult(LastStep(e, StepFor(s), f), f)
    decreases fuel
  {
    hide Tested, NextWord, SetTo, ReturnWith, Reached, DirectIn, Meaning, NextExpr, OrLiteral, TakeSteps, TestExpr,
      MovesBy;
    if fuel > 0 {
      WhileFormTest(s, f, st);
      var (v, tr) := Eval(WhileFor(s).cond, f, st.env, st.trace);
      if Truth(v) {
        var st1, steps := st.(trace := tr), pads + [StepFor(s)];
        var x := Reached(s.body, f, st1);
        DirectMeant(s.body, fuel - 1, f, st1);
        DirectEmitted(s.body, steps, fuel - 1, f, st1);
        LastStepTaken(steps, StepFor(s), f, x.state);
        LastStepTaken([StepFor(s)], StepFor(s), f, x.state);
        ResultOutcome(x, f);
        ResultOutcome(Stepped(x, steps, f), f);
        if !x.Breaks? && !x.Returns? {
          WhileFormStep(s.counter, s.ty, s.cmp, StepAmount(s), f, x.state);
          StepAmountIsMeant(s, f, x.state);
          OnlyTheExitStepsAgain(s, pads, fuel - 1, f, TakeStep(StepFor(s), f, x.state));
        }
      }
    }
  }

  lemma ResultOutcome(x: Exit, f: Frame)
    ensures var o := Result(x, f).0;
            match x
            case Completes(_) => o == Normal
            case Continues(_) => o == Continued
            case Breaks(_) => o == Broke
            case Returns(_, _) => o.Returned?
  {}

  /** The loop after desugaring. */
  lemma {:induction false} EmittedLoop(s: Stmt, fuel: nat, f: Frame, st: State)
    requires s.For?
    ensures Emitted(Desugar(s), [], fuel, f, st) == Emitted(WhileFor(s), [], fuel, f, Begun(s, f, st))
  {
    DesugaredFor(s);
    EmittedPair(s.counter, OrLiteral(s.begin, 0), WhileFor(s), [], fuel, f, st);
  }

  /** A loop that is not left by break or return has exactly the result that is meant. */
  lemma {:induction false} RightUnlessLeft(s: Stmt, fuel: nat, f: Frame, st: State)
    requires s.For? && s.body != [] && DirectIn(s.body) && !EndOf(s, fuel, f, Begun(s, f, st)).Left?
    ensures Emitted(Desugar(s), [], fuel, f, st) == Exec(s, fuel, f, st)
  {
    EmittedLoop(s, fuel, f, st);
    RoundsFromBegin(s, fuel, f, st);
    OnlyTheExitStepsAgain(s, [], fuel, f, Begun(s, f, st));
  }

  /** A returned value is meant to be computed before the step and is computed after it; the
      loop returns what is meant exactly if the two are the same. */
  lemma {:induction false} ReturnSeesTheStep(s: Stmt, e: Expr, st1: State, fuel: nat, f: Frame, st: State)
    requires s.For? && s.body != [] && DirectIn(s.body)
    requires EndOf(s, fuel, f, Begun(s, f, st)) == Left(Returns(Some(e), st1))
    ensures var st2 := TakeStep(StepFor(s), f, st1);
            var meant := Exec(s, fuel, f, st);
            var done := Emitted(Desugar(s), [], fuel, f, st);
            && meant == ReturnWith(Some(e), f, st1)
            && done == ReturnWith(Some(e), f, st2)
            && (meant.0 == done.0 <==> Eval(e, f, st1.env, st1.trace).0 == Eval(e, f, st2.env, st2.trace).0)
  {
    hide EndOf, Exec, Emitted, DirectIn, TakeStep, Eval;
    EmittedLoop(s, fuel, f, st);
    RoundsFromBegin(s, fuel, f, st);
    OnlyTheExitStepsAgain(s, [], fuel, f, Begun(s, f, st));
    LastStepTaken([StepFor(s)], StepFor(s), f, st1);
  }

  /** A break makes the calls of a step that is not meant to run any more; the loop makes the
      calls that are meant exactly if there are none. */
  lemma {:induction false} BreakRunsTheStep(s: Stmt, st1: State, fuel: nat, f: Frame, st: State)
    requires s.For? && s.body != [] && DirectIn(s.body)
    requires EndOf(s, fuel, f, Begun(s, f, st)) == Left(Breaks(st1))
    ensures var meant := Exec(s, fuel, f, st);
            var done := Emitted(Desugar(s), [], fuel, f, st);
            && meant == (Normal, st1)
            && done == (Normal, TakeStep(StepFor(s), f, st1))
            && done.1.trace == Eval(StepAmount(s), f, st1.env, st1.trace).1
            && (meant.1.trace == done.1.trace <==> Eval(StepAmount(s), f, st1.env, st1.trace).1 == st1.trace)
  {
    hide EndOf, Exec, Emitted, DirectIn, Eval, NextWord;
    EmittedLoop(s, fuel, f, st);
    RoundsFromBegin(s, fuel, f, st);
    OnlyTheExitStepsAgain(s, [], fuel, f, Begun(s, f, st));
    LastStepTaken([StepFor(s)], StepFor(s), f, st1);
    WhileFormStep(s.counter, s.ty, s.cmp, StepAmount(s), f, st1);
  }
}
