// Where code generation realises the intended meaning of loops: everywhere in programs
// without for loops, and for for loops on the fragment described by `InForBody`.
module ForLoops {
  import opened Words
  import opened Tree
  import opened Source
  import opened Desugaring

  // ----- expressions -----

  /** The expression reads no local of K. */
  ghost predicate Avoids(e: Expr, K: set<DeclId>)
  {
    match e
    case Literal(_) => true
    case Argument(_) => true
    case Local(d) => d !in K
    case Binary(_, _, l, r) => Avoids(l, K) && Avoids(r, K)
    case Logical(_, l, r) => Avoids(l, K) && Avoids(r, K)
    case Call(_, es) => forall i :: 0 <= i < |es| ==> Avoids(es[i], K)
    case Cast(_, _, x) => Avoids(x, K)
  }

  ghost predicate AvoidsIn(e: Option<Expr>, K: set<DeclId>) { e.Some? ==> Avoids(e.value, K) }

  predicate CallFree(e: Expr)
  {
    match e
    case Binary(_, _, l, r) => CallFree(l) && CallFree(r)
    case Logical(_, l, r) => CallFree(l) && CallFree(r)
    case Call(_, _) => false
    case Cast(_, _, x) => CallFree(x)
    case _ => true
  }

  ghost predicate SameOff(env: Env, env': Env, K: set<DeclId>)
  {
    forall d :: d !in K ==> Get(env, d) == Get(env', d)
  }

  /** The same calls, and the same locals except those of K. */
  ghost predicate Agree(st: State, st': State, K: set<DeclId>)
  {
    st.trace == st'.trace && SameOff(st.env, st'.env, K)
  }

  lemma {:induction false} EvalOff(e: Expr, K: set<DeclId>, f: Frame, env: Env, env': Env, tr: seq<Event>)
    requires Avoids(e, K) && SameOff(env, env', K)
    ensures Eval(e, f, env, tr) == Eval(e, f, env', tr)
    decreases e
  {
    match e
    case Binary(_, _, l, r) =>
      EvalOff(l, K, f, env, env', tr);
      EvalOff(r, K, f, env, env', Eval(l, f, env, tr).1);
    case Logical(_, l, r) =>
      EvalOff(l, K, f, env, env', tr);
      EvalOff(r, K, f, env, env', Eval(l, f, env, tr).1);
    case Call(_, es) => EvalAllOff(es, K, f, env, env', tr);
    case Cast(_, _, x) => EvalOff(x, K, f, env, env', tr);
    case _ =>
  }

  lemma {:induction false} EvalAllOff(es: seq<Expr>, K: set<DeclId>, f: Frame, env: Env, env': Env, tr: seq<Event>)
    requires (forall i :: 0 <= i < |es| ==> Avoids(es[i], K)) && SameOff(env, env', K)
    ensures EvalAll(es, f, env, tr) == EvalAll(es, f, env', tr)
    decreases es
  {
    if es != [] {
      EvalOff(es[0], K, f, env, env', tr);
      EvalAllOff(es[1..], K, f, env, env', Eval(es[0], f, env, tr).1);
    }
  }

  lemma {:induction false} CallFreeIsSilent(e: Expr, f: Frame, env: Env, tr: seq<Event>)
    requires CallFree(e)
    ensures Eval(e, f, env, tr).1 == tr
    decreases e
  {
    match e
    case Binary(_, _, l, r) => CallFreeIsSilent(l, f, env, tr); CallFreeIsSilent(r, f, env, tr);
    case Logical(_, l, r) => CallFreeIsSilent(l, f, env, tr); CallFreeIsSilent(r, f, env, tr);
    case Cast(_, _, x) => CallFreeIsSilent(x, f, env, tr);
    case _ =>
  }

  lemma SetToAgrees(d: DeclId, e: Expr, K: set<DeclId>, f: Frame, st: State, st': State)
    requires Agree(st, st', K) && Avoids(e, K)
    ensures Agree(SetTo(d, e, f, st), SetTo(d, e, f, st'), K - {d})
  {
    EvalOff(e, K, f, st.env, st'.env, st.trace);
  }

  // ----- the fragment -----

  /** Every way through the statements ends in a break, continue or return. */
  predicate NeverCompletes(ss: seq<Stmt>)
  {
    ss != [] && (Escapes(ss[0]) || NeverCompletes(ss[1..]))
  }

  predicate Escapes(s: Stmt)
  {
    || s.IsTerminator()
    || (s.If? && NeverCompletes(s.thn) && NeverCompletes(s.els))
    || (s.Nested? && NeverCompletes(s.body))
  }

  /** Statements of a for body with counter i; K holds all for counters. Nested blocks are
      empty or never complete, there is no inner loop, a returned value does not depend on
      counters, and only this counter is touched. */
  ghost predicate InForBody(s: Stmt, i: DeclId, K: set<DeclId>)
  {
    match s
    case Declare(d, e) => d !in K - {i} && Avoids(e, K - {i})
    case Assign(d, e) => d !in K - {i} && Avoids(e, K - {i})
    case Evaluate(e) => Avoids(e, K - {i})
    case Nested(body) => body == [] || (NeverCompletes(body) && AllInForBody(body, i, K))
    case ErrorBlock(_) => true
    case If(c, t, e) =>
      && Avoids(c, K - {i})
      && (t == [] || (NeverCompletes(t) && AllInForBody(t, i, K)))
      && (e == [] || (NeverCompletes(e) && AllInForBody(e, i, K)))
    case While(_, _, _) => false
    case For(_, _, _, _, _, _, _) => false
    case Break => true
    case Continue => true
    case Return(v) => AvoidsIn(v, K)
  }

  ghost predicate AllInForBody(ss: seq<Stmt>, i: DeclId, K: set<DeclId>)
  {
    ss == [] || (InForBody(ss[0], i, K) && AllInForBody(ss[1..], i, K))
  }

  /** There is no way out of the statement's loop but the end. */
  predicate NoExit(s: Stmt)
  {
    match s
    case Nested(body) => NoExitIn(body)
    case If(_, t, e) => NoExitIn(t) && NoExitIn(e)
    case While(_, _, _) => false
    case For(_, _, _, _, _, _, _) => false
    case Break => false
    case Return(_) => false
    case _ => true
  }

  predicate NoExitIn(ss: seq<Stmt>)
  {
    ss == [] || (NoExit(ss[0]) && NoExitIn(ss[1..]))
  }

  /** Statements outside for bodies: they do not touch counters, while loops are plain, and
      for loops have a non-empty body of the fragment; where their step makes calls, that body
      has no break and no return. */
  ghost predicate Supported(s: Stmt, K: set<DeclId>)
  {
    match s
    case Declare(d, e) => d !in K && Avoids(e, K)
    case Assign(d, e) => d !in K && Avoids(e, K)
    case Evaluate(e) => Avoids(e, K)
    case Nested(body) => AllSupported(body, K)
    case ErrorBlock(_) => true
    case If(c, t, e) => Avoids(c, K) && AllSupported(t, K) && AllSupported(e, K)
    case While(c, body, step) => Avoids(c, K) && AllSupported(body, K) && step == NoStep
    case For(i, _, begin, _, end, step, body) =>
      && i in K && AvoidsIn(begin, K) && Avoids(end, K - {i}) && AvoidsIn(step, K - {i})
      && (step.Some? ==> CallFree(step.value) || NoExitIn(body))
      && body != [] && AllInForBody(body, i, K)
    case Break => true
    case Continue => true
    case Return(v) => AvoidsIn(v, K)
  }

  ghost predicate AllSupported(ss: seq<Stmt>, K: set<DeclId>)
  {
    ss == [] || (Supported(ss[0], K) && AllSupported(ss[1..], K))
  }

  // ----- pending steps -----

  /** Of the enclosing loops only the innermost has a step. */
  ghost predicate OnlyLast(steps: seq<Step>, step: Step)
  {
    |steps| > 0 && steps[|steps| - 1] == step && forall k :: 0 <= k < |steps| - 1 ==> steps[k] == NoStep
  }

  ghost predicate NoSteps(steps: seq<Step>)
  {
    forall k :: 0 <= k < |steps| ==> steps[k] == NoStep
  }

  lemma {:induction false} NoStepsTaken(steps: seq<Step>, f: Frame, st: State)
    requires NoSteps(steps)
    ensures TakeSteps(steps, f, st) == st
    decreases steps
  {
    if steps != [] {
      NoStepsTaken(steps[1..], f, st);
    }
  }

  lemma {:induction false} LastStepTaken(steps: seq<Step>, step: Step, f: Frame, st: State)
    requires OnlyLast(steps, step)
    ensures TakeSteps(steps, f, st) == TakeStep(step, f, st)
    decreases steps
  {
    if |steps| > 1 {
      LastStepTaken(steps[1..], step, f, st);
    } else {
      assert steps[1..] == [];
    }
  }

  // ----- for bodies -----

  lemma {:induction false} NeverCompletesExec(ss: seq<Stmt>, fuel: nat, f: Frame, st: State)
    requires NeverCompletes(ss)
    ensures ExecBlock(ss, fuel, f, st).0 != Normal
    decreases ss
  {
    if Escapes(ss[0]) && ss[0].If? {
      var (v, tr) := Eval(ss[0].cond, f, st.env, st.trace);
      NeverCompletesExec(if Truth(v) then ss[0].thn else ss[0].els, fuel, f, st.(trace := tr));
    } else if Escapes(ss[0]) && ss[0].Nested? {
      NeverCompletesExec(ss[0].body, fuel, f, st);
    } else if !Escapes(ss[0]) {
      NeverCompletesExec(ss[1..], fuel, f, Exec(ss[0], fuel, f, st).1);
    }
  }

  /** A step of the loop with counter i: no other counter. */
  ghost predicate StepOfLoop(step: Step, i: DeclId, K: set<DeclId>)
  {
    step.Step? && step.decl == i && i in K && Avoids(step.value, K - {i})
  }

  /** Running the step once more on the way out of the loop makes no difference. */
  predicate Harmless(step: Step, ss: seq<Stmt>)
    requires step.Step?
  {
    CallFree(step.value) || NoExitIn(ss)
  }

  lemma StepAgrees(step: Step, i: DeclId, K: set<DeclId>, f: Frame, st: State, st': State)
    requires StepOfLoop(step, i, K) && Agree(st, st', K - {i})
    ensures Agree(TakeStep(step, f, st), TakeStep(step, f, st'), K - {i})
    ensures CallFree(step.value) ==> Agree(st, TakeStep(step, f, st'), K)
  {
    EvalOff(step.value, K - {i}, f, st.env, st'.env, st.trace);
    if CallFree(step.value) {
      CallFreeIsSilent(step.value, f, st.env, st.trace);
    }
  }

  /** The intended and the emitted result of a block that is not empty: the step has run
      where the block completed or continued, and harmlessly so where it broke or returned. */
  ghost predicate StepRan(r: (Outcome, State), r': (Outcome, State), step: Step, i: DeclId, K: set<DeclId>, f: Frame)
  {
    && r.0 == r'.0 && r.0 != Timeout
    && (r.0 == Normal || r.0 == Continued ==> Agree(TakeStep(step, f, r.1), r'.1, K - {i}))
    && (r.0 == Broke || r.0.Returned? ==> Agree(r.1, r'.1, K))
  }

  ghost predicate StepRanUnlessCompleted(r: (Outcome, State), r': (Outcome, State), step: Step, i: DeclId,
                                         K: set<DeclId>, f: Frame)
  {
    if r.0 == Normal then r'.0 == Normal && Agree(r.1, r'.1, K - {i}) else StepRan(r, r', step, i, K, f)
  }

  lemma {:induction false} ForBodyStmt(s: Stmt, i: DeclId, K: set<DeclId>, steps: seq<Step>, step: Step, fuel: nat,
                                       f: Frame, st: State, st': State)
    requires InForBody(s, i, K) && OnlyLast(steps, step) && StepOfLoop(step, i, K) && Agree(st, st', K - {i})
    requires !s.IsTerminator() && (CallFree(step.value) || NoExit(s))
    ensures StepRanUnlessCompleted(Exec(s, fuel, f, st), Emitted(s, steps, fuel, f, st'), step, i, K, f)
    decreases s
  {
    match s
    case Declare(d, e) => SetToAgrees(d, e, K - {i}, f, st, st');
    case Assign(d, e) => SetToAgrees(d, e, K - {i}, f, st, st');
    case Evaluate(e) => EvalOff(e, K - {i}, f, st.env, st'.env, st.trace);
    case Nested(body) =>
      if body != [] {
        ForBodyBlock(body, i, K, steps, step, fuel, f, st, st');
        NeverCompletesExec(body, fuel, f, st);
      }
    case If(c, t, e) =>
      EvalOff(c, K - {i}, f, st.env, st'.env, st.trace);
      var (v, tr) := Eval(c, f, st.env, st.trace);
      var branch := if Truth(v) then t else e;
      if branch != [] {
        ForBodyBlock(branch, i, K, steps, step, fuel, f, st.(trace := tr), st'.(trace := tr));
        NeverCompletesExec(branch, fuel, f, st.(trace := tr));
      }
    case _ =>
  }

  lemma NoExitHead(ss: seq<Stmt>)
    requires ss != [] && ss[0].IsTerminator()
    ensures NoExitIn(ss) ==> ss[0].Continue?
  {
    assert NoExitIn(ss) ==> NoExit(ss[0]);
  }

  lemma ForBodyTerminator(s: Stmt, i: DeclId, K: set<DeclId>, steps: seq<Step>, step: Step, fuel: nat, f: Frame,
                          st: State, st': State)
    requires s.IsTerminator() && InForBody(s, i, K) && OnlyLast(steps, step) && StepOfLoop(step, i, K)
    requires Agree(st, st', K - {i}) && (CallFree(step.value) || s.Continue?)
    ensures StepRan(Exec(s, fuel, f, st), Emitted(s, steps, fuel, f, TakeSteps(steps, f, st')), step, i, K, f)
  {
    hide Agree, SetTo, Eval;
    LastStepTaken(steps, step, f, st');
    StepAgrees(step, i, K, f, st, st');
    if s.Return? && s.result.Some? {
      ReturnAgrees(s.result.value, K, f, st, TakeStep(step, f, st'));
    }
  }

  lemma ReturnAgrees(e: Expr, K: set<DeclId>, f: Frame, st: State, st': State)
    requires Avoids(e, K) && Agree(st, st', K)
    ensures var r, r' := ReturnWith(Some(e), f, st), ReturnWith(Some(e), f, st'); r.0 == r'.0 && Agree(r.1, r'.1, K)
  {
    EvalOff(e, K, f, st.env, st'.env, st.trace);
  }

  lemma {:induction false} ForBodyBlock(ss: seq<Stmt>, i: DeclId, K: set<DeclId>, steps: seq<Step>, step: Step,
                                        fuel: nat, f: Frame, st: State, st': State)
    requires ss != [] && AllInForBody(ss, i, K) && OnlyLast(steps, step) && StepOfLoop(step, i, K)
    requires Agree(st, st', K - {i}) && Harmless(step, ss)
    ensures StepRan(ExecBlock(ss, fuel, f, st), EmittedBlock(ss, steps, fuel, f, st'), step, i, K, f)
    decreases ss
  {
    hide TakeSteps, Agree, SetTo, Eval;
    if ss[0].IsTerminator() {
      NoExitHead(ss);
      ForBodyTerminator(ss[0], i, K, steps, step, fuel, f, st, st');
    } else {
      ForBodyStmt(ss[0], i, K, steps, step, fuel, f, st, st');
      var (o, st1) := Exec(ss[0], fuel, f, st);
      if o == Normal {
        var st1' := Emitted(ss[0], steps, fuel, f, st').1;
        if |ss| == 1 {
          LastStepTaken(steps, step, f, st1');
          StepAgrees(step, i, K, f, st1, st1');
          assert ss[1..] == [];
        } else {
          ForBodyBlock(ss[1..], i, K, steps, step, fuel, f, st1, st1');
        }
      }
    }
  }

  // ----- desugaring stays in the fragment -----

  lemma {:induction false} DesugaredNeverCompletes(ss: seq<Stmt>)
    requires NeverCompletes(ss)
    ensures NeverCompletes(DesugarAll(ss))
    decreases ss
  {
    assert DesugarAll(ss)[1..] == DesugarAll(ss[1..]);
    if Escapes(ss[0]) {
      if ss[0].If? {
        DesugaredNeverCompletes(ss[0].thn);
        DesugaredNeverCompletes(ss[0].els);
      } else if ss[0].Nested? {
        DesugaredNeverCompletes(ss[0].body);
      }
    } else {
      DesugaredNeverCompletes(ss[1..]);
    }
  }

  lemma {:induction false} DesugaredInForBody(ss: seq<Stmt>, i: DeclId, K: set<DeclId>)
    requires AllInForBody(ss, i, K)
    ensures AllInForBody(DesugarAll(ss), i, K)
    decreases ss, 0
  {
    if ss != [] {
      if ss[0].If? {
        DesugaredBranch(ss[0].thn, i, K);
        DesugaredBranch(ss[0].els, i, K);
      } else if ss[0].Nested? {
        DesugaredBranch(ss[0].body, i, K);
      }
      DesugaredInForBody(ss[1..], i, K);
      assert DesugarAll(ss)[1..] == DesugarAll(ss[1..]);
    }
  }

  lemma {:induction false} DesugaredBranch(ss: seq<Stmt>, i: DeclId, K: set<DeclId>)
    requires ss == [] || (NeverCompletes(ss) && AllInForBody(ss, i, K))
    ensures var t := DesugarAll(ss); t == [] || (NeverCompletes(t) && AllInForBody(t, i, K))
    decreases ss, 1
  {
    if ss != [] {
      DesugaredNeverCompletes(ss);
      DesugaredInForBody(ss, i, K);
    }
  }

  lemma {:induction false} DesugaredNoExit(ss: seq<Stmt>)
    requires NoExitIn(ss)
    ensures NoExitIn(DesugarAll(ss))
    decreases ss
  {
    if ss != [] {
      if ss[0].If? {
        DesugaredNoExit(ss[0].thn);
        DesugaredNoExit(ss[0].els);
      } else if ss[0].Nested? {
        DesugaredNoExit(ss[0].body);
      }
      DesugaredNoExit(ss[1..]);
      assert DesugarAll(ss)[1..] == DesugarAll(ss[1..]);
    }
  }

  // ----- for loops -----

  /** The step desugaring gives a for loop. */
  function StepFor(s: Stmt): Step
    requires s.For?
  {
    Step(s.counter, NextExpr(s.counter, s.ty, s.cmp, OrLiteral(s.step, 1)))
  }

  function WhileFor(s: Stmt): Stmt
    requires s.For?
  {
    While(TestExpr(s.counter, s.ty, s.cmp, s.end), DesugarAll(s.body), StepFor(s))
  }

  /** Test and step read the counter, and what end and step read. */
  lemma HeadReads(s: Stmt, K: set<DeclId>)
    requires s.For?
    ensures Avoids(Local(s.counter), K) ==> (Avoids(WhileFor(s).cond, K) <==> Avoids(s.end, K))
    ensures Avoids(Local(s.counter), K) ==> (Avoids(StepFor(s).value, K) <==> Avoids(OrLiteral(s.step, 1), K))
    ensures CallFree(StepFor(s).value) <==> CallFree(OrLiteral(s.step, 1))
  {
    ConvertedReads(s.ty.counter, s.ty.test, Local(s.counter), K);
    ConvertedReads(s.ty.counter, s.ty.next, Local(s.counter), K);
    var y := Converted(s.ty.counter, s.ty.next, Local(s.counter));
    ConvertedReads(s.ty.next, s.ty.counter, Binary(Advance(s.cmp), s.ty.next, y, OrLiteral(s.step, 1)), K);
    assert CallFree(Local(s.counter));
  }

  lemma ConvertedReads(from: IntType, to: IntType, e: Expr, K: set<DeclId>)
    ensures Avoids(Converted(from, to, e), K) <==> Avoids(e, K)
    ensures CallFree(Converted(from, to, e)) <==> CallFree(e)
  {}

  lemma {:induction false} ForRoundsAgree(s: Stmt, K: set<DeclId>, pads: seq<Step>, fuel: nat, f: Frame, st: State,
                                          st': State)
    requires s.For? && Supported(s, K) && NoSteps(pads) && Agree(st, st', K - {s.counter})
    ensures var r := Rounds(s, fuel, f, st);
            var r' := Emitted(WhileFor(s), pads, fuel, f, st');
            r.0 == r'.0 && Agree(r.1, r'.1, K)
    decreases fuel
  {
    hide Get, InForBody, Meaning, Pow2, ReturnWith, SetTo, Signed, TakeSteps, Unsigned, WhileForm, Convert, Converted,
      Eval, ExecBlock, MovesBy;
    if fuel > 0 {
      var i, w, step := s.counter, WhileFor(s), StepFor(s);
      WhileFormTest(s, f, st);
      HeadReads(s, K - {i});
      EvalOff(w.cond, K - {i}, f, st.env, st'.env, st.trace);
      var (v, tr) := Eval(w.cond, f, st.env, st.trace);
      if Truth(v) {
        ForRoundAgrees(s, K, pads + [step], fuel - 1, f, st.(trace := tr), st'.(trace := tr));
        var (o, st1) := ExecBlock(s.body, fuel - 1, f, st.(trace := tr));
        if o == Normal || o == Continued {
          WhileFormStep(i, s.ty, s.cmp, OrLiteral(s.step, 1), f, st1);
          DefaultsAreMeant(i, s.begin, s.step, f, st1);
          ForRoundsAgree(s, K, pads, fuel - 1, f, TakeStep(step, f, st1),
                         EmittedBlock(w.body, pads + [step], fuel - 1, f, st'.(trace := tr)).1);
        }
      }
    }
  }

  lemma {:induction false} ForRoundAgrees(s: Stmt, K: set<DeclId>, steps: seq<Step>, fuel: nat, f: Frame, st: State,
                                          st': State)
    requires s.For? && Supported(s, K) && OnlyLast(steps, StepFor(s)) && Agree(st, st', K - {s.counter})
    ensures StepRan(ExecBlock(s.body, fuel, f, st), EmittedBlock(DesugarAll(s.body), steps, fuel, f, st'),
                    StepFor(s), s.counter, K, f)
  {
    DesugaredInForBody(s.body, s.counter, K);
    DesugarAllKeepsMeaning(s.body, fuel, f, st);
    assert Avoids(OrLiteral(s.step, 1), K - {s.counter}) && Avoids(Local(s.counter), K - {s.counter});
    HeadReads(s, K - {s.counter});
    if s.step.Some? && !CallFree(s.step.value) {
      DesugaredNoExit(s.body);
    }
    ForBodyBlock(DesugarAll(s.body), s.counter, K, steps, StepFor(s), fuel, f, st, st');
  }

  lemma {:induction false} ForAgrees(s: Stmt, K: set<DeclId>, pads: seq<Step>, fuel: nat, f: Frame, st: State,
                                     st': State)
    requires s.For? && Supported(s, K) && NoSteps(pads) && Agree(st, st', K)
    ensures var r := Exec(s, fuel, f, st); var r' := Emitted(Desugar(s), pads, fuel, f, st');
            r.0 == r'.0 && Agree(r.1, r'.1, K)
  {
    DesugaredFor(s);
    var e := OrLiteral(s.begin, 0);
    SetToAgrees(s.counter, e, K, f, st, st');
    ForRoundsAgree(s, K, pads, fuel, f, SetTo(s.counter, e, f, st), SetTo(s.counter, e, f, st'));
    EmittedPair(s.counter, e, WhileFor(s), pads, fuel, f, st');
  }

  lemma EmittedPair(d: DeclId, e: Expr, w: Stmt, pads: seq<Step>, fuel: nat, f: Frame, st: State)
    requires NoSteps(pads) && w.While?
    ensures EmittedBlock([Declare(d, e), w], pads, fuel, f, st) == Emitted(w, pads, fuel, f, SetTo(d, e, f, st))
  {
    assert [Declare(d, e), w][1..] == [w];
    NoStepsTaken(pads, f, Emitted(w, pads, fuel, f, SetTo(d, e, f, st)).1);
  }

  // ----- whole programs -----

  /** On supported statements the emitted meaning of the desugared tree is the intended
      meaning of the original, but for the counters. */
  lemma {:induction false} SupportedAgrees(s: Stmt, K: set<DeclId>, pads: seq<Step>, fuel: nat, f: Frame, st: State,
                                           st': State)
    requires Supported(s, K) && NoSteps(pads) && Agree(st, st', K)
    ensures var r := Exec(s, fuel, f, st); var r' := Emitted(Desugar(s), pads, fuel, f, st');
            r.0 == r'.0 && Agree(r.1, r'.1, K)
    decreases fuel, s, 1
  {
    hide AllSupported, BoolWord, Compare, Decode, DesugarAll, EmittedBlock, Eval, ExecBlock;
    match s
    case Declare(d, e) => SetToAgrees(d, e, K, f, st, st');
    case Assign(d, e) => SetToAgrees(d, e, K, f, st, st');
    case Evaluate(e) => EvalOff(e, K, f, st.env, st'.env, st.trace);
    case Nested(body) => AllSupportedAgree(body, K, pads, fuel, f, st, st');
    case If(c, t, e) =>
      EvalOff(c, K, f, st.env, st'.env, st.trace);
      var (v, tr) := Eval(c, f, st.env, st.trace);
      AllSupportedAgree(if Truth(v) then t else e, K, pads, fuel, f, st.(trace := tr), st'.(trace := tr));
    case While(c, body, _) =>
      if fuel > 0 {
        EvalOff(c, K, f, st.env, st'.env, st.trace);
        var (v, tr) := Eval(c, f, st.env, st.trace);
        AllSupportedAgree(body, K, pads + [NoStep], fuel - 1, f, st.(trace := tr), st'.(trace := tr));
        SupportedAgrees(s, K, pads, fuel - 1, f, ExecBlock(body, fuel - 1, f, st.(trace := tr)).1,
                        EmittedBlock(DesugarAll(body), pads + [NoStep], fuel - 1, f, st'.(trace := tr)).1);
      }
    case For(_, _, _, _, _, _, _) => ForAgrees(s, K, pads, fuel, f, st, st');
    case Return(v) => if v.Some? { EvalOff(v.value, K, f, st.env, st'.env, st.trace); }
    case _ =>
  }

  lemma {:induction false} AllSupportedAgree(ss: seq<Stmt>, K: set<DeclId>, pads: seq<Step>, fuel: nat, f: Frame,
                                             st: State, st': State)
    requires AllSupported(ss, K) && NoSteps(pads) && Agree(st, st', K)
    ensures var r := ExecBlock(ss, fuel, f, st); var r' := EmittedBlock(DesugarAll(ss), pads, fuel, f, st');
            r.0 == r'.0 && Agree(r.1, r'.1, K)
    decreases fuel, ss
  {
    if ss != [] {
      NoStepsTaken(pads, f, st');
      SupportedAgrees(ss[0], K, pads, fuel, f, st, st');
      assert DesugarAll(ss)[1..] == DesugarAll(ss[1..]);
      assert Desugar(ss[0]).IsTerminator() <==> ss[0].IsTerminator();
      var (o, st1) := Exec(ss[0], fuel, f, st);
      if o == Normal {
        var st1' := Emitted(Desugar(ss[0]), pads, fuel, f, st').1;
        NoStepsTaken(pads, f, st1');
        AllSupportedAgree(ss[1..], K, pads, fuel, f, st1, st1');
      }
    }
  }
}
