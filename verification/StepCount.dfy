// How often the step of a for loop runs. Every non-empty block that ends, nested ones and the
// rounds of inner loops included, runs the steps of all enclosing loops once.
module StepCount {
  import opened Words
  import opened Tree
  import opened Source
  import opened Desugaring
  import opened ForLoops
  import opened ForRange

  // ----- counting -----

  /** The times the enclosing loops' steps run while a statement runs. */
  function Emissions(s: Stmt, steps: seq<Step>, fuel: nat, f: Frame, st: State): nat
    decreases fuel, s
  {
    match s
    case Nested(body) => EmissionsIn(body, steps, fuel, f, st)
    case If(c, t, e) =>
      var (v, tr) := Eval(c, f, st.env, st.trace);
      EmissionsIn(if Truth(v) then t else e, steps, fuel, f, st.(trace := tr))
    case While(c, body, step) =>
      if fuel == 0 then 0 else
      var (v, tr) := Eval(c, f, st.env, st.trace);
      if !Truth(v) then 0 else
      var st1 := st.(trace := tr);
      var (o, st2) := EmittedBlock(body, steps + [step], fuel - 1, f, st1);
      EmissionsIn(body, steps + [step], fuel - 1, f, st1)
      + if o == Normal || o == Continued then Emissions(s, steps, fuel - 1, f, st2) else 0
    case _ => 0
  }

  /** The same for a block: once before its terminator or at its end. */
  function EmissionsIn(ss: seq<Stmt>, steps: seq<Step>, fuel: nat, f: Frame, st: State): nat
    decreases fuel, ss
  {
    if ss == [] then 0
    else if ss[0].IsTerminator() then 1
    else
      var (o, st1) := Emitted(ss[0], steps, fuel, f, st);
      Emissions(ss[0], steps, fuel, f, st)
      + if o != Normal then 0 else if |ss| == 1 then 1 else EmissionsIn(ss[1..], steps, fuel, f, st1)
  }

  // ----- statements that leave a counter alone -----

  ghost predicate StepIgnores(step: Step, i: DeclId)
  {
    step.Step? ==> step.decl != i && Avoids(step.value, {i})
  }

  ghost predicate StepsIgnore(steps: seq<Step>, i: DeclId)
  {
    forall k :: 0 <= k < |steps| ==> StepIgnores(steps[k], i)
  }

  /** A desugared statement neither reads nor assigns local i. */
  ghost predicate Ignores(s: Stmt, i: DeclId)
  {
    match s
    case Declare(d, e) => d != i && Avoids(e, {i})
    case Assign(d, e) => d != i && Avoids(e, {i})
    case Evaluate(e) => Avoids(e, {i})
    case Nested(body) => IgnoresIn(body, i)
    case ErrorBlock(_) => true
    case If(c, t, e) => Avoids(c, {i}) && IgnoresIn(t, i) && IgnoresIn(e, i)
    case While(c, body, step) => Avoids(c, {i}) && IgnoresIn(body, i) && StepIgnores(step, i)
    case For(_, _, _, _, _, _, _) => false
    case Break => true
    case Continue => true
    case Return(v) => AvoidsIn(v, {i})
  }

  ghost predicate IgnoresIn(ss: seq<Stmt>, i: DeclId)
  {
    ss == [] || (Ignores(ss[0], i) && IgnoresIn(ss[1..], i))
  }

  // ----- a counter's step -----

  /** How a counter moves: its direction, its types, and a fixed amount. */
  datatype Motion = Motion(cmp: BinOp, ty: CounterTypes, step: Expr)

  function OneOn(m: Motion, x: int, f: Frame): int
  {
    NextWord(m.cmp, m.ty, x, Amount(m.step, f), f.world.undef)
  }

  /** A counter's word after n steps. */
  function Shifted(m: Motion, n: nat, x: int, f: Frame): int
  {
    if n == 0 then x else Shifted(m, n - 1, OneOn(m, x, f), f)
  }

  lemma {:induction false} ShiftedAdds(m: Motion, j: nat, k: nat, x: int, f: Frame)
    ensures Shifted(m, j + k, x, f) == Shifted(m, k, Shifted(m, j, x, f), f)
    decreases j
  {
    hide OneOn;
    if j > 0 {
      ShiftedAdds(m, j - 1, k, OneOn(m, x, f), f);
    }
  }

  lemma ShiftedOnce(m: Motion, x: int, f: Frame)
    ensures Shifted(m, 1, x, f) == OneOn(m, x, f)
  {
    hide OneOn;
    assert Shifted(m, 0, OneOn(m, x, f), f) == OneOn(m, x, f);
  }

  /** The step of a counter i that moves as m says. */
  ghost predicate Moves(step: Step, i: DeclId, m: Motion)
  {
    step == Step(i, NextExpr(i, m.ty, m.cmp, m.step)) && Fixed(m.step)
  }

  lemma {:induction false} MovesCounter(step: Step, i: DeclId, m: Motion, f: Frame, st: State)
    requires Moves(step, i, m)
    ensures TakeStep(step, f, st) == st.(env := st.env[i := Shifted(m, 1, Get(st.env, i), f)])
  {
    hide NextWord;
    FixedIsFixed(m.step, f, st.env, st.trace);
    WhileFormStep(i, m.ty, m.cmp, m.step, f, st);
    ShiftedOnce(m, Get(st.env, i), f);
  }

  // ----- with and without the step -----

  /** st' is st, except that counter i has moved n times from x. */
  ghost predicate Ahead(st: State, st': State, i: DeclId, m: Motion, n: nat, x: int, f: Frame)
  {
    Agree(st, st', {i}) && Get(st'.env, i) == Shifted(m, n, x, f)
  }

  lemma AheadByMore(st: State, st': State, i: DeclId, m: Motion, n: nat, k: nat, x: int, y: int, f: Frame)
    requires Ahead(st, st', i, m, k, y, f) && y == Shifted(m, n, x, f)
    ensures Ahead(st, st', i, m, n + k, x, f)
  {
    ShiftedAdds(m, n, k, x, f);
  }

  lemma {:induction false} IgnoringStep(step: Step, i: DeclId, f: Frame, st: State, st': State)
    requires StepIgnores(step, i) && Agree(st, st', {i})
    ensures Agree(TakeStep(step, f, st), TakeStep(step, f, st'), {i})
    ensures Get(TakeStep(step, f, st').env, i) == Get(st'.env, i)
  {
    if step.Step? {
      SetToAgrees(step.decl, step.value, {i}, f, st, st');
    }
  }

  /** The pending steps, among them that of counter i: it moves once. */
  lemma {:induction false} PendingSteps(pre: seq<Step>, step: Step, post: seq<Step>, i: DeclId, m: Motion, f: Frame,
                                        st: State, st': State)
    requires StepsIgnore(pre, i) && StepsIgnore(post, i) && Moves(step, i, m) && Agree(st, st', {i})
    ensures Ahead(TakeSteps(pre + [NoStep] + post, f, st), TakeSteps(pre + [step] + post, f, st'), i, m, 1,
                  Get(st'.env, i), f)
    decreases pre
  {
    hide Shifted;
    if pre == [] {
      assert pre + [NoStep] + post == [NoStep] + post && ([NoStep] + post)[1..] == post;
      assert pre + [step] + post == [step] + post && ([step] + post)[1..] == post;
      MovesCounter(step, i, m, f, st');
      IgnoringSteps(post, i, f, st, TakeStep(step, f, st'));
    } else {
      assert (pre + [NoStep] + post)[1..] == pre[1..] + [NoStep] + post;
      assert (pre + [step] + post)[1..] == pre[1..] + [step] + post;
      IgnoringStep(pre[0], i, f, st, st');
      PendingSteps(pre[1..], step, post, i, m, f, TakeStep(pre[0], f, st), TakeStep(pre[0], f, st'));
    }
  }

  lemma {:induction false} IgnoringSteps(steps: seq<Step>, i: DeclId, f: Frame, st: State, st': State)
    requires StepsIgnore(steps, i) && Agree(st, st', {i})
    ensures Agree(TakeSteps(steps, f, st), TakeSteps(steps, f, st'), {i})
    ensures Get(TakeSteps(steps, f, st').env, i) == Get(st'.env, i)
    decreases steps
  {
    if steps != [] {
      IgnoringStep(steps[0], i, f, st, st');
      IgnoringSteps(steps[1..], i, f, TakeStep(steps[0], f, st), TakeStep(steps[0], f, st'));
    }
  }

  /** Emitted with and without the step of counter i: the same outcome, the same calls, the
      same other locals, and the counter has moved n times. */
  ghost predicate StepsTaken(r: (Outcome, State), r': (Outcome, State), i: DeclId, m: Motion, n: nat, x: int, f: Frame)
  {
    r.0 == r'.0 && Ahead(r.1, r'.1, i, m, n, x, f)
  }

  lemma {:induction false} StatementSteps(s: Stmt, pre: seq<Step>, step: Step, post: seq<Step>, i: DeclId, m: Motion,
                                          fuel: nat, f: Frame, st: State, st': State)
    requires Ignores(s, i) && StepsIgnore(pre, i) && StepsIgnore(post, i) && Moves(step, i, m) && Agree(st, st', {i})
    ensures var quiet := pre + [NoStep] + post;
            StepsTaken(Emitted(s, quiet, fuel, f, st), Emitted(s, pre + [step] + post, fuel, f, st'),
                       i, m, Emissions(s, quiet, fuel, f, st), Get(st'.env, i), f)
    decreases fuel, s, 1
  {
    match s
    case Declare(d, e) => SetToAgrees(d, e, {i}, f, st, st');
    case Assign(d, e) => SetToAgrees(d, e, {i}, f, st, st');
    case Evaluate(e) => EvalOff(e, {i}, f, st.env, st'.env, st.trace);
    case Nested(body) => BlockSteps(body, pre, step, post, i, m, fuel, f, st, st');
    case If(c, t, e) =>
      EvalOff(c, {i}, f, st.env, st'.env, st.trace);
      var (v, tr) := Eval(c, f, st.env, st.trace);
      BlockSteps(if Truth(v) then t else e, pre, step, post, i, m, fuel, f, st.(trace := tr), st'.(trace := tr));
    case While(_, _, _) => RoundSteps(s, pre, step, post, i, m, fuel, f, st, st');
    case Return(v) => if v.Some? { EvalOff(v.value, {i}, f, st.env, st'.env, st.trace); }
    case _ =>
  }

  lemma {:induction false} RoundSteps(s: Stmt, pre: seq<Step>, step: Step, post: seq<Step>, i: DeclId, m: Motion,
                                      fuel: nat, f: Frame, st: State, st': State)
    requires s.While? && Ignores(s, i) && StepsIgnore(pre, i) && StepsIgnore(post, i) && Moves(step, i, m)
    requires Agree(st, st', {i})
    ensures var quiet := pre + [NoStep] + post;
            StepsTaken(Emitted(s, quiet, fuel, f, st), Emitted(s, pre + [step] + post, fuel, f, st'),
                       i, m, Emissions(s, quiet, fuel, f, st), Get(st'.env, i), f)
    decreases fuel, s, 0
  {
    hide IgnoresIn, Meaning, Pow2, SetTo, Signed, StepIgnores, TakeStep, Eval;
    var quiet := pre + [NoStep] + post;
    if fuel > 0 {
      EvalOff(s.cond, {i}, f, st.env, st'.env, st.trace);
      var (v, tr) := Eval(s.cond, f, st.env, st.trace);
      if Truth(v) {
        var st1, st1' := st.(trace := tr), st'.(trace := tr);
        var inner := post + [s.prologue];
        assert quiet + [s.prologue] == pre + [NoStep] + inner;
        assert pre + [step] + post + [s.prologue] == pre + [step] + inner;
        BlockSteps(s.body, pre, step, inner, i, m, fuel - 1, f, st1, st1');
        var (o, st2) := EmittedBlock(s.body, pre + [NoStep] + inner, fuel - 1, f, st1);
        if o == Normal || o == Continued {
          var st2' := EmittedBlock(s.body, pre + [step] + inner, fuel - 1, f, st1').1;
          RoundSteps(s, pre, step, post, i, m, fuel - 1, f, st2, st2');
          AheadByMore(Emitted(s, quiet, fuel - 1, f, st2).1, Emitted(s, pre + [step] + post, fuel - 1, f, st2').1, i, m,
                      EmissionsIn(s.body, pre + [NoStep] + inner, fuel - 1, f, st1),
                      Emissions(s, quiet, fuel - 1, f, st2), Get(st'.env, i), Get(st2'.env, i), f);
        }
      }
    }
  }

  lemma {:induction false} BlockSteps(ss: seq<Stmt>, pre: seq<Step>, step: Step, post: seq<Step>, i: DeclId, m: Motion,
                                      fuel: nat, f: Frame, st: State, st': State)
    requires IgnoresIn(ss, i) && StepsIgnore(pre, i) && StepsIgnore(post, i) && Moves(step, i, m) &&
             Agree(st, st', {i})
    ensures var quiet := pre + [NoStep] + post;
            StepsTaken(EmittedBlock(ss, quiet, fuel, f, st), EmittedBlock(ss, pre + [step] + post, fuel, f, st'),
                       i, m, EmissionsIn(ss, quiet, fuel, f, st), Get(st'.env, i), f)
    decreases fuel, ss, 0
  {
    hide Moves, StepsIgnore, Unsigned;
    var quiet, loud := pre + [NoStep] + post, pre + [step] + post;
    if ss != [] {
      if ss[0].IsTerminator() {
        PendingSteps(pre, step, post, i, m, f, st, st');
        var x := TakeSteps(quiet, f, st);
        var x' := TakeSteps(loud, f, st');
        StatementSteps(ss[0], pre, step, post, i, m, fuel, f, x, x');
      } else {
        StatementSteps(ss[0], pre, step, post, i, m, fuel, f, st, st');
        var (o, st1) := Emitted(ss[0], quiet, fuel, f, st);
        var st1' := Emitted(ss[0], loud, fuel, f, st').1;
        var n := Emissions(ss[0], quiet, fuel, f, st);
        if o == Normal {
          if |ss| == 1 {
            PendingSteps(pre, step, post, i, m, f, st1, st1');
            AheadByMore(TakeSteps(quiet, f, st1), TakeSteps(loud, f, st1'), i, m, n, 1, Get(st'.env, i),
                        Get(st1'.env, i), f);
          } else {
            BlockSteps(ss[1..], pre, step, post, i, m, fuel, f, st1, st1');
            AheadByMore(EmittedBlock(ss[1..], quiet, fuel, f, st1).1, EmittedBlock(ss[1..], loud, fuel, f, st1').1, i,
                        m, n, EmissionsIn(ss[1..], quiet, fuel, f, st1), Get(st'.env, i), Get(st1'.env, i), f);
          }
        }
      }
    }
  }
}
