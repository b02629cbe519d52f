// Rounds of a for loop whose body uses the counter only until the step has run for the first
// time: with and without the step they do the same, but for the counter.
module FirstEmission {
  import opened Tree
  import opened Source
  import opened ForLoops
  import opened StepCount

  /** The block completes, if it does, without having taken a step. */
  predicate Quiet(ss: seq<Stmt>) { ss == [] || NeverCompletes(ss) }

  predicate Silent(s: Stmt)
  {
    match s
    case Nested(body) => Quiet(body)
    case If(_, t, e) => Quiet(t) && Quiet(e)
    case While(_, _, _) => false
    case _ => true
  }

  /** A desugared statement uses local i in any way until the first step of the round, and
      not at all from then on. A return takes the step before its value is computed. */
  ghost predicate Early(s: Stmt, i: DeclId)
  {
    match s
    case Nested(body) => EarlyIn(body, i)
    case If(_, t, e) => EarlyIn(t, i) && EarlyIn(e, i)
    case While(_, _, _) => Ignores(s, i)
    case For(_, _, _, _, _, _, _) => false
    case Return(v) => AvoidsIn(v, {i})
    case _ => true
  }

  ghost predicate EarlyIn(ss: seq<Stmt>, i: DeclId)
  {
    ss == [] ||
    (&& Early(ss[0], i)
     && (ss[0].IsTerminator() || if Silent(ss[0]) then EarlyIn(ss[1..], i) else IgnoresIn(ss[1..], i)))
  }

  // ----- blocks without the step -----

  lemma {:induction false} NeverCompletesEmitted(ss: seq<Stmt>, steps: seq<Step>, fuel: nat, f: Frame, st: State)
    requires NeverCompletes(ss)
    ensures EmittedBlock(ss, steps, fuel, f, st).0 != Normal
    decreases ss
  {
    if Escapes(ss[0]) && ss[0].If? {
      var (v, tr) := Eval(ss[0].cond, f, st.env, st.trace);
      NeverCompletesEmitted(if Truth(v) then ss[0].thn else ss[0].els, steps, fuel, f, st.(trace := tr));
    } else if Escapes(ss[0]) && ss[0].Nested? {
      NeverCompletesEmitted(ss[0].body, steps, fuel, f, st);
    } else if !Escapes(ss[0]) {
      NeverCompletesEmitted(ss[1..], steps, fuel, f, Emitted(ss[0], steps, fuel, f, st).1);
    }
  }

  lemma {:induction false} StepsKeep(steps: seq<Step>, i: DeclId, f: Frame, st: State)
    requires StepsIgnore(steps, i)
    ensures Get(TakeSteps(steps, f, st).env, i) == Get(st.env, i)
    decreases steps
  {
    if steps != [] {
      StepsKeep(steps[1..], i, f, TakeStep(steps[0], f, st));
    }
  }

  lemma {:induction false} EmittedKeeps(s: Stmt, steps: seq<Step>, i: DeclId, fuel: nat, f: Frame, st: State)
    requires Ignores(s, i) && StepsIgnore(steps, i)
    ensures Get(Emitted(s, steps, fuel, f, st).1.env, i) == Get(st.env, i)
    decreases fuel, s, 1
  {
    match s
    case Nested(body) => BlockKeeps(body, steps, i, fuel, f, st);
    case If(c, t, e) =>
      var (v, tr) := Eval(c, f, st.env, st.trace);
      BlockKeeps(if Truth(v) then t else e, steps, i, fuel, f, st.(trace := tr));
    case While(c, body, step) =>
      if fuel > 0 {
        var (v, tr) := Eval(c, f, st.env, st.trace);
        BlockKeeps(body, steps + [step], i, fuel - 1, f, st.(trace := tr));
        EmittedKeeps(s, steps, i, fuel - 1, f, EmittedBlock(body, steps + [step], fuel - 1, f, st.(trace := tr)).1);
      }
    case _ =>
  }

  lemma {:induction false} BlockKeeps(ss: seq<Stmt>, steps: seq<Step>, i: DeclId, fuel: nat, f: Frame, st: State)
    requires IgnoresIn(ss, i) && StepsIgnore(steps, i)
    ensures Get(EmittedBlock(ss, steps, fuel, f, st).1.env, i) == Get(st.env, i)
    decreases fuel, ss, 0
  {
    if ss != [] {
      if ss[0].IsTerminator() {
        StepsKeep(steps, i, f, st);
        EmittedKeeps(ss[0], steps, i, fuel, f, TakeSteps(steps, f, st));
      } else {
        EmittedKeeps(ss[0], steps, i, fuel, f, st);
        var st1 := Emitted(ss[0], steps, fuel, f, st).1;
        if |ss| == 1 {
          StepsKeep(steps, i, f, st1);
        } else {
          BlockKeeps(ss[1..], steps, i, fuel, f, st1);
        }
      }
    }
  }

  // ----- with and without the step -----

  /** The two states are the same, but the counter of the second has moved n times more. */
  ghost predicate Further(st: State, st': State, i: DeclId, m: Motion, n: nat, f: Frame)
  {
    Agree(st, st', {i}) && Get(st'.env, i) == Shifted(m, n, Get(st.env, i), f)
  }

  lemma FurtherItself(st: State, i: DeclId, m: Motion, f: Frame)
    ensures Further(st, st, i, m, 0, f)
  {}

  lemma FurtherByMore(st: State, st': State, i: DeclId, m: Motion, n: nat, k: nat, x: int, x': int, f: Frame)
    requires Ahead(st, st', i, m, k, x', f) && x' == Shifted(m, n, x, f) && Get(st.env, i) == x
    ensures Further(st, st', i, m, n + k, f)
  {
    ShiftedAdds(m, n, k, x, f);
  }

  lemma QuietIgnores(pre: seq<Step>, post: seq<Step>, i: DeclId)
    requires StepsIgnore(pre, i) && StepsIgnore(post, i)
    ensures StepsIgnore(pre + [NoStep] + post, i)
  {}

  /** A statement from one state. */
  lemma {:induction false} EarlyStatement(s: Stmt, pre: seq<Step>, step: Step, post: seq<Step>, i: DeclId, m: Motion,
                                          fuel: nat, f: Frame, st: State)
    requires Early(s, i) && !s.IsTerminator() && StepsIgnore(pre, i) && StepsIgnore(post, i) && Moves(step, i, m)
    ensures var quiet := pre + [NoStep] + post;
            var (o, st1) := Emitted(s, quiet, fuel, f, st);
            var (o', st1') := Emitted(s, pre + [step] + post, fuel, f, st);
            && o == o' && Further(st1, st1', i, m, Emissions(s, quiet, fuel, f, st), f)
            && (Silent(s) && o == Normal ==> Emissions(s, quiet, fuel, f, st) == 0 && st1 == st1')
    decreases s, 1
  {
    var quiet := pre + [NoStep] + post;
    match s
    case Nested(body) =>
      EarlyBlock(body, pre, step, post, i, m, fuel, f, st);
      QuietBlock(body, quiet, fuel, f, st);
    case If(c, t, e) =>
      var (v, tr) := Eval(c, f, st.env, st.trace);
      var branch := if Truth(v) then t else e;
      EarlyBlock(branch, pre, step, post, i, m, fuel, f, st.(trace := tr));
      QuietBlock(branch, quiet, fuel, f, st.(trace := tr));
    case While(_, _, _) =>
      StatementSteps(s, pre, step, post, i, m, fuel, f, st, st);
      QuietIgnores(pre, post, i);
      EmittedKeeps(s, quiet, i, fuel, f, st);
    case _ =>
  }

  lemma QuietBlock(ss: seq<Stmt>, steps: seq<Step>, fuel: nat, f: Frame, st: State)
    ensures Quiet(ss) && EmittedBlock(ss, steps, fuel, f, st).0 == Normal ==> ss == []
  {
    if NeverCompletes(ss) {
      NeverCompletesEmitted(ss, steps, fuel, f, st);
    }
  }

  /** A block from one state: with the step it ends as without it, with the same calls and
      other locals, and the counter has moved once more for every emission. */
  lemma {:induction false} EarlyBlock(ss: seq<Stmt>, pre: seq<Step>, step: Step, post: seq<Step>, i: DeclId, m: Motion,
                                      fuel: nat, f: Frame, st: State)
    requires EarlyIn(ss, i) && StepsIgnore(pre, i) && StepsIgnore(post, i) && Moves(step, i, m)
    ensures var quiet := pre + [NoStep] + post;
            var (o, st1) := EmittedBlock(ss, quiet, fuel, f, st);
            var (o', st1') := EmittedBlock(ss, pre + [step] + post, fuel, f, st);
            o == o' && Further(st1, st1', i, m, EmissionsIn(ss, quiet, fuel, f, st), f)
    decreases ss, 0
  {
    hide Moves, StepsIgnore, Agree, Ignores, Emitted, Emissions, TakeSteps;
    var quiet, loud := pre + [NoStep] + post, pre + [step] + post;
    QuietIgnores(pre, post, i);
    if ss == [] {
      FurtherItself(st, i, m, f);
    } else {
      if ss[0].IsTerminator() {
        EarlyTerminator(ss[0], pre, step, post, i, m, fuel, f, st);
      } else {
        EarlyStatement(ss[0], pre, step, post, i, m, fuel, f, st);
        var (o, st1) := Emitted(ss[0], quiet, fuel, f, st);
        var st1' := Emitted(ss[0], loud, fuel, f, st).1;
        var n := Emissions(ss[0], quiet, fuel, f, st);
        if o == Normal {
          if |ss| == 1 {
            PendingSteps(pre, step, post, i, m, f, st1, st1');
            StepsKeep(quiet, i, f, st1);
            FurtherByMore(TakeSteps(quiet, f, st1), TakeSteps(loud, f, st1'), i, m, n, 1, Get(st1.env, i),
                          Get(st1'.env, i), f);
          } else if Silent(ss[0]) {
            EarlyBlock(ss[1..], pre, step, post, i, m, fuel, f, st1);
          } else {
            LateBlock(ss[1..], pre, step, post, i, m, n, fuel, f, st1, st1');
          }
        }
      }
    }
  }

  lemma {:induction false} EarlyTerminator(s: Stmt, pre: seq<Step>, step: Step, post: seq<Step>, i: DeclId, m: Motion,
                                           fuel: nat, f: Frame, st: State)
    requires s.IsTerminator() && Early(s, i) && StepsIgnore(pre, i) && StepsIgnore(post, i) && Moves(step, i, m)
    ensures var (o, st1) := Emitted(s, pre + [NoStep] + post, fuel, f, TakeSteps(pre + [NoStep] + post, f, st));
            var (o', st1') := Emitted(s, pre + [step] + post, fuel, f, TakeSteps(pre + [step] + post, f, st));
            o == o' && Further(st1, st1', i, m, 1, f)
  {
    hide Moves, StepsIgnore, Shifted;
    var quiet := pre + [NoStep] + post;
    QuietIgnores(pre, post, i);
    PendingSteps(pre, step, post, i, m, f, st, st);
    StepsKeep(quiet, i, f, st);
    if s.Return? && s.result.Some? {
      ReturnAgrees(s.result.value, {i}, f, TakeSteps(quiet, f, st), TakeSteps(pre + [step] + post, f, st));
    }
  }

  /** A block behind n emissions. */
  lemma LateBlock(ss: seq<Stmt>, pre: seq<Step>, step: Step, post: seq<Step>, i: DeclId, m: Motion, n: nat,
                  fuel: nat, f: Frame, st: State, st': State)
    requires IgnoresIn(ss, i) && StepsIgnore(pre, i) && StepsIgnore(post, i) && Moves(step, i, m)
    requires Further(st, st', i, m, n, f)
    ensures var quiet := pre + [NoStep] + post;
            var (o, st1) := EmittedBlock(ss, quiet, fuel, f, st);
            var (o', st1') := EmittedBlock(ss, pre + [step] + post, fuel, f, st');
            o == o' && Further(st1, st1', i, m, n + EmissionsIn(ss, quiet, fuel, f, st), f)
  {
    hide Moves, StepsIgnore, IgnoresIn, Shifted, EmittedBlock, EmissionsIn;
    var quiet := pre + [NoStep] + post;
    QuietIgnores(pre, post, i);
    BlockSteps(ss, pre, step, post, i, m, fuel, f, st, st');
    BlockKeeps(ss, quiet, i, fuel, f, st);
    var st1, st1' := EmittedBlock(ss, quiet, fuel, f, st).1, EmittedBlock(ss, pre + [step] + post, fuel, f, st').1;
    FurtherByMore(st1, st1', i, m, n, EmissionsIn(ss, quiet, fuel, f, st), Get(st.env, i), Get(st'.env, i), f);
  }
}
