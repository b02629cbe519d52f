// How often a body takes the step of its loop does not depend on the counters that its inner
// loops have left behind.
module SameEmissions {
  import opened Words
  import opened Tree
  import opened Source
  import opened Desugaring
  import opened ForLoops
  import opened StepCount

  // ----- statements that read no local of a set -----

  ghost predicate StepsBlind(steps: seq<Step>, L: set<DeclId>)
  {
    forall k :: 0 <= k < |steps| ==> StepBlind(steps[k], L)
  }

  ghost predicate StepBlind(step: Step, L: set<DeclId>) { step.Step? ==> Avoids(step.value, L) }

  /** A desugared statement reads no local of L. */
  ghost predicate Blind(s: Stmt, L: set<DeclId>)
  {
    match s
    case Declare(_, e) => Avoids(e, L)
    case Assign(_, e) => Avoids(e, L)
    case Evaluate(e) => Avoids(e, L)
    case Nested(body) => BlindIn(body, L)
    case ErrorBlock(_) => true
    case If(c, t, e) => Avoids(c, L) && BlindIn(t, L) && BlindIn(e, L)
    case While(c, body, step) => Avoids(c, L) && BlindIn(body, L) && StepBlind(step, L)
    case For(_, _, _, _, _, _, _) => false
    case Break => true
    case Continue => true
    case Return(v) => AvoidsIn(v, L)
  }

  ghost predicate BlindIn(ss: seq<Stmt>, L: set<DeclId>)
  {
    ss == [] || (Blind(ss[0], L) && BlindIn(ss[1..], L))
  }

  /** Two runs from states that agree off L: one outcome, and results that agree off L. */
  ghost predicate Alike(r: (Outcome, State), r': (Outcome, State), L: set<DeclId>)
  {
    r.0 == r'.0 && Agree(r.1, r'.1, L)
  }

  lemma {:induction false} StepsAlike(steps: seq<Step>, L: set<DeclId>, f: Frame, st: State, st': State)
    requires StepsBlind(steps, L) && Agree(st, st', L)
    ensures Agree(TakeSteps(steps, f, st), TakeSteps(steps, f, st'), L)
    decreases steps
  {
    if steps != [] {
      if steps[0].Step? {
        assert StepBlind(steps[0], L);
        SetToAgrees(steps[0].decl, steps[0].value, L, f, st, st');
      }
      StepsAlike(steps[1..], L, f, TakeStep(steps[0], f, st), TakeStep(steps[0], f, st'));
    }
  }

  lemma {:induction false} RunsAlike(s: Stmt, L: set<DeclId>, steps: seq<Step>, fuel: nat, f: Frame, st: State,
                                     st': State)
    requires Blind(s, L) && StepsBlind(steps, L) && Agree(st, st', L)
    ensures Alike(Emitted(s, steps, fuel, f, st), Emitted(s, steps, fuel, f, st'), L)
    ensures Emissions(s, steps, fuel, f, st) == Emissions(s, steps, fuel, f, st')
    decreases fuel, s, 1
  {
    hide Meaning, Pow2, Signed, Eval;
    match s
    case Declare(d, e) => SetToAgrees(d, e, L, f, st, st');
    case Assign(d, e) => SetToAgrees(d, e, L, f, st, st');
    case Evaluate(e) => EvalOff(e, L, f, st.env, st'.env, st.trace);
    case Nested(body) => BlocksAlike(body, L, steps, fuel, f, st, st');
    case If(c, t, e) =>
      EvalOff(c, L, f, st.env, st'.env, st.trace);
      var (v, tr) := Eval(c, f, st.env, st.trace);
      BlocksAlike(if Truth(v) then t else e, L, steps, fuel, f, st.(trace := tr), st'.(trace := tr));
    case While(c, body, step) =>
      if fuel > 0 {
        EvalOff(c, L, f, st.env, st'.env, st.trace);
        var (v, tr) := Eval(c, f, st.env, st.trace);
        if Truth(v) {
          var inner, st1, st1' := steps + [step], st.(trace := tr), st'.(trace := tr);
          BlocksAlike(body, L, inner, fuel - 1, f, st1, st1');
          var (o, st2) := EmittedBlock(body, inner, fuel - 1, f, st1);
          if o == Normal || o == Continued {
            RunsAlike(s, L, steps, fuel - 1, f, st2, EmittedBlock(body, inner, fuel - 1, f, st1').1);
          }
        }
      }
    case Return(v) => if v.Some? { EvalOff(v.value, L, f, st.env, st'.env, st.trace); }
    case _ =>
  }

  lemma {:induction false} BlocksAlike(ss: seq<Stmt>, L: set<DeclId>, steps: seq<Step>, fuel: nat, f: Frame,
                                       st: State, st': State)
    requires BlindIn(ss, L) && StepsBlind(steps, L) && Agree(st, st', L)
    ensures Alike(EmittedBlock(ss, steps, fuel, f, st), EmittedBlock(ss, steps, fuel, f, st'), L)
    ensures EmissionsIn(ss, steps, fuel, f, st) == EmissionsIn(ss, steps, fuel, f, st')
    decreases fuel, ss, 0
  {
    hide StepsBlind, Meaning, Pow2, Signed, Eval, SetTo, TakeSteps;
    if ss != [] {
      if ss[0].IsTerminator() {
        StepsAlike(steps, L, f, st, st');
        RunsAlike(ss[0], L, steps, fuel, f, TakeSteps(steps, f, st), TakeSteps(steps, f, st'));
      } else {
        RunsAlike(ss[0], L, steps, fuel, f, st, st');
        var st1, st1' := Emitted(ss[0], steps, fuel, f, st).1, Emitted(ss[0], steps, fuel, f, st').1;
        if |ss| == 1 {
          StepsAlike(steps, L, f, st1, st1');
        } else {
          BlocksAlike(ss[1..], L, steps, fuel, f, st1, st1');
        }
      }
    }
  }

  // ----- for loops of the fragment -----

  lemma {:induction false} AvoidsFewer(e: Expr, K: set<DeclId>, L: set<DeclId>)
    requires Avoids(e, K) && L <= K
    ensures Avoids(e, L)
    decreases e
  {
    match e
    case Binary(_, _, l, r) => AvoidsFewer(l, K, L); AvoidsFewer(r, K, L);
    case Logical(_, l, r) => AvoidsFewer(l, K, L); AvoidsFewer(r, K, L);
    case Call(_, es) => forall i | 0 <= i < |es| ensures Avoids(es[i], L) { AvoidsFewer(es[i], K, L); }
    case Cast(_, _, x) => AvoidsFewer(x, K, L);
    case _ =>
  }

  /** A for body reads no counter but its own. */
  lemma {:induction false} ForBodyIsBlind(ss: seq<Stmt>, i: DeclId, K: set<DeclId>)
    requires AllInForBody(ss, i, K)
    ensures BlindIn(ss, K - {i})
    decreases ss
  {
    if ss != [] {
      match ss[0] {
        case If(_, t, e) =>
          if t != [] { ForBodyIsBlind(t, i, K); }
          if e != [] { ForBodyIsBlind(e, i, K); }
        case Nested(body) => if body != [] { ForBodyIsBlind(body, i, K); }
        case Return(v) => if v.Some? { AvoidsFewer(v.value, K, K - {i}); }
        case _ =>
      }
      ForBodyIsBlind(ss[1..], i, K);
    }
  }

  lemma {:induction false} WhileForIsBlind(s: Stmt, K: set<DeclId>)
    requires s.For? && Supported(s, K)
    ensures Blind(WhileFor(s), K - {s.counter})
  {
    hide DesugarAll, BlindIn, Converted;
    HeadReads(s, K - {s.counter});
    assert Avoids(Local(s.counter), K - {s.counter}) && Avoids(OrLiteral(s.step, 1), K - {s.counter});
    DesugaredInForBody(s.body, s.counter, K);
    ForBodyIsBlind(DesugarAll(s.body), s.counter, K);
  }

  lemma PairEmits(d: DeclId, e: Expr, w: Stmt, pads: seq<Step>, fuel: nat, f: Frame, st: State)
    requires w.While?
    ensures var st1 := SetTo(d, e, f, st);
            Emissions(Nested([Declare(d, e), w]), pads, fuel, f, st) ==
            Emissions(w, pads, fuel, f, st1) + if Emitted(w, pads, fuel, f, st1).0 == Normal then 1 else 0
  {
    hide SetTo;
    var pair := [Declare(d, e), w];
    assert pair[1..] == [w];
    assert EmissionsIn([w], pads, fuel, f, SetTo(d, e, f, st)) ==
           Emissions(w, pads, fuel, f, SetTo(d, e, f, st))
           + if Emitted(w, pads, fuel, f, SetTo(d, e, f, st)).0 == Normal then 1 else 0;
    assert EmissionsIn(pair, pads, fuel, f, st) == EmissionsIn([w], pads, fuel, f, SetTo(d, e, f, st));
  }

  /** An inner loop sets its counter before it reads it. */
  lemma {:induction false} ForEmitsAlike(s: Stmt, K: set<DeclId>, pads: seq<Step>, fuel: nat, f: Frame, st: State,
                                         st': State)
    requires s.For? && Supported(s, K) && NoSteps(pads) && Agree(st, st', K)
    ensures Emissions(Desugar(s), pads, fuel, f, st) == Emissions(Desugar(s), pads, fuel, f, st')
  {
    hide Emitted, SetTo, Desugar, DesugarAll, Emissions, EmissionsIn, Blind, StepsBlind;
    var i, e, w := s.counter, OrLiteral(s.begin, 0), WhileFor(s);
    DesugaredFor(s);
    BeginAvoids(s, K);
    SetToAgrees(i, e, K, f, st, st');
    WhileForIsBlind(s, K);
    PadsAreBlind(pads, K - {i});
    RunsAlike(w, K - {i}, pads, fuel, f, SetTo(i, e, f, st), SetTo(i, e, f, st'));
    PairEmits(i, e, w, pads, fuel, f, st);
    PairEmits(i, e, w, pads, fuel, f, st');
  }

  lemma BeginAvoids(s: Stmt, K: set<DeclId>)
    requires s.For? && Supported(s, K)
    ensures Avoids(OrLiteral(s.begin, 0), K)
  {}

  lemma PadsAreBlind(pads: seq<Step>, L: set<DeclId>)
    requires NoSteps(pads)
    ensures StepsBlind(pads, L)
  {}

  // ----- bodies -----

  /** The emitted results from two such states agree, because both agree with what is meant. */
  lemma EmittedAgree(s: Stmt, K: set<DeclId>, pads: seq<Step>, fuel: nat, f: Frame, st: State, st': State)
    requires Supported(s, K) && NoSteps(pads) && Agree(st, st', K)
    ensures Alike(Emitted(Desugar(s), pads, fuel, f, st), Emitted(Desugar(s), pads, fuel, f, st'), K)
  {
    hide Supported, NoSteps, Emitted, Exec, Desugar;
    SupportedAgrees(s, K, pads, fuel, f, st, st);
    SupportedAgrees(s, K, pads, fuel, f, st, st');
  }

  lemma BodiesAgree(ss: seq<Stmt>, K: set<DeclId>, pads: seq<Step>, fuel: nat, f: Frame, st: State, st': State)
    requires AllSupported(ss, K) && NoSteps(pads) && Agree(st, st', K)
    ensures Alike(EmittedBlock(DesugarAll(ss), pads, fuel, f, st), EmittedBlock(DesugarAll(ss), pads, fuel, f, st'), K)
  {
    hide AllSupported, NoSteps, EmittedBlock, ExecBlock, DesugarAll;
    AllSupportedAgree(ss, K, pads, fuel, f, st, st);
    AllSupportedAgree(ss, K, pads, fuel, f, st, st');
  }

  lemma {:induction false} SupportedEmitsAlike(s: Stmt, K: set<DeclId>, pads: seq<Step>, fuel: nat, f: Frame,
                                               st: State, st': State)
    requires Supported(s, K) && NoSteps(pads) && Agree(st, st', K)
    ensures Emissions(Desugar(s), pads, fuel, f, st) == Emissions(Desugar(s), pads, fuel, f, st')
    decreases fuel, s, 1
  {
    hide AllSupported, DesugarAll, EmittedBlock, EmissionsIn, ExecBlock, Eval, SetTo, Meaning;
    match s
    case Nested(body) => AllEmitAlike(body, K, pads, fuel, f, st, st');
    case If(c, t, e) =>
      EvalOff(c, K, f, st.env, st'.env, st.trace);
      var (v, tr) := Eval(c, f, st.env, st.trace);
      AllEmitAlike(if Truth(v) then t else e, K, pads, fuel, f, st.(trace := tr), st'.(trace := tr));
    case While(c, body, _) =>
      if fuel > 0 {
        EvalOff(c, K, f, st.env, st'.env, st.trace);
        var (v, tr) := Eval(c, f, st.env, st.trace);
        var st1, st1', inner := st.(trace := tr), st'.(trace := tr), pads + [NoStep];
        AllEmitAlike(body, K, inner, fuel - 1, f, st1, st1');
        BodiesAgree(body, K, inner, fuel - 1, f, st1, st1');
        SupportedEmitsAlike(s, K, pads, fuel - 1, f, EmittedBlock(DesugarAll(body), inner, fuel - 1, f, st1).1,
                            EmittedBlock(DesugarAll(body), inner, fuel - 1, f, st1').1);
      }
    case For(_, _, _, _, _, _, _) => ForEmitsAlike(s, K, pads, fuel, f, st, st');
    case _ =>
  }

  /** From states that agree off the inner counters a body emits the step equally often. */
  lemma {:induction false} AllEmitAlike(ss: seq<Stmt>, K: set<DeclId>, pads: seq<Step>, fuel: nat, f: Frame, st: State,
                                        st': State)
    requires AllSupported(ss, K) && NoSteps(pads) && Agree(st, st', K)
    ensures EmissionsIn(DesugarAll(ss), pads, fuel, f, st) == EmissionsIn(DesugarAll(ss), pads, fuel, f, st')
    decreases fuel, ss, 0
  {
    hide Supported, Emitted, Emissions, Desugar, NoSteps;
    if ss != [] {
      assert DesugarAll(ss)[1..] == DesugarAll(ss[1..]) && DesugarAll(ss)[0] == Desugar(ss[0]);
      SupportedEmitsAlike(ss[0], K, pads, fuel, f, st, st');
      EmittedAgree(ss[0], K, pads, fuel, f, st, st');
      AllEmitAlike(ss[1..], K, pads, fuel, f, Emitted(Desugar(ss[0]), pads, fuel, f, st).1,
                   Emitted(Desugar(ss[0]), pads, fuel, f, st').1);
    }
  }
}
