// Loop prologues as code generation emits them, written out: a program in which the steps of
// all enclosing loops stand as assignments wherever they are emitted.
module SplicedSteps {
  import opened Tree
  import opened Source
  import opened Desugaring

  /** The pending steps as assignments, outermost loop first. */
  function Assigned(steps: seq<Step>): seq<Stmt>
  {
    if steps == [] then [] else
    (match steps[0] case NoStep => [] case Step(d, e) => [Assign(d, e)]) + Assigned(steps[1..])
  }

  /** The statement without loop steps, but with assignments for them in its blocks. */
  function Spliced(s: Stmt, steps: seq<Step>): Stmt
  {
    match s
    case Nested(body) => Nested(SplicedIn(body, steps))
    case If(c, t, e) => If(c, SplicedIn(t, steps), SplicedIn(e, steps))
    case While(c, body, step) => While(c, SplicedIn(body, steps + [step]), NoStep)
    case _ => s
  }

  /** Assignments before the terminator of a block, or at the end of one that is not empty. */
  function SplicedIn(ss: seq<Stmt>, steps: seq<Step>): seq<Stmt>
  {
    if ss == [] then []
    else if ss[0].IsTerminator() then Assigned(steps) + [ss[0]]
    else [Spliced(ss[0], steps)] + if |ss| == 1 then Assigned(steps) else SplicedIn(ss[1..], steps)
  }

  /** There are no for loops, and no loop has a step of its own. */
  predicate Stepless(s: Stmt)
  {
    match s
    case Nested(body) => SteplessIn(body)
    case If(_, t, e) => SteplessIn(t) && SteplessIn(e)
    case While(_, body, step) => step == NoStep && SteplessIn(body)
    case For(_, _, _, _, _, _, _) => false
    case _ => true
  }

  predicate SteplessIn(ss: seq<Stmt>)
  {
    forall k :: 0 <= k < |ss| ==> Stepless(ss[k])
  }

  lemma {:induction false} AssignedIsStepless(steps: seq<Step>)
    ensures SteplessIn(Assigned(steps))
  {
    if steps != [] {
      AssignedIsStepless(steps[1..]);
    }
  }

  lemma {:induction false} SplicedIsStepless(s: Stmt, steps: seq<Step>)
    requires NoFor(s)
    ensures Stepless(Spliced(s, steps))
    decreases s, 1
  {
    match s
    case Nested(body) => SplicedInIsStepless(body, steps);
    case If(_, t, e) => SplicedInIsStepless(t, steps); SplicedInIsStepless(e, steps);
    case While(_, body, step) => SplicedInIsStepless(body, steps + [step]);
    case _ =>
  }

  lemma {:induction false} SplicedInIsStepless(ss: seq<Stmt>, steps: seq<Step>)
    requires NoForIn(ss)
    ensures SteplessIn(SplicedIn(ss, steps))
    decreases ss, 0
  {
    AssignedIsStepless(steps);
    if ss != [] {
      SplicedIsStepless(ss[0], steps);
      if !ss[0].IsTerminator() && |ss| > 1 {
        SplicedInIsStepless(ss[1..], steps);
      }
    }
  }

  // ----- meaning -----

  lemma HeadRuns(s: Stmt, rest: seq<Stmt>, fuel: nat, f: Frame, st: State)
    ensures var (o, st1) := Exec(s, fuel, f, st);
            ExecBlock([s] + rest, fuel, f, st) == if o == Normal then ExecBlock(rest, fuel, f, st1) else (o, st1)
  {
    hide Exec;
    assert ([s] + rest)[1..] == rest;
  }

  /** The assignments take the steps. */
  lemma {:induction false} AssignedRun(steps: seq<Step>, rest: seq<Stmt>, fuel: nat, f: Frame, st: State)
    ensures ExecBlock(Assigned(steps) + rest, fuel, f, st) == ExecBlock(rest, fuel, f, TakeSteps(steps, f, st))
    decreases steps
  {
    hide SetTo, ExecBlock;
    if steps == [] {
      assert Assigned(steps) + rest == rest;
    } else {
      var more := Assigned(steps[1..]);
      AssignedRun(steps[1..], rest, fuel, f, TakeStep(steps[0], f, st));
      match steps[0]
      case NoStep => assert Assigned(steps) + rest == more + rest;
      case Step(d, e) =>
        assert Assigned(steps) + rest == [Assign(d, e)] + (more + rest);
        HeadRuns(Assign(d, e), more + rest, fuel, f, st);
    }
  }

  lemma {:induction false} SplicedDoes(s: Stmt, steps: seq<Step>, fuel: nat, f: Frame, st: State)
    requires NoFor(s)
    ensures Exec(Spliced(s, steps), fuel, f, st) == Emitted(s, steps, fuel, f, st)
    decreases fuel, s, 1
  {
    hide SetTo, Eval, SplicedIn, ExecBlock, EmittedBlock, ReturnWith;
    match s
    case Nested(body) => SplicedBlockDoes(body, steps, fuel, f, st);
    case If(c, t, e) =>
      var (v, tr) := Eval(c, f, st.env, st.trace);
      SplicedBlockDoes(if Truth(v) then t else e, steps, fuel, f, st.(trace := tr));
    case While(c, body, step) =>
      if fuel > 0 {
        var (v, tr) := Eval(c, f, st.env, st.trace);
        var inner, st1 := steps + [step], st.(trace := tr);
        SplicedBlockDoes(body, inner, fuel - 1, f, st1);
        SplicedDoes(s, steps, fuel - 1, f, EmittedBlock(body, inner, fuel - 1, f, st1).1);
      }
    case _ =>
  }

  /** Code generation's prologues are these assignments, and nothing else: for all nesting, all
      steps, every way out and every cut-off, the emitted meaning of a block is the intended
      meaning of the block with the steps written out. */
  lemma {:induction false} SplicedBlockDoes(ss: seq<Stmt>, steps: seq<Step>, fuel: nat, f: Frame, st: State)
    requires NoForIn(ss)
    ensures ExecBlock(SplicedIn(ss, steps), fuel, f, st) == EmittedBlock(ss, steps, fuel, f, st)
    decreases fuel, ss, 0
  {
    hide Exec, Emitted, Spliced, NoFor, Assigned, TakeSteps;
    if ss != [] {
      if ss[0].IsTerminator() {
        AssignedRun(steps, [ss[0]], fuel, f, st);
        TerminatorDoes(ss[0], steps, fuel, f, TakeSteps(steps, f, st));
      } else {
        SplicedDoes(ss[0], steps, fuel, f, st);
        var (o, st1) := Emitted(ss[0], steps, fuel, f, st);
        var rest := if |ss| == 1 then Assigned(steps) else SplicedIn(ss[1..], steps);
        HeadRuns(Spliced(ss[0], steps), rest, fuel, f, st);
        if |ss| == 1 {
          AssignedRun(steps, [], fuel, f, st1);
          assert Assigned(steps) + [] == Assigned(steps);
        } else {
          SplicedBlockDoes(ss[1..], steps, fuel, f, st1);
        }
      }
    }
  }

  lemma TerminatorDoes(s: Stmt, steps: seq<Step>, fuel: nat, f: Frame, st: State)
    requires s.IsTerminator()
    ensures ExecBlock([s], fuel, f, st) == Emitted(s, steps, fuel, f, st)
  {
    assert [s][1..] == [];
  }

  /** Every for loop, whatever its body, step and end: what is emitted for it is what its
      desugared form with the steps written out means. */
  lemma {:induction false} ForLoopIsSpliced(s: Stmt, fuel: nat, f: Frame, st: State)
    requires s.For?
    ensures Emitted(Desugar(s), [], fuel, f, st) == Exec(Spliced(Desugar(s), []), fuel, f, st)
    ensures Stepless(Spliced(Desugar(s), []))
  {
    hide Emitted, Exec, Desugar, Spliced;
    DesugarRemovesFor(s);
    SplicedDoes(Desugar(s), [], fuel, f, st);
    SplicedIsStepless(Desugar(s), []);
  }
}
