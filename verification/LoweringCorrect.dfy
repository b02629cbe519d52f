// The main results about code generation: the basic blocks of a procedure behave as its
// structured body does.
module LoweringCorrect {
  import opened Words
  import opened Tree
  import opened Source
  import opened Ir
  import opened Lowering
  import opened Growth
  import opened SimulateExpr
  import opened SimulateStmt

  // ----- the frame of a procedure -----

  /** The locals before anything is stored: the i-th holds whatever the i-th cell held. */
  function Uninitialised(ds: seq<DeclId>, env: Env, k: nat, w: World): Env
  {
    if ds == [] then env else Uninitialised(ds[1..], env[ds[0] := w.cell(k)], k + 1, w)
  }

  function Start(body: seq<Stmt>, f: Frame): State
  {
    State(Uninitialised(Locals(body), map[], 0, f.world), [])
  }

  const ENTRY: Config := Running(0, 0, map[], [], [])

  function Compiled(body: seq<Stmt>, f: Frame): Machine { Machine(GenProcedure(body).blocks, f) }

  function SlotsFor(body: seq<Stmt>): Slots { AllocLocals(Locals(body), map[], ENTRY_BUILDER).0 }

  lemma {:induction false} GrowAllocs(ds: seq<DeclId>, slots: Slots, b: Builder)
    ensures Grows(b, AllocLocals(ds, slots, b).1)
    decreases ds
  {
    if ds != [] {
      var b1 := EmitValue(b, Alloca(b.regs));
      EmitGrows(b, b, Alloca(b.regs));
      GrowAllocs(ds[1..], slots[ds[0] := b.regs], b1);
      GrowsTrans(b, b1, AllocLocals(ds[1..], slots[ds[0] := b.regs], b1).1);
    }
  }

  /** The locals seen so far have cells and value numbers of the same index. */
  ghost predicate Framed(c: Config, b: Builder, env: Env, slots: Slots)
  {
    && AtEnd(c, b) && !Terminated(b) && |c.mem| == b.regs && c.trace == []
    && Rel(c, env, slots) && SlotsBelow(slots, b.regs) && Injective(slots)
  }

  lemma {:induction false} SimAllocs(ds: seq<DeclId>, slots: Slots, b: Builder, m: Machine, env: Env, c: Config)
    requires Framed(c, b, env, slots) && Distinct(ds) && forall d :: d in ds ==> d !in slots
    requires Extends(AllocLocals(ds, slots, b).1.blocks, m.code)
    ensures var (slots', b') := AllocLocals(ds, slots, b);
            && Framed(Run(m, c, |ds|), b', Uninitialised(ds, env, b.regs, m.frame.world), slots')
            && forall d :: d in slots' <==> d in slots || d in ds
    decreases ds
  {
    hide TruncDiv, Truth, Unsigned, ValueOf, Values;
    if ds != [] {
      var b1 := EmitValue(b, Alloca(b.regs));
      var slots1 := slots[ds[0] := b.regs];
      GrowAllocs(ds[1..], slots1, b1);
      FitsEarlier(b1, AllocLocals(ds[1..], slots1, b1).1, m.code);
      NextIsEmitted(b, Alloca(b.regs), m, c);
      var c1 := Next(m, c);
      var env1 := env[ds[0] := m.frame.world.cell(b.regs)];
      forall d | d in slots1 ensures Holds(c1, env1, slots1, d) {
        assert d in slots ==> Holds(c, env, slots, d);
      }
      SimAllocs(ds[1..], slots1, b1, m, env1, c1);
      assert forall d :: d in ds <==> d == ds[0] || d in ds[1..];
    }
  }

  // ----- how a body can end -----

  lemma {:induction false} NoStrayJump(s: Stmt, p: DeclId -> bool, steps: seq<Step>, fuel: nat, f: Frame, st: State)
    requires StmtOk(s, p, false)
    ensures var o := Emitted(s, steps, fuel, f, st).0; o != Broke && o != Continued && (s.Return? ==> o != Normal)
    decreases fuel, s, 1
  {
    match s
    case Nested(body) => NoStrayJumpOut(body, p, steps, fuel, f, st);
    case If(c, t, e) =>
      var (v, tr) := Eval(c, f, st.env, st.trace);
      NoStrayJumpOut(if Truth(v) then t else e, p, steps, fuel, f, st.(trace := tr));
    case While(_, _, _) => LoopsAbsorbJumps(s, steps, fuel, f, st);
    case _ =>
  }

  lemma {:induction false} LoopsAbsorbJumps(s: Stmt, steps: seq<Step>, fuel: nat, f: Frame, st: State)
    requires s.While?
    ensures var o := Emitted(s, steps, fuel, f, st).0; o != Broke && o != Continued
    decreases fuel
  {
    if fuel > 0 {
      var (v, tr) := Eval(s.cond, f, st.env, st.trace);
      if Truth(v) {
        var (o, st1) := EmittedBlock(s.body, steps + [s.prologue], fuel - 1, f, st.(trace := tr));
        LoopsAbsorbJumps(s, steps, fuel - 1, f, st1);
      }
    }
  }

  lemma {:induction false} NoStrayJumpOut(ss: seq<Stmt>, p: DeclId -> bool, steps: seq<Step>, fuel: nat, f: Frame,
                                          st: State)
    requires BlockOk(ss, p, false)
    ensures var o := EmittedBlock(ss, steps, fuel, f, st).0;
            o != Broke && o != Continued && (TopReturn(ss) ==> o != Normal)
    decreases fuel, ss, 0
  {
    if ss != [] {
      if ss[0].IsTerminator() {
        NoStrayJump(ss[0], p, steps, fuel, f, TakeSteps(steps, f, st));
      } else {
        NoStrayJump(ss[0], p, steps, fuel, f, st);
        NoStrayJumpOut(ss[1..], p, steps, fuel, f, Emitted(ss[0], steps, fuel, f, st).1);
      }
    }
  }

  // ----- both directions -----

  /** What a body yields when loops may run `fuel` rounds. */
  function Behaviour(body: seq<Stmt>, fuel: nat, f: Frame): (Outcome, State)
  {
    EmittedBlock(body, [], fuel, f, Start(body, f))
  }

  /** The machine has halted with the value, the calls and the locals of a returned body. */
  ghost predicate HaltsAs(c: Config, v: Option<int>, st: State, slots: Slots)
  {
    c.Halted? && c.value == v && c.trace == st.trace && LocalsIn(c.mem, st.env, slots)
  }

  /** Forward: the blocks follow the body, step for step at least as long. */
  lemma {:induction false} BlocksFollowBody(body: seq<Stmt>, f: Frame, fuel: nat) returns (n: nat)
    requires BodyOk(body)
    ensures var (o, st) := Behaviour(body, fuel, f); var c := Run(Compiled(body, f), ENTRY, n);
            match o
            case Returned(v) => HaltsAs(c, v, st, SlotsFor(body))
            case Timeout => c.Running? && c.trace == st.trace && n >= fuel
            case _ => false
  {
    hide Run, EmittedBlock, AllocLocals, BlockOk, Locals;
    var m := Compiled(body, f);
    var ds := Locals(body);
    var (slots, b) := AllocLocals(ds, map[], ENTRY_BUILDER);
    var x := Context(slots, [], None, None);
    GrowBlock(body, x, b);
    assert Extends(GenProcedure(body).blocks, m.code) by {
      forall i | 0 <= i < |m.code| ensures PrefixAt(m.code, m.code, i) {}
    }
    FitsEarlier(b, GenBlock(body, x, b), m.code);
    SimAllocs(ds, map[], ENTRY_BUILDER, m, map[], ENTRY);
    BlockOkWeaker(body, Declared(body), InSlots(slots), false);
    var k := SimBlock(body, x, false, b, m, Start(body, f), Run(m, ENTRY, |ds|), fuel);
    RunAdds(m, ENTRY, |ds|, k);
    NoStrayJumpOut(body, Declared(body), [], fuel, f, Start(body, f));
    n := |ds| + k;
  }

  lemma {:induction false} NeverMoves(m: Machine, c: Config, i: nat, j: nat)
    requires i <= j && !Run(m, c, i).Running?
    ensures Run(m, c, j) == Run(m, c, i)
  {
    RunAdds(m, c, i, j - i);
    RunStays(m, Run(m, c, i), j - i);
  }

  /** Backward: once the blocks stop, after n steps, the body has returned within n + 1
      rounds, with the same value, calls and locals; the machine is never stuck. */
  lemma {:induction false} BodyFollowsBlocks(body: seq<Stmt>, f: Frame, n: nat)
    requires BodyOk(body) && !Run(Compiled(body, f), ENTRY, n).Running?
    ensures var (o, st) := Behaviour(body, n + 1, f);
            o.Returned? && HaltsAs(Run(Compiled(body, f), ENTRY, n), o.value, st, SlotsFor(body))
  {
    var m := Compiled(body, f);
    var k := BlocksFollowBody(body, f, n + 1);
    if k >= n {
      NeverMoves(m, ENTRY, n, k);
    } else {
      NeverMoves(m, ENTRY, k, n);
    }
  }

  /** The blocks diverge exactly when the body does. */
  lemma {:induction false} DivergesTogether(body: seq<Stmt>, f: Frame)
    requires BodyOk(body)
    ensures (forall fuel: nat :: Behaviour(body, fuel, f).0 == Timeout)
            <==> (forall n: nat :: Run(Compiled(body, f), ENTRY, n).Running?)
  {
    var m := Compiled(body, f);
    if fuel: nat :| Behaviour(body, fuel, f).0 != Timeout {
      var n := BlocksFollowBody(body, f, fuel);
      assert !Run(m, ENTRY, n).Running?;
    }
    if n: nat :| !Run(m, ENTRY, n).Running? {
      BodyFollowsBlocks(body, f, n);
      assert Behaviour(body, n + 1, f).0 != Timeout;
    }
  }

  lemma {:induction false} TraceGrows(m: Machine, c: Config, n: nat)
    requires Run(m, c, n) != Stuck
    ensures c != Stuck && TraceOf(c) <= TraceOf(Run(m, c, n))
    decreases n
  {
    if n > 0 {
      TraceGrows(m, Next(m, c), n - 1);
      assert c != Stuck;
      assert TraceOf(c) <= TraceOf(Next(m, c));
    }
  }

  /** No call is made that the body does not make: after any number of steps the calls so
      far are a prefix of those of the body. */
  lemma {:induction false} CallsAreThoseOfBody(body: seq<Stmt>, f: Frame, n: nat)
    requires BodyOk(body)
    ensures TraceOf(Run(Compiled(body, f), ENTRY, n)) <= Behaviour(body, n, f).1.trace
  {
    var m := Compiled(body, f);
    var k := BlocksFollowBody(body, f, n);
    if k >= n {
      RunAdds(m, ENTRY, n, k - n);
      TraceGrows(m, Run(m, ENTRY, n), k - n);
    } else {
      NeverMoves(m, ENTRY, k, n);
    }
  }
}
