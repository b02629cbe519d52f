// From source with for loops to basic blocks, and where for loops go wrong.
module EndToEnd {
  import opened Words
  import opened Tree
  import opened Source
  import opened Ir
  import opened Lowering
  import opened LoweringCorrect
  import opened Desugaring
  import opened ForLoops
  import opened ForRange
  import opened CounterWords
  import opened OutsideFragment
  import opened LoopTrips
  import opened LoopExamples
  import opened GuardedLoops
  import opened WrittenRanges
  import opened SplicedSteps

  // ----- any for loops -----

  /** What a program does whose loop steps are written out where they are emitted. */
  function WrittenOut(body: seq<Stmt>, fuel: nat, f: Frame): (Outcome, State)
  {
    ExecBlock(SplicedIn(DesugarAll(body), []), fuel, f, Start(DesugarAll(body), f))
  }

  lemma WrittenOutIsEmitted(body: seq<Stmt>, fuel: nat, f: Frame)
    ensures WrittenOut(body, fuel, f) == Behaviour(DesugarAll(body), fuel, f)
  {
    hide DesugarAll, SplicedIn, ExecBlock, EmittedBlock;
    DesugarAllRemovesFor(body);
    SplicedBlockDoes(DesugarAll(body), [], fuel, f, Start(DesugarAll(body), f));
  }

  /** Programs with any for loops: their blocks do what the desugared body means when the steps
      are written out. */
  lemma {:induction false} BlocksDoAsWrittenOut(body: seq<Stmt>, f: Frame, fuel: nat) returns (n: nat)
    requires BodyOk(DesugarAll(body))
    ensures var (o, st) := WrittenOut(body, fuel, f); var c := Run(Compiled(DesugarAll(body), f), ENTRY, n);
            match o
            case Returned(v) => HaltsAs(c, v, st, SlotsFor(DesugarAll(body)))
            case Timeout => c.Running? && c.trace == st.trace && n >= fuel
            case _ => false
  {
    hide Run, Compiled, DesugarAll, WrittenOut, BodyOk, HaltsAs;
    WrittenOutIsEmitted(body, fuel, f);
    n := BlocksFollowBody(DesugarAll(body), f, fuel);
  }

  /** Where the blocks stop, that meaning returns with the same result. */
  lemma {:induction false} WrittenOutWhereBlocksStop(body: seq<Stmt>, f: Frame, n: nat)
    requires BodyOk(DesugarAll(body)) && !Run(Compiled(DesugarAll(body), f), ENTRY, n).Running?
    ensures var (o, st) := WrittenOut(body, n + 1, f);
            o.Returned? && HaltsAs(Run(Compiled(DesugarAll(body), f), ENTRY, n), o.value, st,
                                   SlotsFor(DesugarAll(body)))
  {
    hide Run, Compiled, DesugarAll, WrittenOut, BodyOk, HaltsAs;
    WrittenOutIsEmitted(body, n + 1, f);
    BodyFollowsBlocks(DesugarAll(body), f, n);
  }

  // ----- the fragment -----

  /** A body whose desugared form is accepted and on which loops behave as intended; K are
      the counters of its for loops. */
  ghost predicate ProgramOk(body: seq<Stmt>, K: set<DeclId>)
  {
    AllSupported(body, K) && BodyOk(DesugarAll(body))
  }

  function Intended(body: seq<Stmt>, fuel: nat, f: Frame): (Outcome, State)
  {
    ExecBlock(body, fuel, f, Start(DesugarAll(body), f))
  }

  /** Halted with the value, the calls and, counters aside, the locals of a returned body. */
  ghost predicate HaltsAsIntended(c: Config, v: Option<int>, st: State, slots: Slots, K: set<DeclId>)
  {
    && c.Halted? && c.value == v && c.trace == st.trace
    && forall d :: d in slots && d !in K ==> slots[d] < |c.mem| && c.mem[slots[d]] == Get(st.env, d)
  }

  lemma IntendedIsEmitted(body: seq<Stmt>, K: set<DeclId>, fuel: nat, f: Frame)
    requires ProgramOk(body, K)
    ensures var r := Intended(body, fuel, f); var r' := Behaviour(DesugarAll(body), fuel, f);
            r.0 == r'.0 && Agree(r.1, r'.1, K)
  {
    var st := Start(DesugarAll(body), f);
    AllSupportedAgree(body, K, [], fuel, f, st, st);
  }

  /** Forward: the blocks of the desugared body do what the body means. */
  lemma {:induction false} BlocksDoAsIntended(body: seq<Stmt>, K: set<DeclId>, f: Frame, fuel: nat) returns (n: nat)
    requires ProgramOk(body, K)
    ensures var (o, st) := Intended(body, fuel, f); var c := Run(Compiled(DesugarAll(body), f), ENTRY, n);
            match o
            case Returned(v) => HaltsAsIntended(c, v, st, SlotsFor(DesugarAll(body)), K)
            case Timeout => c.Running? && c.trace == st.trace && n >= fuel
            case _ => false
  {
    IntendedIsEmitted(body, K, fuel, f);
    n := BlocksFollowBody(DesugarAll(body), f, fuel);
  }

  /** Backward: where the blocks stop, the body has returned with the same result. */
  lemma {:induction false} IntendedWhereBlocksStop(body: seq<Stmt>, K: set<DeclId>, f: Frame, n: nat)
    requires ProgramOk(body, K) && !Run(Compiled(DesugarAll(body), f), ENTRY, n).Running?
    ensures var (o, st) := Intended(body, n + 1, f);
            o.Returned? && HaltsAsIntended(Run(Compiled(DesugarAll(body), f), ENTRY, n), o.value, st,
                                           SlotsFor(DesugarAll(body)), K)
  {
    IntendedIsEmitted(body, K, n + 1, f);
    BodyFollowsBlocks(DesugarAll(body), f, n);
  }

  /** The blocks diverge exactly when the body is meant to. */
  lemma {:induction false} DivergesAsIntended(body: seq<Stmt>, K: set<DeclId>, f: Frame)
    requires ProgramOk(body, K)
    ensures (forall fuel: nat :: Intended(body, fuel, f).0 == Timeout)
            <==> (forall n: nat :: Run(Compiled(DesugarAll(body), f), ENTRY, n).Running?)
  {
    hide Run, Compiled, DesugarAll, ExecBlock, EmittedBlock;
    DivergesTogether(DesugarAll(body), f);
    if forall fuel: nat :: Intended(body, fuel, f).0 == Timeout {
      forall fuel: nat ensures Behaviour(DesugarAll(body), fuel, f).0 == Timeout {
        IntendedIsEmitted(body, K, fuel, f);
        assert Intended(body, fuel, f).0 == Timeout;
      }
    } else {
      var fuel: nat :| Intended(body, fuel, f).0 != Timeout;
      IntendedIsEmitted(body, K, fuel, f);
      assert Behaviour(DesugarAll(body), fuel, f).0 != Timeout;
    }
  }

  // ----- range loops -----

  /** A procedure that is one range loop of the fragment: its blocks halt after the calls of
      exactly Trips rounds, for begin, begin +- step, and so on. */
  lemma {:induction false} CompiledRangeCalls(s: Stmt, limit: int, k: int, n: nat, depth: nat, f: Frame,
                                              calls: int -> seq<Event>)
    returns (steps: nat)
    requires s.For? && ProgramOk([s, Return(None)], {s.counter}) && Constant(s, limit, k, f) && k > 0
    requires RunsThrough(s.body, s.counter, f) && Within(s.body, depth, f) && MakesCalls(s, calls, f)
    requires var st := Start(DesugarAll([s, Return(None)]), f); var b := StartNumber(s, f, st);
             && IsWord(s, Begun(s, f, st)) && n == Trips(s.cmp, b, limit, k)
             && InRange(b + Signum(s.cmp) * (n * k), s.ty.counter)
    ensures var st := Start(DesugarAll([s, Return(None)]), f);
            var c := Run(Compiled(DesugarAll([s, Return(None)]), f), ENTRY, steps);
            && c.Halted? && c.value == None
            && c.trace == StartCalls(s, f, st) + CallsFrom(calls, s.cmp, StartNumber(s, f, st), k, n)
  {
    hide RunsThrough, Within, MakesCalls, Trips, InRange, ProgramOk, Run, Compiled, Exec, Constant;
    var body, fuel := [s, Return(None)], n + depth + 1;
    var st := Start(DesugarAll(body), f);
    RangeCalls(s, limit, k, n, depth, fuel, f, st, calls);
    ThenReturn(s, fuel, f, st);
    steps := BlocksDoAsIntended(body, {s.counter}, f, fuel);
    assert Intended(body, fuel, f).0 == Returned(None);
  }

  lemma ThenReturn(s: Stmt, fuel: nat, f: Frame, st: State)
    requires Exec(s, fuel, f, st).0 == Normal
    ensures ExecBlock([s, Return(None)], fuel, f, st) == (Returned(None), Exec(s, fuel, f, st).1)
  {
    var body := [s, Return(None)];
    var st1 := Exec(s, fuel, f, st).1;
    assert body[0] == s && body[1..] == [Return(None)];
    assert Exec(Return(None), fuel, f, st1) == (Returned(None), st1);
    assert ExecBlock(body[1..], fuel, f, st1) == (Returned(None), st1);
  }

  // ----- outside the fragment -----

  /** A procedure that is one for loop, in the fragment or not: its blocks make the calls of
      the loop's emitted form. */
  lemma {:induction false} CompiledMakesEmittedCalls(s: Stmt, fuel: nat, f: Frame) returns (steps: nat)
    requires s.For? && BodyOk([Desugar(s), Return(None)])
    requires Emitted(Desugar(s), [], fuel, f, Start([Desugar(s), Return(None)], f)).0 == Normal
    ensures var body := [Desugar(s), Return(None)];
            var c := Run(Compiled(body, f), ENTRY, steps);
            c.Halted? && c.trace == Emitted(Desugar(s), [], fuel, f, Start(body, f)).1.trace
  {
    hide Run, Compiled, Emitted, BodyOk, Desugar;
    var body := [Desugar(s), Return(None)];
    DesugaredIsNested(s);
    EmittedThenReturn(Desugar(s), fuel, f, Start(body, f));
    steps := BlocksFollowBody(body, f, fuel);
  }

  lemma DesugaredIsNested(s: Stmt)
    requires s.For?
    ensures !Desugar(s).IsTerminator()
  {
    DesugaredFor(s);
  }

  lemma EmittedThenReturn(s: Stmt, fuel: nat, f: Frame, st: State)
    requires !s.IsTerminator() && Emitted(s, [], fuel, f, st).0 == Normal
    ensures EmittedBlock([s, Return(None)], [], fuel, f, st) == (Returned(None), Emitted(s, [], fuel, f, st).1)
  {
    var body := [s, Return(None)];
    var st1 := Emitted(s, [], fuel, f, st).1;
    assert body[0] == s && body[1..] == [Return(None)];
    assert TakeSteps([], f, st1) == st1;
    assert Emitted(Return(None), [], fuel, f, st1) == (Returned(None), st1);
    assert EmittedBlock(body[1..], [], fuel, f, st1) == (Returned(None), st1);
  }

  /** Down to the blocks: a range loop whose round of b takes the step n(b) times makes the calls
      that are meant exactly if the rounds that it leaves out make none. */
  lemma {:induction false} CompiledRightUnlessSkipped(s: Stmt, K: set<DeclId>, limit: int, k: int, n: int -> Count,
                                                      depth: nat, fuel: nat, f: Frame, calls: int -> seq<Event>)
    returns (steps: nat)
    requires RangeLoop(s, K, limit, k, n, depth, f, calls) && BodyOk([Desugar(s), Return(None)])
    requires var st := Start([Desugar(s), Return(None)], f); var b := StartNumber(s, f, st);
             && IsWord(s, Begun(s, f, st)) && Fits(s, b, limit, k) && FitsAlong(s.cmp, s.ty.counter, n, b, limit, k)
             && fuel > Trips(s.cmp, b, limit, k) + depth
    ensures var body := [Desugar(s), Return(None)];
            var c := Run(Compiled(body, f), ENTRY, steps);
            var meant := Exec(s, fuel, f, Start(body, f));
            var start, b := StartCalls(s, f, Start(body, f)), StartNumber(s, f, Start(body, f));
            && c.Halted? && meant.0 == Normal
            && c.trace == start + CallsAlong(calls, n, s.cmp, b, limit, k)
            && (c.trace == meant.1.trace <==> Skipped(calls, n, s.cmp, b, limit, k) == [])
  {
    hide Run, Compiled, Emitted, Exec, BodyOk, Desugar, Trips, InRange, Fits, Steady, EmitsAt, CallsAlong, Skipped;
    hide RunsThrough, Within, MakesCalls;
    RightUnlessSkipped(s, K, limit, k, n, depth, fuel, f, Start([Desugar(s), Return(None)], f), calls);
    steps := CompiledMakesEmittedCalls(s, fuel, f);
  }

  /** If its rounds make calls and take n steps each: exactly if n is 1 or at most one round is
      meant. */
  lemma {:induction false} CompiledLoopIsRightExactly(s: Stmt, K: set<DeclId>, limit: int, k: int, n: Count,
                                                      depth: nat, fuel: nat, f: Frame, calls: int -> seq<Event>)
    returns (steps: nat)
    requires RangeLoop(s, K, limit, k, Evenly(n), depth, f, calls) && n * k > 0 && NeverSilent(calls)
    requires BodyOk([Desugar(s), Return(None)])
    requires var st := Start([Desugar(s), Return(None)], f); var b := StartNumber(s, f, st);
             && IsWord(s, Begun(s, f, st)) && Fits(s, b, limit, k) && Fits(s, b, limit, n * k)
             && fuel > Trips(s.cmp, b, limit, k) + depth
    ensures var body := [Desugar(s), Return(None)];
            var c := Run(Compiled(body, f), ENTRY, steps);
            var meant := Exec(s, fuel, f, Start(body, f));
            var start, b := StartCalls(s, f, Start(body, f)), StartNumber(s, f, Start(body, f));
            && c.Halted? && meant.0 == Normal
            && c.trace == start + AllCalls(calls, s.cmp, b, limit, n * k)
            && (c.trace == meant.1.trace <==> n == 1 || Trips(s.cmp, b, limit, k) <= 1)
  {
    hide Run, Compiled, Emitted, Exec, BodyOk, Desugar, Trips, InRange, Fits, NeverSilent, Steady, EmitsAt, AllCalls;
    hide RunsThrough, Within, MakesCalls;
    LoopIsRightExactly(s, K, limit, k, n, depth, fuel, f, Start([Desugar(s), Return(None)], f), calls);
    steps := CompiledMakesEmittedCalls(s, fuel, f);
  }

  lemma NothingAfter(ss: seq<Stmt>, p: DeclId -> bool, inLoop: bool)
    requires |ss| == 1
    ensures Locals(ss) == LocalsOf(ss[0]) && NoForIn(ss) == NoFor(ss[0])
    ensures BlockOk(ss, p, inLoop) == StmtOk(ss[0], p, inLoop)
  {
    assert ss[1..] == [] && Locals(ss[1..]) == [] && NoForIn(ss[1..]) && BlockOk(ss[1..], p, inLoop);
    assert LocalsOf(ss[0]) + [] == LocalsOf(ss[0]);
  }

  lemma BranchAccepted(body: seq<Stmt>, e: Expr, branch: seq<Stmt>, p: DeclId -> bool)
    requires body == [If(e, branch, [])] && branch == [CALL] && p(0) && ExprOk(e, p)
    ensures Locals(body) == [] && NoForIn(body) && BlockOk(body, p, true)
  {
    NothingAfter(branch, p, true);
    NothingAfter(body, p, true);
    assert ExprOk(CALL.expr, p);
    assert Locals(body[0].els) == [] && NoForIn(body[0].els) && BlockOk(body[0].els, p, true);
  }

  lemma PairAccepted(pair: seq<Stmt>, w: Stmt, p: DeclId -> bool)
    requires w.While? && Locals(w.body) == []
    requires pair != [] && pair[0].Declare? && pair == [Declare(0, pair[0].init), w] && pair[0].init.Literal?
    ensures Locals(pair) == [0]
    ensures p(0) && StmtOk(w, p, false) ==> BlockOk(pair, p, false)
  {
    assert pair[1..] == [w];
    NothingAfter([w], p, false);
  }

  lemma NestedThenReturn(body: seq<Stmt>, pair: seq<Stmt>, p: DeclId -> bool)
    requires body == [Nested(pair), Return(None)]
    ensures Locals(body) == Locals(pair) && TopReturn(body) && (BlockOk(pair, p, false) ==> BlockOk(body, p, false))
  {
    assert body[1..] == [Return(None)];
    NothingAfter([Return(None)], p, false);
  }

  lemma CountingHeadOk(s: Stmt, limit: nat, p: DeclId -> bool)
    requires s.For? && s == Counting(limit, s.body) && p(0)
    ensures ExprOk(WhileFor(s).cond, p) && StepOk(StepFor(s), p)
  {}

  lemma {:induction false} BranchLoopIsAccepted(s: Stmt, limit: nat, e: Expr)
    requires s == Counting(limit, [If(e, [CALL], [])]) && forall p: DeclId -> bool :: p(0) ==> ExprOk(e, p)
    ensures BodyOk([Desugar(s), Return(None)])
  {
    hide Desugar, DesugarAll, NoForIn, Locals, BlockOk, ExprOk, StepOk;
    var pair, body := [Declare(0, Literal(0)), WhileFor(s)], [Desugar(s), Return(None)];
    var p := Declared(body);
    BranchAccepted(s.body, e, [CALL], d => d == 0);
    DesugarAllKeepsForFree(s.body);
    DesugaredFor(s);
    PairAccepted(pair, WhileFor(s), p);
    NestedThenReturn(body, pair, p);
    BranchAccepted(s.body, e, [CALL], p);
    CountingHeadOk(s, limit, p);
  }

  /** The blocks of `for i 0:<limit { if true { f(i) } }` call f for 0, 2, 4, ...; they make
      the calls that are meant exactly if limit is at most 1. */
  lemma {:induction false} CompiledBranchLoopSkips(s: Stmt, limit: nat, f: Frame) returns (steps: nat)
    requires s == Counting(limit, [If(Literal(1), [CALL], [])]) && limit + 2 < 0x8000_0000_0000_0000
    ensures var body := [Desugar(s), Return(None)];
            var c := Run(Compiled(body, f), ENTRY, steps);
            && c.Halted? && c.trace == AllCalls(CallOf, Lt, 0, limit, 2)
            && (c.trace == Exec(s, limit + 1, f, Start(body, f)).1.trace <==> limit <= 1)
  {
    hide Run, Compiled, Emitted, Exec, BodyOk, Desugar, AllCalls;
    var st := Start([Desugar(s), Return(None)], f);
    BranchLoopIsAccepted(s, limit, Literal(1));
    NestedBlockStepsAgain(s, limit, limit + 1, f, st);
    assert st.trace + AllCalls(CallOf, Lt, 0, limit, 2) == AllCalls(CallOf, Lt, 0, limit, 2);
    steps := CompiledMakesEmittedCalls(s, limit + 1, f);
  }

  lemma GuardIsOk(c: BinOp, m: nat, p: DeclId -> bool)
    requires IsComparison(c) && p(0)
    ensures ExprOk(Guard(c, m), p)
  {}

  /** The blocks of `for i 0:<limit { if i c m { f(i) } }` make the calls that are meant exactly
      if no two numbers in a row below limit pass the test. */
  lemma {:induction false} CompiledGuardedLoopIsRightExactly(s: Stmt, limit: nat, c: BinOp, m: nat, f: Frame)
    returns (steps: nat)
    requires IsComparison(c) && s == Guarded(limit, c, m)
    requires limit + 2 < 0x8000_0000_0000_0000 && m < 0x8000_0000_0000_0000
    ensures var body := [Desugar(s), Return(None)];
            var end := Run(Compiled(body, f), ENTRY, steps);
            && end.Halted?
            && (end.trace == Exec(s, limit + 1, f, Start(body, f)).1.trace <==> NoneInARow(c, m, 0, limit))
  {
    hide Run, Compiled, Emitted, Exec, BodyOk, Desugar, AllCalls, CallsAlong, NoneInARow;
    forall p: DeclId -> bool | p(0) ensures ExprOk(Guard(c, m), p) { GuardIsOk(c, m, p); }
    BranchLoopIsAccepted(s, limit, Guard(c, m));
    GuardedLoopIsRightExactly(s, limit, c, m, limit + 1, f, Start([Desugar(s), Return(None)], f));
    steps := CompiledMakesEmittedCalls(s, limit + 1, f);
  }

  lemma CallAccepted(body: seq<Stmt>, p: DeclId -> bool)
    requires body == [CALL] && p(0)
    ensures Locals(body) == [] && NoForIn(body) && BlockOk(body, p, true)
  {
    NothingAfter(body, p, true);
    assert ExprOk(CALL.expr, p);
  }

  lemma FromHeadOk(s: Stmt, b: nat, limit: nat, step: Option<Expr>, k: nat, p: DeclId -> bool)
    requires s == From(b, limit, step) && StepIs(step, k) && p(0)
    ensures ExprOk(WhileFor(s).cond, p) && StepOk(StepFor(s), p)
  {}

  lemma {:induction false} FromIsAccepted(s: Stmt, b: nat, limit: nat, step: Option<Expr>, k: nat)
    requires s == From(b, limit, step) && StepIs(step, k)
    ensures BodyOk([Desugar(s), Return(None)])
  {
    hide Desugar, DesugarAll, NoForIn, Locals, BlockOk, ExprOk, StepOk;
    var pair, body := [Declare(0, Literal(b)), WhileFor(s)], [Desugar(s), Return(None)];
    var p := Declared(body);
    CallAccepted(s.body, d => d == 0);
    DesugarAllKeepsForFree(s.body);
    DesugaredFor(s);
    PairAccepted(pair, WhileFor(s), p);
    NestedThenReturn(body, pair, p);
    CallAccepted(s.body, p);
    FromHeadOk(s, b, limit, step, k, p);
  }

  /** The blocks of `for i b:<limit:k { f(i) }` call f for b, b + k, b + 2 * k and so on. */
  lemma {:induction false} CompiledStartsAndStepsAsWritten(s: Stmt, b: nat, limit: nat, step: Option<Expr>, k: nat,
                                                           f: Frame)
    returns (steps: nat)
    requires s == From(b, limit, step) && StepIs(step, k) && k > 0 && b <= LARGEST && limit + k <= LARGEST
    ensures Trips(Lt, b, limit, k) >= 0
    ensures var end := Run(Compiled([Desugar(s), Return(None)], f), ENTRY, steps);
            end.Halted? && end.trace == CallsFrom(CallOf, Lt, b, k, Trips(Lt, b, limit, k))
  {
    hide Run, Compiled, Emitted, Exec, BodyOk, Desugar, Trips, CallsFrom;
    FromIsAccepted(s, b, limit, step, k);
    OneTripLess(Lt, b, limit, k);
    var n := Trips(Lt, b, limit, k);
    var st := Start([Desugar(s), Return(None)], f);
    StartsAndStepsAsWritten(s, b, limit, step, k, n + 1, f, st);
    steps := CompiledMakesEmittedCalls(s, n + 1, f);
    assert st.trace + CallsFrom(CallOf, Lt, b, k, n) == CallsFrom(CallOf, Lt, b, k, n);
  }
}
