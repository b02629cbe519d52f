// Range loops whose begin and step are written: where they start and how they move.
module WrittenRanges {
  import opened Words
  import opened NumberLaws
  import opened Tree
  import opened Source
  import opened CounterWords
  import opened Desugaring
  import opened ForLoops
  import opened ForRange
  import opened LoopExamples

  const LARGEST: nat := 0x7FFF_FFFF_FFFF_FFFF

  /** `for i b:<limit:k { f(i) }`, i being local 0; without the step where that is None. */
  function From(b: nat, limit: nat, step: Option<Expr>): Stmt
  {
    For(0, CounterTypes(I64, I64, I64), Some(Literal(b)), Lt, Literal(limit), step, [CALL])
  }

  /** The step is written as k, or left out for 1. */
  predicate StepIs(step: Option<Expr>, k: nat) { step == Some(Literal(k)) || (step == None && k == 1) }

  lemma FromIsConstant(s: Stmt, b: nat, limit: nat, step: Option<Expr>, k: nat, f: Frame, st: State)
    requires s == From(b, limit, step) && StepIs(step, k) && b <= LARGEST && limit <= LARGEST && k <= LARGEST
    ensures Constant(s, limit, k, f) && StartNumber(s, f, st) == b && StartCalls(s, f, st) == st.trace
    ensures IsWord(s, Begun(s, f, st))
  {
    hide Pow2, Decode, InRange;
    NumbersFit(limit);
    NumbersFit(b);
    PowersOf(s.ty.counter.Width());
    ModUnique(0, Pow2(s.ty.counter.Width()), 0, 0);
  }

  lemma {:induction false} FromFits(b: nat, limit: nat, k: nat)
    requires k > 0 && b <= LARGEST && limit + k <= LARGEST
    ensures var n := Trips(Lt, b, limit, k); n >= 0 && InRange(b + n * k, I64)
  {
    hide InRange;
    if b < limit {
      var q, d := (limit - b + k - 1) / k, limit - b;
      assert q * k + (d + k - 1) % k == d + k - 1;
      NumbersFit(b + q * k);
    } else {
      NumbersFit(b);
    }
  }

  lemma CallMakesCalls(s: Stmt, f: Frame)
    requires s.For? && s.body == [CALL] && s.counter == 0 && s.ty.counter == I64
    ensures MakesCalls(s, CallOf, f) && RunsThrough(s.body, 0, f) && Within(s.body, 0, f)
  {
    hide ExecBlock, Exec;
    forall fuel: nat, st: State ensures ExecBlock(s.body, fuel, f, st) == (Normal, Called(st)) {
      CallMakes(fuel, f, st);
      OnlyStatement(s.body, fuel, f, st);
    }
    BranchMakesCalls(s, f);
  }

  lemma FromIsSupported(s: Stmt, b: nat, limit: nat, step: Option<Expr>, k: nat)
    requires s == From(b, limit, step) && StepIs(step, k)
    ensures Supported(s, {0})
  {
    assert s.body[1..] == [] && AllInForBody(s.body[1..], 0, {0});
    assert Avoids(CALL.expr, {0} - {0});
    assert InForBody(s.body[0], 0, {0});
  }

  /** It calls f for b, b + k, b + 2 * k and so on, as long as that is below limit, and so does
      its emitted form. */
  lemma {:induction false} StartsAndStepsAsWritten(s: Stmt, b: nat, limit: nat, step: Option<Expr>, k: nat, fuel: nat,
                                                   f: Frame, st: State)
    requires s == From(b, limit, step) && StepIs(step, k) && k > 0 && b <= LARGEST && limit + k <= LARGEST
    requires fuel > Trips(Lt, b, limit, k)
    ensures Trips(Lt, b, limit, k) >= 0
    ensures Exec(s, fuel, f, st).0 == Emitted(Desugar(s), [], fuel, f, st).0 == Normal
    ensures Exec(s, fuel, f, st).1.trace == Emitted(Desugar(s), [], fuel, f, st).1.trace
            == st.trace + CallsFrom(CallOf, Lt, b, k, Trips(Lt, b, limit, k))
  {
    hide Exec, Emitted, Trips, RunsThrough, Within, MakesCalls, Constant, CallOf, Supported, InRange, OrLiteral, Pow2;
    FromIsConstant(s, b, limit, step, k, f, st);
    FromFits(b, limit, k);
    CallMakesCalls(s, f);
    FromIsSupported(s, b, limit, step, k);
    RangeCalls(s, limit, k, Trips(Lt, b, limit, k), 0, fuel, f, st, CallOf);
    ForAgrees(s, {0}, [], fuel, f, st, st);
  }

  lemma {:induction false} NextCall(b: nat, limit: nat, k: nat)
    requires k > 0 && b <= LARGEST
    ensures Trips(Lt, b, limit, k) >= 0 && Trips(Lt, b + k, limit, k) >= 0
    ensures CallsFrom(CallOf, Lt, b, k, Trips(Lt, b, limit, k)) ==
            if b < limit then [Event("f", [b])] + CallsFrom(CallOf, Lt, b + k, k, Trips(Lt, b + k, limit, k)) else []
  {
    hide Trips, CallOf;
    OneTripLess(Lt, b, limit, k);
    OneTripLess(Lt, b + k, limit, k);
    CallOfNumber(b);
  }

  /** So `for i 3:<5 { f(i) }` calls f(3) and f(4), and `for i 3:<10:4 { f(i) }` f(3) and f(7). */
  lemma {:induction false} StartsAtThree(s: Stmt, t: Stmt, fuel: nat, f: Frame, st: State)
    requires s == From(3, 5, None) && t == From(3, 10, Some(Literal(4))) && fuel > 2
    ensures Exec(s, fuel, f, st).1.trace == Emitted(Desugar(s), [], fuel, f, st).1.trace
            == st.trace + [Event("f", [3]), Event("f", [4])]
    ensures Exec(t, fuel, f, st).1.trace == Emitted(Desugar(t), [], fuel, f, st).1.trace
            == st.trace + [Event("f", [3]), Event("f", [7])]
  {
    hide Exec, Emitted, CallsFrom, CallOf, Desugar;
    StartsAndStepsAsWritten(s, 3, 5, None, 1, fuel, f, st);
    NextCall(3, 5, 1);
    NextCall(4, 5, 1);
    NextCall(5, 5, 1);
    StartsAndStepsAsWritten(t, 3, 10, Some(Literal(4)), 4, fuel, f, st);
    NextCall(3, 10, 4);
    NextCall(7, 10, 4);
    NextCall(11, 10, 4);
  }
}
