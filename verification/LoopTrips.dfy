// When a whole range loop, outside the fragment or in it, makes the calls that are meant.
module LoopTrips {
  import opened Words
  import opened Tree
  import opened Source
  import opened CounterWords
  import opened Desugaring
  import opened ForLoops
  import opened ForRange
  import opened StepCount
  import opened LoopExits
  import opened OutsideFragment

  // ----- how many calls -----

  /** The calls of all rounds from b, in steps of k. */
  function AllCalls(calls: int -> seq<Event>, cmp: BinOp, b: int, limit: int, k: int): seq<Event>
    requires IsRange(cmp) && k > 0
  {
    OneTripLess(cmp, b, limit, k);
    CallsFrom(calls, cmp, b, k, Trips(cmp, b, limit, k))
  }

  /** A round, if there is one, and then the rest. */
  lemma {:induction false} FirstRound(calls: int -> seq<Event>, cmp: BinOp, b: int, limit: int, k: int)
    requires IsRange(cmp) && k > 0
    ensures Holds(cmp, b, limit) <==> Trips(cmp, b, limit, k) > 0
    ensures Trips(cmp, b, limit, k) >= 0
    ensures Holds(cmp, b, limit) ==> Trips(cmp, Moved(cmp, b, k), limit, k) == Trips(cmp, b, limit, k) - 1
    ensures AllCalls(calls, cmp, b, limit, k) ==
            if Holds(cmp, b, limit) then calls(b) + AllCalls(calls, cmp, Moved(cmp, b, k), limit, k) else []
  {
    hide Trips;
    OneTripLess(cmp, b, limit, k);
    assert b + Signum(cmp) * k == Moved(cmp, b, k);
  }

  ghost predicate NeverSilent(calls: int -> seq<Event>)
  {
    forall b: int :: calls(b) != []
  }

  // ----- calls made and calls left out -----

  /** How often a round takes the step. */
  type Count = n: nat | n > 0 witness 1

  function Distance(cmp: BinOp, b: int, limit: int): int
  {
    1 + if cmp in {Lt, Le} then limit - b else b - limit
  }

  /** The calls of the rounds from b, if the round of each b takes n(b) steps of k. */
  function CallsAlong(calls: int -> seq<Event>, n: int -> Count, cmp: BinOp, b: int, limit: int, k: int): seq<Event>
    requires IsRange(cmp) && k > 0
    decreases Distance(cmp, b, limit)
  {
    if !Holds(cmp, b, limit) then [] else
    MultipleIsFar(n(b), k);
    calls(b) + CallsAlong(calls, n, cmp, Moved(cmp, b, n(b) * k), limit, k)
  }

  /** The calls of the next j rounds in steps of k, as far as there are any. */
  function Between(calls: int -> seq<Event>, cmp: BinOp, b: int, limit: int, k: int, j: nat): seq<Event>
    decreases j
  {
    if j == 0 || !Holds(cmp, b, limit) then []
    else calls(b) + Between(calls, cmp, Moved(cmp, b, k), limit, k, j - 1)
  }

  /** The calls of the rounds in steps of k that are left out on the way. */
  function Skipped(calls: int -> seq<Event>, n: int -> Count, cmp: BinOp, b: int, limit: int, k: int): seq<Event>
    requires IsRange(cmp) && k > 0
    decreases Distance(cmp, b, limit)
  {
    if !Holds(cmp, b, limit) then [] else
    MultipleIsFar(n(b), k);
    Between(calls, cmp, Moved(cmp, b, k), limit, k, n(b) - 1)
    + Skipped(calls, n, cmp, Moved(cmp, b, n(b) * k), limit, k)
  }

  /** The next j rounds, and those behind them. */
  lemma {:induction false} NextRounds(calls: int -> seq<Event>, cmp: BinOp, b: int, limit: int, k: int, j: nat)
    requires IsRange(cmp) && k > 0
    ensures var later := Moved(cmp, b, j * k);
            && AllCalls(calls, cmp, b, limit, k) ==
               Between(calls, cmp, b, limit, k, j) + AllCalls(calls, cmp, later, limit, k)
            && 0 <= Trips(cmp, later, limit, k) <= Trips(cmp, b, limit, k)
    decreases j
  {
    hide Trips, AllCalls;
    FirstRound(calls, cmp, b, limit, k);
    if j > 0 {
      var next := Moved(cmp, b, k);
      assert j * k == (j - 1) * k + k;
      assert Moved(cmp, next, (j - 1) * k) == Moved(cmp, b, j * k);
      NextRounds(calls, cmp, next, limit, k, j - 1);
      if !Holds(cmp, b, limit) {
        FirstRound(calls, cmp, next, limit, k);
        MultipleIsFar(j, k);
        FirstRound(calls, cmp, Moved(cmp, b, j * k), limit, k);
      }
    }
  }

  /** A round that is made, those it leaves out, and the rest. */
  lemma {:induction false} RoundAndSkipped(calls: int -> seq<Event>, n: int -> Count, cmp: BinOp, b: int, limit: int,
                                           k: int)
    requires IsRange(cmp) && k > 0 && Holds(cmp, b, limit)
    ensures var far := Moved(cmp, b, n(b) * k);
            && AllCalls(calls, cmp, b, limit, k) ==
               calls(b) + (Between(calls, cmp, Moved(cmp, b, k), limit, k, n(b) - 1)
                           + AllCalls(calls, cmp, far, limit, k))
            && 0 <= Trips(cmp, far, limit, k) < Trips(cmp, b, limit, k)
  {
    hide Trips, AllCalls;
    var next := Moved(cmp, b, k);
    FirstRound(calls, cmp, b, limit, k);
    NextRounds(calls, cmp, next, limit, k, n(b) - 1);
    assert n(b) * k == (n(b) - 1) * k + k;
    assert Moved(cmp, next, (n(b) - 1) * k) == Moved(cmp, b, n(b) * k);
  }

  /** Every call that is meant is made or left out. */
  lemma {:induction false} MadeOrSkipped(calls: int -> seq<Event>, n: int -> Count, cmp: BinOp, b: int, limit: int,
                                         k: int)
    requires IsRange(cmp) && k > 0
    ensures |AllCalls(calls, cmp, b, limit, k)| ==
            |CallsAlong(calls, n, cmp, b, limit, k)| + |Skipped(calls, n, cmp, b, limit, k)|
    decreases Distance(cmp, b, limit)
  {
    hide Trips, AllCalls;
    if Holds(cmp, b, limit) {
      MultipleIsFar(n(b), k);
      RoundAndSkipped(calls, n, cmp, b, limit, k);
      MadeOrSkipped(calls, n, cmp, Moved(cmp, b, n(b) * k), limit, k);
    } else {
      FirstRound(calls, cmp, b, limit, k);
    }
  }

  lemma {:induction false} NothingSkipped(calls: int -> seq<Event>, n: int -> Count, cmp: BinOp, b: int, limit: int,
                                          k: int)
    requires IsRange(cmp) && k > 0 && Skipped(calls, n, cmp, b, limit, k) == []
    ensures AllCalls(calls, cmp, b, limit, k) == CallsAlong(calls, n, cmp, b, limit, k)
    decreases Distance(cmp, b, limit)
  {
    hide Trips, AllCalls;
    if Holds(cmp, b, limit) {
      MultipleIsFar(n(b), k);
      RoundAndSkipped(calls, n, cmp, b, limit, k);
      NothingSkipped(calls, n, cmp, Moved(cmp, b, n(b) * k), limit, k);
    } else {
      FirstRound(calls, cmp, b, limit, k);
    }
  }

  /** The calls are those meant exactly if the rounds left out make none. */
  lemma {:induction false} SameCallsUnlessSkipped(calls: int -> seq<Event>, n: int -> Count, cmp: BinOp, b: int,
                                                  limit: int, k: int)
    requires IsRange(cmp) && k > 0
    ensures AllCalls(calls, cmp, b, limit, k) == CallsAlong(calls, n, cmp, b, limit, k)
            <==> Skipped(calls, n, cmp, b, limit, k) == []
  {
    hide AllCalls, CallsAlong, Skipped;
    MadeOrSkipped(calls, n, cmp, b, limit, k);
    if Skipped(calls, n, cmp, b, limit, k) == [] {
      NothingSkipped(calls, n, cmp, b, limit, k);
    }
  }

  // ----- rounds that take equally many steps -----

  function Evenly(n: Count): int -> Count { (_: int) => n }

  lemma {:induction false} AlongEvenly(calls: int -> seq<Event>, n: Count, cmp: BinOp, b: int, limit: int, k: int)
    requires IsRange(cmp) && k > 0 && n * k > 0
    ensures CallsAlong(calls, Evenly(n), cmp, b, limit, k) == AllCalls(calls, cmp, b, limit, n * k)
    decreases Distance(cmp, b, limit)
  {
    hide Trips, AllCalls;
    FirstRound(calls, cmp, b, limit, n * k);
    if Holds(cmp, b, limit) {
      AlongEvenly(calls, n, cmp, Moved(cmp, b, n * k), limit, k);
    }
  }

  lemma {:induction false} SkippedEvenly(calls: int -> seq<Event>, n: Count, cmp: BinOp, b: int, limit: int, k: int)
    requires IsRange(cmp) && k > 0 && NeverSilent(calls)
    ensures Skipped(calls, Evenly(n), cmp, b, limit, k) == [] <==> n == 1 || Trips(cmp, b, limit, k) <= 1
    decreases Distance(cmp, b, limit)
  {
    hide Trips, AllCalls;
    FirstRound(calls, cmp, b, limit, k);
    if Holds(cmp, b, limit) {
      var next := Moved(cmp, b, k);
      FirstRound(calls, cmp, next, limit, k);
      MultipleIsFar(n, k);
      if n == 1 {
        SkippedEvenly(calls, n, cmp, Moved(cmp, b, n * k), limit, k);
      }
    }
  }

  /** In steps of n * k the calls are those made in steps of k exactly if n is 1 or there is at
      most one round. */
  lemma {:induction false} SameCallsExactly(calls: int -> seq<Event>, cmp: BinOp, b: int, limit: int, k: int, n: Count)
    requires IsRange(cmp) && k > 0 && n * k > 0 && NeverSilent(calls)
    ensures AllCalls(calls, cmp, b, limit, n * k) == AllCalls(calls, cmp, b, limit, k)
            <==> n == 1 || Trips(cmp, b, limit, k) <= 1
  {
    hide Trips, AllCalls, CallsAlong, Skipped;
    SameCallsUnlessSkipped(calls, Evenly(n), cmp, b, limit, k);
    AlongEvenly(calls, n, cmp, b, limit, k);
    SkippedEvenly(calls, n, cmp, b, limit, k);
  }

  // ----- whole loops -----

  /** Every round that goes on to another, from a state in which the counter is a word, emits
      the step as often as n says for the counter's number. */
  ghost predicate EmitsAt(s: Stmt, n: int -> Count, f: Frame)
    requires s.For?
  {
    forall fuel: nat, st: State :: IsWord(s, st) && GoesOn(s, fuel, f, st) ==>
      StepsOfRound(s, fuel, f, st) == n(Number(s, st))
  }

  lemma EmitsThen(s: Stmt, n: int -> Count, fuel: nat, f: Frame, st: State)
    requires s.For? && EmitsAt(s, n, f) && IsWord(s, st) && GoesOn(s, fuel, f, st)
    ensures StepsOfRound(s, fuel, f, st) == n(Number(s, st))
  {}

  lemma AlwaysEmitsEvenly(s: Stmt, n: Count, f: Frame)
    requires s.For? && AlwaysEmits(s, n, f)
    ensures EmitsAt(s, Evenly(n), f)
  {
    forall fuel: nat, st: State | IsWord(s, st) && GoesOn(s, fuel, f, st)
      ensures StepsOfRound(s, fuel, f, st) == Evenly(n)(Number(s, st))
    {
      EmitsNow(s, n, fuel, f, st);
    }
  }

  /** A loop over a constant range in steps of k, whose rounds run through, emit the step as
      often as n says, and make the calls that `calls` gives for the counter. */
  ghost predicate RangeLoop(s: Stmt, K: set<DeclId>, limit: int, k: int, n: int -> Count, depth: nat, f: Frame,
                            calls: int -> seq<Event>)
  {
    && Constant(s, limit, k, f) && k > 0
    && RunsThrough(s.body, s.counter, f) && Within(s.body, depth, f) && MakesCalls(s, calls, f)
    && Steady(s, K) && EmitsAt(s, n, f)
  }

  /** The value behind the last of the rounds is representable. */
  ghost predicate Fits(s: Stmt, b: int, limit: int, k: int)
    requires s.For? && k > 0
  {
    InRange(b + Signum(s.cmp) * (Trips(s.cmp, b, limit, k) * k), s.ty.counter)
  }

  /** So is every value to which the rounds that are made move the counter. */
  ghost predicate FitsAlong(cmp: BinOp, ty: IntType, n: int -> Count, b: int, limit: int, k: int)
    requires IsRange(cmp) && k > 0
    decreases Distance(cmp, b, limit)
  {
    if !Holds(cmp, b, limit) then true else
    MultipleIsFar(n(b), k);
    var far := Moved(cmp, b, n(b) * k);
    InRange(far, ty) && FitsAlong(cmp, ty, n, far, limit, k)
  }

  /** It is if no round takes more than m steps and m steps behind the limit are representable. */
  lemma {:induction false} BoundedFits(cmp: BinOp, ty: IntType, n: int -> Count, m: nat, b: int, limit: int, k: int)
    requires IsRange(cmp) && k > 0 && InRange(b, ty) && InRange(Moved(cmp, limit, m * k), ty)
    requires forall v: int :: n(v) <= m
    ensures FitsAlong(cmp, ty, n, b, limit, k)
    decreases Distance(cmp, b, limit)
  {
    hide InRange;
    if Holds(cmp, b, limit) {
      MultipleIsFar(n(b), k);
      NoFarther(n(b), m, k);
      var far := Moved(cmp, b, n(b) * k);
      RangesAreConvex(ty, b, far, Moved(cmp, limit, m * k));
      BoundedFits(cmp, ty, n, m, far, limit, k);
    }
  }

  lemma {:induction false} NoFarther(n: nat, m: nat, k: int)
    requires n <= m && k > 0
    ensures n * k <= m * k
  {
    assert m * k == n * k + (m - n) * k && (m - n) * k >= 0;
  }

  lemma RangesAreConvex(ty: IntType, a: int, b: int, c: int)
    requires InRange(a, ty) && InRange(c, ty) && (a <= b <= c || c <= b <= a)
    ensures InRange(b, ty)
  {
    hide Pow2;
  }

  /** With equally many steps the last value decides. */
  lemma {:induction false} EvenlyFits(cmp: BinOp, ty: IntType, n: Count, b: int, limit: int, k: int, trips: nat)
    requires IsRange(cmp) && k > 0 && n * k > 0 && trips == Trips(cmp, b, limit, n * k)
    requires InRange(b, ty) && InRange(b + Signum(cmp) * (trips * (n * k)), ty)
    ensures FitsAlong(cmp, ty, Evenly(n), b, limit, k)
    decreases trips
  {
    hide Trips, InRange;
    OneTripLess(cmp, b, limit, n * k);
    if Holds(cmp, b, limit) {
      assert Moved(cmp, b, n * k) == b + Signum(cmp) * (n * k);
      NextInRange(b, Signum(cmp), trips, n * k, ty);
      EvenlyFits(cmp, ty, n, Moved(cmp, b, n * k), limit, k, trips - 1);
    }
  }

  lemma {:induction false} MultiplesAgree(n: nat, a: int, k: int, m: int)
    requires m > 0 && (a - k) % m == 0
    ensures (n * a) % m == (n * k) % m
  {
    assert a - k == ((a - k) / m) * m;
    assert n * a - n * k == n * (a - k);
    assert n * (((a - k) / m) * m) == (n * ((a - k) / m)) * m;
    ModUnique(n * a - n * k, m, n * ((a - k) / m), 0);
    DifferenceVanishes(n * a, n * k, m);
  }

  /** A round that takes n(b) steps moves the number b by n(b) times k. */
  lemma {:induction false} CounterMovesOn(s: Stmt, limit: int, k: int, n: Count, f: Frame, x: int)
    requires Constant(s, limit, k, f)
    requires InRange(Moved(s.cmp, Decode(s.ty.counter, x), n * k), s.ty.counter)
    ensures var y := Shifted(MotionOf(s), n, x, f);
            && Decode(s.ty.counter, y) == Moved(s.cmp, Decode(s.ty.counter, x), n * k)
            && 0 <= y < Pow2(s.ty.counter.Width())
  {
    hide Decode, Pow2, InRange, NextWord, Shifted;
    var amount, m := Amount(StepAmount(s), f), Pow2(s.ty.counter.Width());
    ShiftedIsMultiplied(MotionOf(s), n, x, f);
    MultiplesAgree(n, amount, k, m);
    NextNumber(s.cmp, s.ty, x, n * amount, n * k, f.world.undef);
    NextModulo(s.cmp, s.ty, x, n * amount, f.world.undef);
  }

  /** The emitted round, and the state in which the next one is tested. */
  lemma {:induction false} EmittedRound(s: Stmt, K: set<DeclId>, limit: int, k: int, n: int -> Count, depth: nat,
                                        fuel: nat, f: Frame, st: State, calls: int -> seq<Event>)
    returns (st1: State)
    requires RangeLoop(s, K, limit, k, n, depth, f, calls) && IsWord(s, st)
    requires var b := Number(s, st);
             Holds(s.cmp, b, limit) && fuel > depth && InRange(Moved(s.cmp, b, n(b) * k), s.ty.counter)
    ensures var b := Number(s, st);
            && Emitted(WhileFor(s), [], fuel, f, st) == Emitted(WhileFor(s), [], fuel - 1, f, st1)
            && st1.trace == st.trace + calls(b)
            && IsWord(s, st1) && Number(s, st1) == Moved(s.cmp, b, n(b) * k)
  {
    hide Tested, Decode, Pow2, InRange, Steady, Shifted, EmitsAt, MakesCalls, EmittedBlock, ExecBlock;
    var b, w, x := Number(s, st), WhileFor(s), Get(st.env, s.counter);
    TestedAsNumber(s, limit, k, f, st);
    RoundMovesPerEmission(s, K, fuel - 1, f, st, st);
    var r := ExecBlock(s.body, fuel - 1, f, st);
    assert r.0 != Timeout && Through(r) && Get(r.1.env, s.counter) == x;
    CallsMade(s, calls, fuel - 1, f, st);
    EmitsThen(s, n, fuel - 1, f, st);
    CounterMovesOn(s, limit, k, n(b), f, x);
    assert [] + [StepFor(s)] == [StepFor(s)];
    st1 := EmittedBlock(w.body, [StepFor(s)], fuel - 1, f, st).1;
  }

  lemma {:induction false} TestedAsNumber(s: Stmt, limit: int, k: int, f: Frame, st: State)
    requires Constant(s, limit, k, f)
    ensures var (v, tr) := Eval(WhileFor(s).cond, f, st.env, st.trace);
            Truth(v) == Holds(s.cmp, Number(s, st), limit) && tr == st.trace
    ensures st.(trace := st.trace) == st
  {
    hide Tested, Decode, Pow2;
    WhileFormTest(s, f, st);
    FixedIsFixed(s.end, f, st.env, st.trace);
    TestedNumber(s.cmp, s.ty, Get(st.env, s.counter), Amount(s.end, f), f.world.undef);
  }

  lemma FirstAlong(calls: int -> seq<Event>, n: int -> Count, cmp: BinOp, ty: IntType, b: int, limit: int, k: int)
    requires IsRange(cmp) && k > 0
    ensures var far := Moved(cmp, b, n(b) * k);
            && CallsAlong(calls, n, cmp, b, limit, k) ==
               (if Holds(cmp, b, limit) then calls(b) + CallsAlong(calls, n, cmp, far, limit, k) else [])
            && (FitsAlong(cmp, ty, n, b, limit, k) && Holds(cmp, b, limit) ==>
                  InRange(far, ty) && FitsAlong(cmp, ty, n, far, limit, k))
  {
    hide InRange;
  }

  /** As emitted, such a loop makes the rounds to which its steps lead. */
  lemma {:induction false} EmittedCallsAlong(s: Stmt, K: set<DeclId>, limit: int, k: int, n: int -> Count, depth: nat,
                                             fuel: nat, f: Frame, st: State, calls: int -> seq<Event>)
    requires RangeLoop(s, K, limit, k, n, depth, f, calls) && IsWord(s, st)
    requires FitsAlong(s.cmp, s.ty.counter, n, Number(s, st), limit, k)
    requires fuel > Trips(s.cmp, Number(s, st), limit, k) + depth
    ensures var r := Emitted(WhileFor(s), [], fuel, f, st);
            r.0 == Normal && r.1.trace == st.trace + CallsAlong(calls, n, s.cmp, Number(s, st), limit, k)
    decreases fuel
  {
    hide RangeLoop, Trips, InRange, Number, IsWord, WhileFor, AllCalls, Between, Emitted, CallsAlong, FitsAlong,
      Holds, Moved, Constant;
    RangeLoopIsConstant(s, K, limit, k, n, depth, f, calls);
    var b := Number(s, st);
    var far := Moved(s.cmp, b, n(b) * k);
    FirstRound(calls, s.cmp, b, limit, k);
    FirstAlong(calls, n, s.cmp, s.ty.counter, b, limit, k);
    if Holds(s.cmp, b, limit) {
      RoundAndSkipped(calls, n, s.cmp, b, limit, k);
      var st1 := EmittedRound(s, K, limit, k, n, depth, fuel, f, st, calls);
      EmittedCallsAlong(s, K, limit, k, n, depth, fuel - 1, f, st1, calls);
      var rest := CallsAlong(calls, n, s.cmp, far, limit, k);
      Regrouped(st.trace, calls(b), rest);
    } else {
      NoEmittedRound(s, limit, k, fuel, f, st);
      assert st.trace + [] == st.trace;
    }
  }

  lemma Regrouped(a: seq<Event>, b: seq<Event>, c: seq<Event>)
    ensures a + b + c == a + (b + c)
  {}

  lemma RangeLoopIsConstant(s: Stmt, K: set<DeclId>, limit: int, k: int, n: int -> Count, depth: nat, f: Frame,
                            calls: int -> seq<Event>)
    requires RangeLoop(s, K, limit, k, n, depth, f, calls)
    ensures s.For? && IsRange(s.cmp) && k > 0 && Constant(s, limit, k, f)
  {
    hide RunsThrough, Within, MakesCalls, Steady, EmitsAt;
  }

  lemma NoEmittedRound(s: Stmt, limit: int, k: int, fuel: nat, f: Frame, st: State)
    requires Constant(s, limit, k, f) && fuel > 0 && !Holds(s.cmp, Number(s, st), limit)
    ensures Emitted(WhileFor(s), [], fuel, f, st) == (Normal, st)
  {
    hide Constant;
    IsConstant(s, limit, k, f);
    TestedAsNumber(s, limit, k, f, st);
  }

  /** Such a loop, desugared and emitted, makes the rounds to which its steps lead, where all
      rounds in steps of k are meant. Its calls are those meant exactly if the rounds that it
      leaves out make none. */
  lemma {:induction false} RightUnlessSkipped(s: Stmt, K: set<DeclId>, limit: int, k: int, n: int -> Count, depth: nat,
                                              fuel: nat, f: Frame, st: State, calls: int -> seq<Event>)
    requires RangeLoop(s, K, limit, k, n, depth, f, calls) && IsWord(s, Begun(s, f, st))
    requires var b := StartNumber(s, f, st);
             && Fits(s, b, limit, k) && FitsAlong(s.cmp, s.ty.counter, n, b, limit, k)
             && fuel > Trips(s.cmp, b, limit, k) + depth
    ensures var start, b := StartCalls(s, f, st), StartNumber(s, f, st);
            var meant, done := Exec(s, fuel, f, st), Emitted(Desugar(s), [], fuel, f, st);
            && meant.0 == done.0 == Normal
            && meant.1.trace == start + AllCalls(calls, s.cmp, b, limit, k)
            && done.1.trace == start + CallsAlong(calls, n, s.cmp, b, limit, k)
            && (meant.1.trace == done.1.trace <==> Skipped(calls, n, s.cmp, b, limit, k) == [])
  {
    hide Constant, RunsThrough, Within, MakesCalls, Steady, EmitsAt, Trips, InRange, Exec, Emitted, CallsAlong, Skipped;
    IsConstant(s, limit, k, f);
    var st1, b := Begun(s, f, st), StartNumber(s, f, st);
    BegunAsWritten(s, f, st);
    OneTripLess(s.cmp, b, limit, k);
    RangeCalls(s, limit, k, Trips(s.cmp, b, limit, k), depth, fuel, f, st, calls);
    EmittedLoop(s, fuel, f, st);
    EmittedCallsAlong(s, K, limit, k, n, depth, fuel, f, st1, calls);
    SameCallsUnlessSkipped(calls, n, s.cmp, b, limit, k);
    SameEnds(st1.trace, AllCalls(calls, s.cmp, b, limit, k), CallsAlong(calls, n, s.cmp, b, limit, k));
  }

  /** If every round takes n steps and makes calls, they are those meant exactly if n is 1 or at
      most one round is meant. */
  lemma {:induction false} LoopIsRightExactly(s: Stmt, K: set<DeclId>, limit: int, k: int, n: Count, depth: nat,
                                              fuel: nat, f: Frame, st: State, calls: int -> seq<Event>)
    requires RangeLoop(s, K, limit, k, Evenly(n), depth, f, calls) && n * k > 0 && NeverSilent(calls)
    requires IsWord(s, Begun(s, f, st))
    requires var b := StartNumber(s, f, st);
             && Fits(s, b, limit, k) && Fits(s, b, limit, n * k)
             && fuel > Trips(s.cmp, b, limit, k) + depth
    ensures var start, b := StartCalls(s, f, st), StartNumber(s, f, st);
            var meant, done := Exec(s, fuel, f, st), Emitted(Desugar(s), [], fuel, f, st);
            && meant.0 == done.0 == Normal
            && meant.1.trace == start + AllCalls(calls, s.cmp, b, limit, k)
            && done.1.trace == start + AllCalls(calls, s.cmp, b, limit, n * k)
            && (meant.1.trace == done.1.trace <==> n == 1 || Trips(s.cmp, b, limit, k) <= 1)
  {
    hide Constant, RunsThrough, Within, MakesCalls, Steady, EmitsAt, Trips, InRange, Exec, Emitted, CallsAlong, Skipped,
      AllCalls;
    IsConstant(s, limit, k, f);
    BegunAsWritten(s, f, st);
    EvenLoopFits(s, limit, k, n, f, Begun(s, f, st));
    RightUnlessSkipped(s, K, limit, k, Evenly(n), depth, fuel, f, st, calls);
    var b := StartNumber(s, f, st);
    AlongEvenly(calls, n, s.cmp, b, limit, k);
    SkippedEvenly(calls, n, s.cmp, b, limit, k);
  }

  lemma EvenLoopFits(s: Stmt, limit: int, k: int, n: Count, f: Frame, st: State)
    requires Constant(s, limit, k, f) && k > 0 && n * k > 0 && Fits(s, Number(s, st), limit, n * k)
    ensures FitsAlong(s.cmp, s.ty.counter, Evenly(n), Number(s, st), limit, k)
  {
    hide Trips, InRange, Decode, FitsAlong;
    NumberInRange(s, st);
    OneTripLess(s.cmp, Number(s, st), limit, n * k);
    EvenlyFits(s.cmp, s.ty.counter, n, Number(s, st), limit, k, Trips(s.cmp, Number(s, st), limit, n * k));
  }

  lemma SameEnds(a: seq<Event>, b: seq<Event>, c: seq<Event>)
    ensures a + b == a + c <==> b == c
  {
    if a + b == a + c {
      assert b == (a + b)[|a|..] && c == (a + c)[|a|..];
    }
  }
}
