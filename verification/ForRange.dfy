// How often a for loop over a constant range runs, with which counter values and calls.
module ForRange {
  import opened Words
  import opened Tree
  import opened Source
  import opened CounterWords
  import opened Desugaring

  /** The number of rounds from b to limit in steps of k, for each of the four range
      operators. */
  function Trips(cmp: BinOp, b: int, limit: int, k: int): int
    requires k > 0
  {
    var d := if cmp in {Lt, Le} then limit - b else b - limit;
    if cmp in {Lt, Gt} then (if d <= 0 then 0 else (d + k - 1) / k)
    else (if d < 0 then 0 else d / k + 1)
  }

  /** An amount that is the same at all times. */
  predicate Fixed(e: Expr)
  {
    match e
    case Literal(_) => true
    case Argument(_) => true
    case Binary(_, _, l, r) => Fixed(l) && Fixed(r)
    case Logical(_, l, r) => Fixed(l) && Fixed(r)
    case Cast(_, _, x) => Fixed(x)
    case _ => false
  }

  function Amount(e: Expr, f: Frame): int { Eval(e, f, map[], []).0 }

  lemma {:induction false} FixedIsFixed(e: Expr, f: Frame, env: Env, tr: seq<Event>)
    requires Fixed(e)
    ensures Eval(e, f, env, tr) == (Amount(e, f), tr)
  {
    match e
    case Binary(_, _, l, r) =>
      FixedIsFixed(l, f, env, tr);
      FixedIsFixed(r, f, env, tr);
      FixedIsFixed(l, f, map[], []);
      FixedIsFixed(r, f, map[], []);
    case Logical(_, l, r) =>
      FixedIsFixed(l, f, env, tr);
      FixedIsFixed(r, f, env, tr);
      FixedIsFixed(l, f, map[], []);
      FixedIsFixed(r, f, map[], []);
    case Cast(_, _, x) =>
      FixedIsFixed(x, f, env, tr);
      FixedIsFixed(x, f, map[], []);
    case _ =>
  }

  function StepAmount(s: Stmt): Expr
    requires s.For?
  {
    match s.step case None => Literal(1) case Some(e) => e
  }

  lemma StepAmountIsMeant(s: Stmt, f: Frame, st: State)
    requires s.For?
    ensures StepAmount(s) == OrLiteral(s.step, 1)
    ensures MovesBy(s.step, f, st) == Eval(StepAmount(s), f, st.env, st.trace)
  {}

  /** End and step are the numbers limit and k at all times, k up to the counter's width. */
  predicate Constant(s: Stmt, limit: int, k: int, f: Frame)
  {
    && s.For? && IsRange(s.cmp) && Fitting(s.ty)
    && Fixed(s.end) && limit == Decode(s.ty.test, Amount(s.end, f))
    && Fixed(StepAmount(s)) && (Amount(StepAmount(s), f) - k) % Pow2(s.ty.counter.Width()) == 0
  }

  /** Any fixed end and step are constant: the numbers that they stand for. */
  lemma FixedIsConstant(s: Stmt, f: Frame)
    requires s.For? && IsRange(s.cmp) && Fitting(s.ty) && Fixed(s.end) && Fixed(StepAmount(s))
    ensures Constant(s, Decode(s.ty.test, Amount(s.end, f)), Decode(s.ty.next, Amount(StepAmount(s), f)), f)
  {
    hide Decode, Pow2;
    var x, m := Amount(StepAmount(s), f), Pow2(s.ty.counter.Width());
    var c := PowersDivide(s.ty.counter.Width(), s.ty.next.Width());
    DecodesModulo(s.ty.next, x);
    CoarserModulus(x, Decode(s.ty.next, x), c, m);
    DifferenceVanishes(x, Decode(s.ty.next, x), m);
  }

  /** The counter, as the number it stands for. */
  function Number(s: Stmt, st: State): int
    requires s.For?
  {
    Decode(s.ty.counter, Get(st.env, s.counter))
  }

  /** The body completes or continues, whatever the state, and leaves the counter alone. */
  ghost predicate RunsThrough(body: seq<Stmt>, i: DeclId, f: Frame)
  {
    forall fuel: nat, st: State ::
      var (o, st') := ExecBlock(body, fuel, f, st);
      (o == Normal || o == Continued || o == Timeout) && Get(st'.env, i) == Get(st.env, i)
  }

  /** The body also never needs more than `depth` rounds of its own loops. */
  ghost predicate Within(body: seq<Stmt>, depth: nat, f: Frame)
  {
    forall fuel: nat, st: State :: fuel >= depth ==> ExecBlock(body, fuel, f, st).0 != Timeout
  }

  /** The counter is a word of its type. */
  predicate IsWord(s: Stmt, st: State)
    requires s.For?
  {
    0 <= Get(st.env, s.counter) < Pow2(s.ty.counter.Width())
  }

  /** The counter values with which the body is entered. */
  function Counters(s: Stmt, fuel: nat, f: Frame, st: State): seq<int>
    requires s.For?
    decreases fuel
  {
    if fuel == 0 then [] else
    var (limit, tr) := Eval(s.end, f, st.env, st.trace);
    if !Truth(Tested(s.cmp, s.ty, Get(st.env, s.counter), limit, f.world.undef)) then [] else
    var (o, st1) := ExecBlock(s.body, fuel - 1, f, st.(trace := tr));
    [Number(s, st)] +
    if o == Normal || o == Continued then
      var (delta, tr1) := Eval(StepAmount(s), f, st1.env, st1.trace);
      var next := NextWord(s.cmp, s.ty, Get(st1.env, s.counter), delta, f.world.undef);
      Counters(s, fuel - 1, f, State(st1.env[s.counter := next], tr1))
    else []
  }

  lemma {:induction false} DivideLess(d: int, k: int)
    requires k > 0
    ensures (d - k) / k == d / k - 1
  {
    ModUnique(d - k, k, d / k - 1, d % k);
  }

  lemma {:induction false} SmallQuotient(d: int, k: int)
    requires 0 <= d < k
    ensures d / k == 0
  {
    ModUnique(d, k, 0, d);
  }

  /** One round less remains after one step. */
  lemma {:induction false} OneTripLess(cmp: BinOp, b: int, limit: int, k: int)
    requires IsRange(cmp) && k > 0
    ensures var d := Signum(cmp) * (limit - b);
            (Trips(cmp, b, limit, k) > 0) == (if cmp in {Lt, Gt} then d > 0 else d >= 0)
    ensures Trips(cmp, b, limit, k) >= 0
    ensures Trips(cmp, b, limit, k) > 0 ==> Trips(cmp, b + Signum(cmp) * k, limit, k) == Trips(cmp, b, limit, k) - 1
  {
    var d := Signum(cmp) * (limit - b);
    DivideLess(d, k);
    DivideLess(d + k - 1, k);
    if 0 <= d < k { SmallQuotient(d, k); }
    if 0 < d <= k { SmallQuotient(d - 1, k); }
    Quotients(d, k);
  }

  lemma {:induction false} Quotients(d: int, k: int)
    requires k > 0
    ensures d >= 0 ==> d / k >= 0
    ensures d > 0 ==> (d + k - 1) / k >= 1
  {
    if d > 0 {
      DivideLess(d + k - 1, k);
    }
  }

  /** n rounds are left from b, and every counter value on the way is representable. */
  ghost predicate Left(cmp: BinOp, b: int, limit: int, k: int, n: nat, ty: IntType)
    decreases n
  {
    && InRange(b, ty)
    && if n == 0 then !Holds(cmp, b, limit)
       else Holds(cmp, b, limit) && Left(cmp, Moved(cmp, b, k), limit, k, n - 1, ty)
  }

  /** b and the n - 1 counter values after it. */
  function Progression(cmp: BinOp, b: int, k: int, n: nat): seq<int>
    decreases n
  {
    if n == 0 then [] else [b] + Progression(cmp, Moved(cmp, b, k), k, n - 1)
  }

  /** Trips rounds are left if the value after the last one is representable. */
  lemma {:induction false} TripsAreLeft(cmp: BinOp, b: int, limit: int, k: int, n: nat, ty: IntType)
    requires IsRange(cmp) && k > 0 && n == Trips(cmp, b, limit, k)
    requires InRange(b, ty) && InRange(b + Signum(cmp) * (n * k), ty)
    ensures Left(cmp, b, limit, k, n, ty)
    decreases n
  {
    OneTripLess(cmp, b, limit, k);
    if n > 0 {
      NextInRange(b, Signum(cmp), n, k, ty);
      TripsAreLeft(cmp, b + Signum(cmp) * k, limit, k, n - 1, ty);
    }
  }

  lemma {:induction false} ProgressionAt(cmp: BinOp, b: int, k: int, n: nat, j: nat)
    requires IsRange(cmp) && j < n
    ensures |Progression(cmp, b, k, n)| == n && Progression(cmp, b, k, n)[j] == b + Signum(cmp) * (j * k)
    decreases n
  {
    if j > 0 {
      ProgressionAt(cmp, Moved(cmp, b, k), k, n - 1, j - 1);
      assert j * k == (j - 1) * k + k;
    } else if n > 1 {
      ProgressionAt(cmp, Moved(cmp, b, k), k, n - 1, 0);
    }
  }

  /** A loop over a constant range runs exactly the rounds that are left. */
  lemma {:induction false} RoundsRun(s: Stmt, n: nat, limit: int, k: int, depth: nat, fuel: nat, f: Frame, st: State)
    requires Constant(s, limit, k, f) && RunsThrough(s.body, s.counter, f) && Within(s.body, depth, f)
    requires Left(s.cmp, Number(s, st), limit, k, n, s.ty.counter) && fuel > n + depth
    ensures Rounds(s, fuel, f, st).0 == Normal
    ensures Counters(s, fuel, f, st) == Progression(s.cmp, Number(s, st), k, n)
    decreases n
  {
    hide Constant, RunsThrough, Within, Counters, Rounds;
    IsConstant(s, limit, k, f);
    if n > 0 {
      var st1 := OneRound(s, limit, k, depth, fuel, f, st);
      RoundsRun(s, n - 1, limit, k, depth, fuel - 1, f, st1);
    } else {
      NoRound(s, limit, k, fuel, f, st);
    }
  }

  lemma {:induction false} ProgressionValues(cmp: BinOp, b: int, k: int, n: nat, cs: seq<int>)
    requires IsRange(cmp) && cs == Progression(cmp, b, k, n)
    ensures |cs| == n && forall j :: 0 <= j < n ==> cs[j] == b + Signum(cmp) * (j * k)
  {
    if n > 0 {
      ProgressionAt(cmp, b, k, n, 0);
    }
    forall j: nat | j < n ensures cs[j] == b + Signum(cmp) * (j * k) {
      ProgressionAt(cmp, b, k, n, j);
    }
  }

  lemma NumberInRange(s: Stmt, st: State)
    requires s.For? && Fitting(s.ty)
    ensures InRange(Number(s, st), s.ty.counter)
  {
    DecodeInRange(s.ty.counter, Get(st.env, s.counter));
  }

  lemma IsConstant(s: Stmt, limit: int, k: int, f: Frame)
    requires Constant(s, limit, k, f)
    ensures s.For? && IsRange(s.cmp) && Fitting(s.ty)
  {}

  /** Whenever the body runs through, from a state in which the counter is a word, it makes the
      calls that `calls` gives for the number. */
  ghost predicate MakesCalls(s: Stmt, calls: int -> seq<Event>, f: Frame)
    requires s.For?
  {
    forall fuel: nat, st: State :: IsWord(s, st) && Through(ExecBlock(s.body, fuel, f, st)) ==>
      ExecBlock(s.body, fuel, f, st).1.trace == st.trace + calls(Number(s, st))
  }

  predicate Through(r: (Outcome, State)) { r.0 == Normal || r.0 == Continued }

  lemma CallsMade(s: Stmt, calls: int -> seq<Event>, fuel: nat, f: Frame, st: State)
    requires s.For? && MakesCalls(s, calls, f) && IsWord(s, st) && Through(ExecBlock(s.body, fuel, f, st))
    ensures ExecBlock(s.body, fuel, f, st).1.trace == st.trace + calls(Number(s, st))
  {}

  /** The calls of n rounds from b. */
  function CallsFrom(calls: int -> seq<Event>, cmp: BinOp, b: int, k: int, n: nat): seq<Event>
    decreases n
  {
    if n == 0 then [] else calls(b) + CallsFrom(calls, cmp, Moved(cmp, b, k), k, n - 1)
  }

  lemma {:induction false} RoundsCall(s: Stmt, n: nat, limit: int, k: int, depth: nat, fuel: nat, f: Frame,
                                      st: State, calls: int -> seq<Event>)
    requires Constant(s, limit, k, f) && RunsThrough(s.body, s.counter, f) && Within(s.body, depth, f)
    requires MakesCalls(s, calls, f) && IsWord(s, st)
    requires Left(s.cmp, Number(s, st), limit, k, n, s.ty.counter) && fuel > n + depth
    ensures var r := Rounds(s, fuel, f, st);
            r.0 == Normal && r.1.trace == st.trace + CallsFrom(calls, s.cmp, Number(s, st), k, n)
    decreases n
  {
    hide Constant, RunsThrough, Within, Rounds, ExecBlock, MakesCalls, Through, Number, IsWord, Counters;
    IsConstant(s, limit, k, f);
    if n > 0 {
      var st1 := OneRound(s, limit, k, depth, fuel, f, st);
      CallsMade(s, calls, fuel - 1, f, st);
      RoundsCall(s, n - 1, limit, k, depth, fuel - 1, f, st1, calls);
      var rest := CallsFrom(calls, s.cmp, Moved(s.cmp, Number(s, st), k), k, n - 1);
      assert st.trace + calls(Number(s, st)) + rest == st.trace + (calls(Number(s, st)) + rest);
    } else {
      NoRound(s, limit, k, fuel, f, st);
      assert st.trace + [] == st.trace;
    }
  }

  /** The state in which the first round is tested. */
  function Begun(s: Stmt, f: Frame, st: State): State
    requires s.For?
  {
    Begins(s.counter, s.begin, f, st)
  }

  /** The number at which the loop starts: that of the value of begin, or 0. */
  function StartNumber(s: Stmt, f: Frame, st: State): int
    requires s.For?
  {
    match s.begin
    case None => 0
    case Some(e) => Decode(s.ty.counter, Eval(e, f, st.env, st.trace).0)
  }

  /** The calls so far, those that begin makes included. */
  function StartCalls(s: Stmt, f: Frame, st: State): seq<Event>
    requires s.For?
  {
    match s.begin
    case None => st.trace
    case Some(e) => Eval(e, f, st.env, st.trace).1
  }

  lemma BegunAsWritten(s: Stmt, f: Frame, st: State)
    requires s.For? && Fitting(s.ty)
    ensures Number(s, Begun(s, f, st)) == StartNumber(s, f, st) && Begun(s, f, st).trace == StartCalls(s, f, st)
  {
    hide Decode;
    ZeroIsZero(s.ty.counter);
  }

  lemma ZeroIsZero(ty: IntType)
    requires ty.Int? && ty.Width() > 0
    ensures Decode(ty, 0) == 0
  {
    hide Decode;
    DecodeNumber(0, ty);
  }

  lemma RoundsFromBegin(s: Stmt, fuel: nat, f: Frame, st: State)
    requires s.For?
    ensures Exec(s, fuel, f, st) == Rounds(s, fuel, f, Begun(s, f, st))
  {}

  /** All four range operators with a positive constant step: the loop ends after exactly
      Trips rounds, in which the counter is begin, begin +- step, begin +- 2 * step, ...,
      provided the value after the last step is representable. */
  lemma {:induction false} RangeRuns(s: Stmt, limit: int, k: int, n: int, depth: nat, fuel: nat, f: Frame, st: State)
    requires Constant(s, limit, k, f) && RunsThrough(s.body, s.counter, f) && Within(s.body, depth, f) && k > 0
    requires var b := StartNumber(s, f, st);
             && n == Trips(s.cmp, b, limit, k) && fuel > n + depth
             && InRange(b + Signum(s.cmp) * (n * k), s.ty.counter)
    ensures n >= 0 && Exec(s, fuel, f, st).0 == Normal
    ensures var cs := Counters(s, fuel, f, Begun(s, f, st));
            |cs| == n && forall j :: 0 <= j < n ==> cs[j] == StartNumber(s, f, st) + Signum(s.cmp) * (j * k)
  {
    hide RunsThrough, Within, Rounds, Counters, InRange, Trips, Begun, StartNumber, StartCalls, Number;
    var st1, b := Begun(s, f, st), StartNumber(s, f, st);
    BegunAsWritten(s, f, st);
    RoundsFromBegin(s, fuel, f, st);
    OneTripLess(s.cmp, b, limit, k);
    NumberInRange(s, st1);
    TripsAreLeft(s.cmp, b, limit, k, n, s.ty.counter);
    RoundsRun(s, n, limit, k, depth, fuel, f, st1);
    ProgressionValues(s.cmp, b, k, n, Counters(s, fuel, f, st1));
  }

  /** A range loop, desugared or not, ends, and makes the calls of begin and then those of its
      body for begin, begin +- step, ..., once for each of the Trips rounds. */
  lemma {:induction false} RangeCalls(s: Stmt, limit: int, k: int, n: int, depth: nat, fuel: nat, f: Frame,
                                      st: State, calls: int -> seq<Event>)
    requires Constant(s, limit, k, f) && RunsThrough(s.body, s.counter, f) && Within(s.body, depth, f) && k > 0
    requires MakesCalls(s, calls, f) && IsWord(s, Begun(s, f, st))
    requires var b := StartNumber(s, f, st);
             && n == Trips(s.cmp, b, limit, k) && fuel > n + depth
             && InRange(b + Signum(s.cmp) * (n * k), s.ty.counter)
    ensures && n >= 0 && Exec(s, fuel, f, st).0 == Normal
            && Exec(s, fuel, f, st).1.trace ==
               StartCalls(s, f, st) + CallsFrom(calls, s.cmp, StartNumber(s, f, st), k, n)
            && Exec(Desugar(s), fuel, f, st) == Exec(s, fuel, f, st)
  {
    hide RunsThrough, Within, MakesCalls, Trips, InRange, Rounds, Begun, StartNumber, StartCalls, Number, IsWord;
    var st1, b := Begun(s, f, st), StartNumber(s, f, st);
    BegunAsWritten(s, f, st);
    OneTripLess(s.cmp, b, limit, k);
    NumberInRange(s, st1);
    TripsAreLeft(s.cmp, b, limit, k, n, s.ty.counter);
    RoundsCall(s, n, limit, k, depth, fuel, f, st1, calls);
    RoundsFromBegin(s, fuel, f, st);
    DesugarKeepsMeaning(s, fuel, f, st);
  }

  /** A round of the loop when one remains. */
  lemma {:induction false} OneRound(s: Stmt, limit: int, k: int, depth: nat, fuel: nat, f: Frame, st: State)
    returns (st1: State)
    requires Constant(s, limit, k, f) && RunsThrough(s.body, s.counter, f) && Within(s.body, depth, f)
    requires fuel > depth && Holds(s.cmp, Number(s, st), limit)
    requires InRange(Moved(s.cmp, Number(s, st), k), s.ty.counter)
    ensures Number(s, st1) == Moved(s.cmp, Number(s, st), k) && IsWord(s, st1)
    ensures Rounds(s, fuel, f, st) == Rounds(s, fuel - 1, f, st1)
    ensures Counters(s, fuel, f, st) == [Number(s, st)] + Counters(s, fuel - 1, f, st1)
    ensures Through(ExecBlock(s.body, fuel - 1, f, st)) && st1.trace == ExecBlock(s.body, fuel - 1, f, st).1.trace
  {
    hide Decode, Tested, NextWord, Pow2, InRange;
    var x, amount := Get(st.env, s.counter), Amount(StepAmount(s), f);
    FixedIsFixed(s.end, f, st.env, st.trace);
    assert st.(trace := st.trace) == st;
    TestedNumber(s.cmp, s.ty, x, Amount(s.end, f), f.world.undef);
    var (o, st2) := ExecBlock(s.body, fuel - 1, f, st);
    assert Get(st2.env, s.counter) == x && (o == Normal || o == Continued);
    FixedIsFixed(StepAmount(s), f, st2.env, st2.trace);
    DifferenceVanishes(amount, k, Pow2(s.ty.counter.Width()));
    NextNumber(s.cmp, s.ty, x, amount, k, f.world.undef);
    NextModulo(s.cmp, s.ty, x, amount, f.world.undef);
    st1 := State(st2.env[s.counter := NextWord(s.cmp, s.ty, x, amount, f.world.undef)], st2.trace);
  }

  lemma {:induction false} NoRound(s: Stmt, limit: int, k: int, fuel: nat, f: Frame, st: State)
    requires Constant(s, limit, k, f) && fuel > 0 && !Holds(s.cmp, Number(s, st), limit)
    ensures Rounds(s, fuel, f, st) == (Normal, st)
    ensures Counters(s, fuel, f, st) == []
  {
    hide Decode, Tested, NextWord, Pow2;
    FixedIsFixed(s.end, f, st.env, st.trace);
    assert st.(trace := st.trace) == st;
    TestedNumber(s.cmp, s.ty, Get(st.env, s.counter), Amount(s.end, f), f.world.undef);
  }

  lemma {:induction false} NextInRange(b: int, sign: int, n: int, k: int, ty: IntType)
    requires sign == 1 || sign == -1
    requires n > 0 && k > 0 && InRange(b, ty) && InRange(b + sign * (n * k), ty)
    ensures InRange(b + sign * k, ty) && b + sign * k + sign * ((n - 1) * k) == b + sign * (n * k)
  {
    hide Pow2;
    var rest := (n - 1) * k;
    assert n * k == rest + k && rest >= 0;
  }
}
