// What source programs mean: expressions with calls into an arbitrary outside world, and
// statements with break, continue and return.
module Source {
  import opened Words
  import opened Tree

  datatype Event = Event(callee: string, arguments: seq<int>)

  /** Everything a program cannot decide: what the last call of a history replies, what a
      fresh stack cell holds, and what an undefined operation yields. */
  datatype World = World(reply: seq<Event> -> int, cell: nat -> int, undef: (int, int) -> int)

  datatype Frame = Frame(args: seq<int>, world: World)

  type Env = map<DeclId, int>

  datatype State = State(env: Env, trace: seq<Event>)

  datatype Outcome = Normal | Broke | Continued | Returned(value: Option<int>) | Timeout

  function Get(env: Env, d: DeclId): int { if d in env then env[d] else 0 }

  function Arg(f: Frame, i: nat): int { if i < |f.args| then f.args[i] else 0 }

  function Truth(v: int): bool { v % 2 != 0 }

  function Eval(e: Expr, f: Frame, env: Env, tr: seq<Event>): (int, seq<Event>)
  {
    match e
    case Literal(v) => (v, tr)
    case Argument(i) => (Arg(f, i), tr)
    case Local(d) => (Get(env, d), tr)
    case Binary(op, ty, l, r) =>
      var (a, t1) := Eval(l, f, env, tr);
      var (b, t2) := Eval(r, f, env, t1);
      (Meaning(op, ty, a, b, f.world.undef), t2)
    case Logical(conj, l, r) =>
      var (a, t1) := Eval(l, f, env, tr);
      if Truth(a) == conj then
        var (b, t2) := Eval(r, f, env, t1);
        (BoolWord(Truth(b)), t2)
      else
        (BoolWord(Truth(a)), t1)
    case Call(callee, es) =>
      var (vs, t1) := EvalAll(es, f, env, tr);
      var t2 := t1 + [Event(callee, vs)];
      (f.world.reply(t2), t2)
    case Cast(from, to, x) =>
      var (v, t1) := Eval(x, f, env, tr);
      (CastMeaning(from, to, v), t1)
  }

  /** The arguments of a call, left to right. */
  function EvalAll(es: seq<Expr>, f: Frame, env: Env, tr: seq<Event>): (seq<int>, seq<Event>)
  {
    if es == [] then ([], tr) else
      var (v, t1) := Eval(es[0], f, env, tr);
      var (vs, t2) := EvalAll(es[1..], f, env, t1);
      ([v] + vs, t2)
  }

  function SetTo(d: DeclId, e: Expr, f: Frame, st: State): State
  {
    var (v, t) := Eval(e, f, st.env, st.trace);
    State(st.env[d := v], t)
  }

  function TakeStep(s: Step, f: Frame, st: State): State
  {
    match s
    case NoStep => st
    case Step(d, e) => SetTo(d, e, f, st)
  }

  function ReturnWith(v: Option<Expr>, f: Frame, st: State): (Outcome, State)
  {
    match v
    case None => (Returned(None), st)
    case Some(e) =>
      var (x, t) := Eval(e, f, st.env, st.trace);
      (Returned(Some(x)), st.(trace := t))
  }

  /** The direction a for loop counts in. */
  function Advance(cmp: BinOp): BinOp { if cmp in {Lt, Le} then Add else Sub }

  function Convert(from: IntType, to: IntType, x: int): int { if from == to then x else CastMeaning(from, to, x) }

  /** Comparing the counter x of a for loop with its end. */
  function Tested(cmp: BinOp, ty: CounterTypes, x: int, limit: int, undef: (int, int) -> int): int
  {
    Meaning(cmp, ty.test, Convert(ty.counter, ty.test, x), limit, undef)
  }

  /** The counter after x. */
  function NextWord(cmp: BinOp, ty: CounterTypes, x: int, delta: int, undef: (int, int) -> int): int
  {
    var y := Convert(ty.counter, ty.next, x);
    Convert(ty.next, ty.counter, Meaning(Advance(cmp), ty.next, y, delta, undef))
  }

  /** A for loop starts at the value of begin, or at 0 where there is none. */
  function Begins(i: DeclId, begin: Option<Expr>, f: Frame, st: State): State
  {
    match begin
    case None => st.(env := st.env[i := 0])
    case Some(e) => SetTo(i, e, f, st)
  }

  /** Its counter moves by the value of step, or by 1 where there is none. */
  function MovesBy(step: Option<Expr>, f: Frame, st: State): (int, seq<Event>)
  {
    match step
    case None => (1, st.trace)
    case Some(e) => Eval(e, f, st.env, st.trace)
  }

  // ----- the intended meaning -----

  /** A statement runs at most `fuel` rounds of any loop before it is cut off with Timeout;
      Timeout for every fuel means divergence. The step of a while loop runs once after
      each round of the body that completes or continues. */
  function Exec(s: Stmt, fuel: nat, f: Frame, st: State): (Outcome, State)
    decreases fuel, s
  {
    match s
    case Declare(d, e) => (Normal, SetTo(d, e, f, st))
    case Assign(d, e) => (Normal, SetTo(d, e, f, st))
    case Evaluate(e) => (Normal, st.(trace := Eval(e, f, st.env, st.trace).1))
    case Nested(body) => ExecBlock(body, fuel, f, st)
    case ErrorBlock(_) => (Normal, st)
    case If(c, t, e) =>
      var (v, tr) := Eval(c, f, st.env, st.trace);
      if Truth(v) then ExecBlock(t, fuel, f, st.(trace := tr)) else ExecBlock(e, fuel, f, st.(trace := tr))
    case While(c, body, step) =>
      if fuel == 0 then (Timeout, st) else
      var (v, tr) := Eval(c, f, st.env, st.trace);
      if !Truth(v) then (Normal, st.(trace := tr)) else
      var (o, st1) := ExecBlock(body, fuel - 1, f, st.(trace := tr));
      (match o
       case Normal => Exec(s, fuel - 1, f, TakeStep(step, f, st1))
       case Continued => Exec(s, fuel - 1, f, TakeStep(step, f, st1))
       case Broke => (Normal, st1)
       case _ => (o, st1))
    case For(i, ty, begin, cmp, end, step, body) =>
      ForRounds(i, ty, cmp, end, step, body, fuel, f, Begins(i, begin, f, st))
    case Break => (Broke, st)
    case Continue => (Continued, st)
    case Return(v) => ReturnWith(v, f, st)
  }

  function ExecBlock(ss: seq<Stmt>, fuel: nat, f: Frame, st: State): (Outcome, State)
    decreases fuel, ss
  {
    if ss == [] then (Normal, st) else
      var (o, st1) := Exec(ss[0], fuel, f, st);
      if o == Normal then ExecBlock(ss[1..], fuel, f, st1) else (o, st1)
  }

  /** The rounds of a for loop whose counter has its current value: compare with the end,
      evaluated anew; run the body; move the counter by the step, evaluated anew. */
  function ForRounds(i: DeclId, ty: CounterTypes, cmp: BinOp, end: Expr, step: Option<Expr>, body: seq<Stmt>,
                     fuel: nat, f: Frame, st: State): (Outcome, State)
    decreases fuel, body
  {
    if fuel == 0 then (Timeout, st) else
    var (limit, tr) := Eval(end, f, st.env, st.trace);
    if !Truth(Tested(cmp, ty, Get(st.env, i), limit, f.world.undef)) then (Normal, st.(trace := tr)) else
    var (o, st1) := ExecBlock(body, fuel - 1, f, st.(trace := tr));
    match o
    case Broke => (Normal, st1)
    case Returned(_) => (o, st1)
    case Timeout => (o, st1)
    case _ =>
      var (delta, tr1) := MovesBy(step, f, st1);
      var next := NextWord(cmp, ty, Get(st1.env, i), delta, f.world.undef);
      ForRounds(i, ty, cmp, end, step, body, fuel - 1, f, State(st1.env[i := next], tr1))
  }

  /** The rounds of a for loop whose counter has been set. */
  function Rounds(s: Stmt, fuel: nat, f: Frame, st: State): (Outcome, State)
    requires s.For?
  {
    ForRounds(s.counter, s.ty, s.cmp, s.end, s.step, s.body, fuel, f, st)
  }

  // ----- the meaning that code generation gives to loop prologues -----

  /** All pending steps, outermost loop first. */
  function TakeSteps(steps: seq<Step>, f: Frame, st: State): State
  {
    if steps == [] then st else TakeSteps(steps[1..], f, TakeStep(steps[0], f, st))
  }

  /** As Exec, but the steps of all enclosing loops run before every break, continue and
      return, and at the end of every non-empty block that completes. For loops have no
      case in the back end; they mean nothing here. */
  function Emitted(s: Stmt, steps: seq<Step>, fuel: nat, f: Frame, st: State): (Outcome, State)
    decreases fuel, s
  {
    match s
    case Declare(d, e) => (Normal, SetTo(d, e, f, st))
    case Assign(d, e) => (Normal, SetTo(d, e, f, st))
    case Evaluate(e) => (Normal, st.(trace := Eval(e, f, st.env, st.trace).1))
    case Nested(body) => EmittedBlock(body, steps, fuel, f, st)
    case ErrorBlock(_) => (Normal, st)
    case If(c, t, e) =>
      var (v, tr) := Eval(c, f, st.env, st.trace);
      if Truth(v) then EmittedBlock(t, steps, fuel, f, st.(trace := tr))
      else EmittedBlock(e, steps, fuel, f, st.(trace := tr))
    case While(c, body, step) =>
      if fuel == 0 then (Timeout, st) else
      var (v, tr) := Eval(c, f, st.env, st.trace);
      if !Truth(v) then (Normal, st.(trace := tr)) else
      var (o, st1) := EmittedBlock(body, steps + [step], fuel - 1, f, st.(trace := tr));
      (match o
       case Normal => Emitted(s, steps, fuel - 1, f, st1)
       case Continued => Emitted(s, steps, fuel - 1, f, st1)
       case Broke => (Normal, st1)
       case _ => (o, st1))
    case For(_, _, _, _, _, _, _) => (Normal, st)
    case Break => (Broke, st)
    case Continue => (Continued, st)
    case Return(v) => ReturnWith(v, f, st)
  }

  function EmittedBlock(ss: seq<Stmt>, steps: seq<Step>, fuel: nat, f: Frame, st: State): (Outcome, State)
    decreases fuel, ss
  {
    if ss == [] then (Normal, st)
    else if ss[0].IsTerminator() then Emitted(ss[0], steps, fuel, f, TakeSteps(steps, f, st))
    else
      var (o, st1) := Emitted(ss[0], steps, fuel, f, st);
      if o != Normal then (o, st1)
      else if |ss| == 1 then (Normal, TakeSteps(steps, f, st1))
      else EmittedBlock(ss[1..], steps, fuel, f, st1)
  }
}
