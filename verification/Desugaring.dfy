// Rewriting for loops into while loops with a prologue (desugar.cpp).
module Desugaring {
  import opened Words
  import opened Tree
  import opened Source

  function ForCount(s: Stmt): nat
  {
    match s
    case Nested(body) => ForCountIn(body)
    case ErrorBlock(body) => ForCountIn(body)
    case If(_, t, e) => ForCountIn(t) + ForCountIn(e)
    case While(_, body, _) => ForCountIn(body)
    case For(_, _, _, _, _, _, body) => 1 + ForCountIn(body)
    case _ => 0
  }

  function ForCountIn(ss: seq<Stmt>): nat
  {
    if ss == [] then 0 else ForCount(ss[0]) + ForCountIn(ss[1..])
  }

  /** `i cmp end`, the counter widened to the type of the comparison. */
  function TestExpr(i: DeclId, ty: CounterTypes, cmp: BinOp, end: Expr): Expr
  {
    Binary(cmp, ty.test, Converted(ty.counter, ty.test, Local(i)), end)
  }

  /** `i + step` or `i - step`, narrowed to the type of the counter. */
  function NextExpr(i: DeclId, ty: CounterTypes, cmp: BinOp, step: Expr): Expr
  {
    var sum := Binary(Advance(cmp), ty.next, Converted(ty.counter, ty.next, Local(i)), step);
    Converted(ty.next, ty.counter, sum)
  }

  /** What stands for a begin or step that is not written. */
  function OrLiteral(e: Option<Expr>, default: int): Expr
  {
    match e case Some(x) => x case None => Literal(default)
  }

  /** `{ i := begin; while i cmp end { body } }` with the prologue `i = i +- step`. */
  function WhileForm(i: DeclId, ty: CounterTypes, begin: Option<Expr>, cmp: BinOp, end: Expr, step: Option<Expr>,
                     body: seq<Stmt>): Stmt
  {
    var next := NextExpr(i, ty, cmp, OrLiteral(step, 1));
    Nested([Declare(i, OrLiteral(begin, 0)), While(TestExpr(i, ty, cmp, end), body, Step(i, next))])
  }

  /** The for case rewrites a block it has just built, so the recursion is not structural:
      that block has one for loop less. */
  function Desugar(s: Stmt): Stmt
    decreases ForCount(s), s
  {
    match s
    case Nested(body) => Nested(DesugarAll(body))
    case ErrorBlock(body) => ErrorBlock(DesugarAll(body))
    case If(c, t, e) => If(c, DesugarAll(t), DesugarAll(e))
    case While(c, body, step) => While(c, DesugarAll(body), step)
    case For(i, ty, begin, cmp, end, step, body) =>
      ForCountOfWhileForm(s);
      Desugar(WhileForm(i, ty, begin, cmp, end, step, body))
    case _ => s
  }

  function DesugarAll(ss: seq<Stmt>): (r: seq<Stmt>)
    ensures |r| == |ss|
    decreases ForCountIn(ss), ss
  {
    if ss == [] then [] else [Desugar(ss[0])] + DesugarAll(ss[1..])
  }

  lemma ForCountOfTwo(x: Stmt, y: Stmt)
    ensures ForCountIn([x, y]) == ForCount(x) + ForCount(y)
  {
    assert [x, y][1..] == [y] && [y][1..] == [];
    assert ForCountIn([y]) == ForCount(y) + ForCountIn([]);
  }

  lemma ForCountOfWhileForm(s: Stmt)
    requires s.For?
    ensures ForCount(WhileForm(s.counter, s.ty, s.begin, s.cmp, s.end, s.step, s.body)) == ForCount(s) - 1
  {
    var w := WhileForm(s.counter, s.ty, s.begin, s.cmp, s.end, s.step, s.body).body;
    ForCountOfTwo(w[0], w[1]);
  }

  /** What a for loop becomes in the end. */
  lemma DesugaredFor(s: Stmt)
    requires s.For?
    ensures Desugar(s) == WhileForm(s.counter, s.ty, s.begin, s.cmp, s.end, s.step, DesugarAll(s.body))
  {
    var w := WhileForm(s.counter, s.ty, s.begin, s.cmp, s.end, s.step, s.body);
    ForCountOfWhileForm(s);
    assert w.body[1..] == [w.body[1]] && w.body[1..][1..] == [];
    assert DesugarAll(w.body) == [Desugar(w.body[0])] + ([Desugar(w.body[1])] + DesugarAll([]));
  }

  // ----- shape -----

  lemma {:induction false} NoForIsNone(s: Stmt)
    ensures NoFor(s) <==> ForCount(s) == 0
    decreases s
  {
    match s
    case Nested(body) => NoForInIsNone(body);
    case ErrorBlock(body) => NoForInIsNone(body);
    case If(_, t, e) => NoForInIsNone(t); NoForInIsNone(e);
    case While(_, body, _) => NoForInIsNone(body);
    case _ =>
  }

  lemma {:induction false} NoForInIsNone(ss: seq<Stmt>)
    ensures NoForIn(ss) <==> ForCountIn(ss) == 0
    decreases ss
  {
    if ss != [] {
      NoForIsNone(ss[0]);
      NoForInIsNone(ss[1..]);
    }
  }

  /** Nothing is left to desugar. */
  lemma {:induction false} DesugarRemovesFor(s: Stmt)
    ensures NoFor(Desugar(s))
    decreases ForCount(s), s
  {
    match s
    case Nested(body) => DesugarAllRemovesFor(body);
    case ErrorBlock(body) => DesugarAllRemovesFor(body);
    case If(_, t, e) => DesugarAllRemovesFor(t); DesugarAllRemovesFor(e);
    case While(_, body, _) => DesugarAllRemovesFor(body);
    case For(i, ty, begin, cmp, end, step, body) =>
      ForCountOfWhileForm(s);
      DesugarRemovesFor(WhileForm(i, ty, begin, cmp, end, step, body));
    case _ =>
  }

  lemma {:induction false} DesugarAllRemovesFor(ss: seq<Stmt>)
    ensures NoForIn(DesugarAll(ss))
    decreases ForCountIn(ss), ss
  {
    if ss != [] {
      DesugarRemovesFor(ss[0]);
      DesugarAllRemovesFor(ss[1..]);
      assert DesugarAll(ss)[1..] == DesugarAll(ss[1..]);
    }
  }

  /** Trees without for loops come back unchanged. */
  lemma {:induction false} DesugarKeepsForFree(s: Stmt)
    requires NoFor(s)
    ensures Desugar(s) == s
    decreases s
  {
    match s
    case Nested(body) => DesugarAllKeepsForFree(body);
    case ErrorBlock(body) => DesugarAllKeepsForFree(body);
    case If(_, t, e) => DesugarAllKeepsForFree(t); DesugarAllKeepsForFree(e);
    case While(_, body, _) => DesugarAllKeepsForFree(body);
    case _ =>
  }

  lemma {:induction false} DesugarAllKeepsForFree(ss: seq<Stmt>)
    requires NoForIn(ss)
    ensures DesugarAll(ss) == ss
    decreases ss
  {
    if ss != [] {
      DesugarKeepsForFree(ss[0]);
      DesugarAllKeepsForFree(ss[1..]);
    }
  }

  lemma {:induction false} DesugarTwice(ss: seq<Stmt>)
    ensures DesugarAll(DesugarAll(ss)) == DesugarAll(ss)
  {
    DesugarAllRemovesFor(ss);
    DesugarAllKeepsForFree(DesugarAll(ss));
  }

  // ----- meaning -----

  /** The rewriting keeps the intended meaning, for every number of rounds. */
  lemma {:induction false} DesugarKeepsMeaning(s: Stmt, fuel: nat, f: Frame, st: State)
    ensures Exec(Desugar(s), fuel, f, st) == Exec(s, fuel, f, st)
    decreases fuel, s, 2
  {
    match s
    case Nested(body) => DesugarAllKeepsMeaning(body, fuel, f, st);
    case If(c, t, e) =>
      var (v, tr) := Eval(c, f, st.env, st.trace);
      DesugarAllKeepsMeaning(t, fuel, f, st.(trace := tr));
      DesugarAllKeepsMeaning(e, fuel, f, st.(trace := tr));
    case While(c, body, step) =>
      if fuel > 0 {
        var (v, tr) := Eval(c, f, st.env, st.trace);
        DesugarAllKeepsMeaning(body, fuel - 1, f, st.(trace := tr));
        DesugarKeepsMeaning(s, fuel - 1, f, TakeStep(step, f, ExecBlock(body, fuel - 1, f, st.(trace := tr)).1));
      }
    case For(_, _, _, _, _, _, _) => ForKeepsMeaning(s, fuel, f, st);
    case _ =>
  }

  lemma {:induction false} ForKeepsMeaning(s: Stmt, fuel: nat, f: Frame, st: State)
    requires s.For?
    ensures Exec(Desugar(s), fuel, f, st) == Exec(s, fuel, f, st)
    decreases fuel, s, 1
  {
    DesugaredFor(s);
    var w := Desugar(s).body;
    var st1 := SetTo(s.counter, OrLiteral(s.begin, 0), f, st);
    RoundsKeepMeaning(s, w[1], fuel, f, st1);
    TwoStatements(w[0], w[1], fuel, f, st);
  }

  /** The literals that desugaring puts in are what is meant. */
  lemma DefaultsAreMeant(i: DeclId, begin: Option<Expr>, step: Option<Expr>, f: Frame, st: State)
    ensures Begins(i, begin, f, st) == SetTo(i, OrLiteral(begin, 0), f, st)
    ensures MovesBy(step, f, st) == Eval(OrLiteral(step, 1), f, st.env, st.trace)
  {}

  lemma TwoStatements(x: Stmt, y: Stmt, fuel: nat, f: Frame, st: State)
    requires x.Declare?
    ensures ExecBlock([x, y], fuel, f, st) == Exec(y, fuel, f, SetTo(x.decl, x.init, f, st))
  {
    assert [x, y][1..] == [y] && [y][1..] == [];
    assert ExecBlock([y][1..], fuel, f, Exec(y, fuel, f, SetTo(x.decl, x.init, f, st)).1).0 == Normal;
  }

  lemma WhileFormTest(s: Stmt, f: Frame, st: State)
    requires s.For?
    ensures var (limit, tr) := Eval(s.end, f, st.env, st.trace);
            Eval(TestExpr(s.counter, s.ty, s.cmp, s.end), f, st.env, st.trace)
            == (Tested(s.cmp, s.ty, Get(st.env, s.counter), limit, f.world.undef), tr)
  {
    hide Meaning, CastMeaning;
    ConvertedCounter(s.counter, s.ty.counter, s.ty.test, f, st.env, st.trace);
  }

  lemma ConvertedCounter(i: DeclId, from: IntType, to: IntType, f: Frame, env: Env, tr: seq<Event>)
    ensures Eval(Converted(from, to, Local(i)), f, env, tr) == (Convert(from, to, Get(env, i)), tr)
  {
    hide CastMeaning;
    assert Eval(Local(i), f, env, tr) == (Get(env, i), tr);
  }

  lemma ConvertedValue(from: IntType, to: IntType, e: Expr, f: Frame, env: Env, tr: seq<Event>)
    ensures var (v, tr1) := Eval(e, f, env, tr);
            Eval(Converted(from, to, e), f, env, tr) == (Convert(from, to, v), tr1)
  {
    hide CastMeaning;
  }

  lemma WhileFormStep(i: DeclId, ty: CounterTypes, cmp: BinOp, amount: Expr, f: Frame, st: State)
    ensures var (delta, tr) := Eval(amount, f, st.env, st.trace);
            TakeStep(Step(i, NextExpr(i, ty, cmp, amount)), f, st)
            == State(st.env[i := NextWord(cmp, ty, Get(st.env, i), delta, f.world.undef)], tr)
  {
    hide Meaning, CastMeaning;
    var y := Converted(ty.counter, ty.next, Local(i));
    ConvertedCounter(i, ty.counter, ty.next, f, st.env, st.trace);
    ConvertedValue(ty.next, ty.counter, Binary(Advance(cmp), ty.next, y, amount), f, st.env, st.trace);
  }

  lemma {:induction false} RoundsKeepMeaning(s: Stmt, w: Stmt, fuel: nat, f: Frame, st: State)
    requires s.For? && w == WhileForm(s.counter, s.ty, s.begin, s.cmp, s.end, s.step, DesugarAll(s.body)).body[1]
    ensures Exec(w, fuel, f, st) == ForRounds(s.counter, s.ty, s.cmp, s.end, s.step, s.body, fuel, f, st)
    decreases fuel, s, 0
  {
    hide TakeStep, TestExpr, Tested;
    if fuel > 0 {
      WhileFormTest(s, f, st);
      var (v, tr) := Eval(w.cond, f, st.env, st.trace);
      if Truth(v) {
        DesugarAllKeepsMeaning(s.body, fuel - 1, f, st.(trace := tr));
        var (o, st1) := ExecBlock(s.body, fuel - 1, f, st.(trace := tr));
        WhileFormStep(s.counter, s.ty, s.cmp, OrLiteral(s.step, 1), f, st1);
        RoundsKeepMeaning(s, w, fuel - 1, f, TakeStep(w.prologue, f, st1));
      }
    }
  }

  lemma {:induction false} DesugarAllKeepsMeaning(ss: seq<Stmt>, fuel: nat, f: Frame, st: State)
    ensures ExecBlock(DesugarAll(ss), fuel, f, st) == ExecBlock(ss, fuel, f, st)
    decreases fuel, ss
  {
    if ss != [] {
      DesugarKeepsMeaning(ss[0], fuel, f, st);
      DesugarAllKeepsMeaning(ss[1..], fuel, f, Exec(ss[0], fuel, f, st).1);
      assert DesugarAll(ss)[1..] == DesugarAll(ss[1..]);
    }
  }
}
