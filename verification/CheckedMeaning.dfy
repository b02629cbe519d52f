// What a checked expression means, operator by operator and on numbers, and that the code
// generated for it computes that.
module CheckedMeaning {
  import opened Words
  import opened NumberLaws
  import opened Tree
  import opened Source
  import opened Ir
  import opened Lowering
  import opened Growth
  import opened SimulateExpr
  import G = Grammar
  import T = Types
  import opened TypeChecker
  import opened TypeSoundness
  import opened TypedTrees

  // ----- words and numbers -----

  function Bits(t: T.Type): nat
    requires HasWords(t)
  {
    if t.kind == T.Boolean then 1 else 8 * t.size
  }

  /** The number that a word of type t stands for: in two's complement if t is signed. */
  function NumberOf(t: T.Type, x: int): int
    requires HasWords(t)
  {
    var m := Pow2(Bits(t));
    var u := x % m;
    if t.kind == T.SignedInteger && 2 * u >= m then u - m else u
  }

  /** The word of type t for a number, wrapped where it is too large. */
  function WordOf(t: T.Type, v: int): int
    requires HasWords(t)
  {
    v % Pow2(Bits(t))
  }

  /** The quotient, rounded towards zero. */
  function Quotient(a: int, b: int): int
    requires b != 0
  {
    var q := Abs(a) / Abs(b);
    if (a < 0) == (b < 0) then q else -q
  }

  /** Division by zero, and that of the least number by -1. */
  predicate NoQuotient(t: T.Type, a: int, b: int)
    requires HasWords(t)
  {
    b == 0 || (t.kind == T.SignedInteger && 2 * a == -Pow2(Bits(t)) && b == -1)
  }

  // ----- operators -----

  predicate IsLogical(op: G.Operator) { op == G.LogicalAnd || op == G.LogicalOr }

  /** The word that an operator yields for two words of type t. Where it means nothing - there is
      no quotient, or a shift is by less than 0 or by all bits - that is whatever `undef` picks;
      likewise for bitwise operators on negative numbers, which the checker refuses. */
  function OperatorMeant(op: G.Operator, t: T.Type, x: int, y: int, undef: (int, int) -> int): int
    requires HasWords(t) && op != G.Assign && !IsLogical(op)
  {
    var a, b, w := NumberOf(t, x), NumberOf(t, y), Bits(t);
    match op
    case Asterisk => WordOf(t, a * b)
    case Plus => WordOf(t, a + b)
    case Minus => WordOf(t, a - b)
    case Slash => if NoQuotient(t, a, b) then undef(x, y) else WordOf(t, Quotient(a, b))
    case Percent => if NoQuotient(t, a, b) then undef(x, y) else WordOf(t, a - Quotient(a, b) * b)
    case Ampersand => if a < 0 || b < 0 then undef(x, y) else WordOf(t, BitOp(And, a, b, w))
    case Bar => if a < 0 || b < 0 then undef(x, y) else WordOf(t, BitOp(Or, a, b, w))
    case Caret => if a < 0 || b < 0 then undef(x, y) else WordOf(t, BitOp(Xor, a, b, w))
    case LeftShift => if 0 <= b < w then WordOf(t, a * Pow2(b)) else undef(x, y)
    case RightShift => if 0 <= b < w then WordOf(t, a / Pow2(b)) else undef(x, y)
    case EqualTo => if a == b then 1 else 0
    case Inequal => if a != b then 1 else 0
    case LessThan => if a < b then 1 else 0
    case LessThanOrEqual => if a <= b then 1 else 0
    case GreaterThan => if a > b then 1 else 0
    case _ => if a >= b then 1 else 0
  }

  lemma {:induction false} QuotientTruncates(a: int, b: int)
    requires b != 0
    ensures Quotient(a, b) == TruncDiv(a, b)
  {
    hide TruncDiv, TruncMod;
    var q, r := EuclideanDivision(Abs(a), Abs(b));
    NegatedMultiple(q, b);
    DividesAbs(a, b, if b < 0 then -q else q, r);
    TruncationIsDivision(a, b, Quotient(a, b), if a < 0 then -r else r);
  }

  lemma ReadsAlike(t: T.Type, x: int)
    requires HasWords(t)
    ensures WordType(t).Width() == Bits(t) && Decode(WordType(t), x) == NumberOf(t, x)
    ensures Unsigned(x, Bits(t)) == WordOf(t, x)
  {}

  /** The operator that code generation is given means the same. */
  lemma {:induction false} OperatorTranslates(op: G.Operator, t: T.Type, x: int, y: int, undef: (int, int) -> int)
    requires HasWords(t) && op != G.Assign && !IsLogical(op)
    ensures Meaning(OpOf(op), WordType(t), x, y, undef) == OperatorMeant(op, t, x, y, undef)
  {
    hide Decode, NumberOf, Pow2, BitOp, TruncDiv, Quotient, Unsigned;
    ReadsAlike(t, x);
    ReadsAlike(t, y);
    var a, b := NumberOf(t, x), NumberOf(t, y);
    if !NoQuotient(t, a, b) {
      QuotientTruncates(a, b);
    }
    WrapsAlike(t);
  }

  lemma WrapsAlike(t: T.Type)
    requires HasWords(t)
    ensures forall v: int :: Unsigned(v, Bits(t)) == WordOf(t, v)
  {
    hide Pow2;
    forall v: int ensures Unsigned(v, Bits(t)) == WordOf(t, v) {
      ReadsAlike(t, v);
    }
  }

  // ----- trees -----

  /** The word that a checked tree yields and the calls so far, from left to right; the right
      operand of && and || counts only where the left one does not decide. */
  function Meant(n: T.Node, b: Binding, f: Frame, env: Env, tr: seq<Event>): (int, seq<Event>)
    requires Integral(n)
    decreases n
  {
    match n.form
    case Constant(_) => (b.literal(n), tr)
    case Reference(x) => (Get(env, b.decl(x)), tr)
    case Operation(op, l, r) =>
      var (x, t1) := Meant(l, b, f, env, tr);
      if IsLogical(op) && (NumberOf(T.BOOLEAN, x) == 0) == (op == G.LogicalAnd) then (NumberOf(T.BOOLEAN, x), t1) else
      var (y, t2) := Meant(r, b, f, env, t1);
      (if IsLogical(op) then NumberOf(T.BOOLEAN, y) else OperatorMeant(op, l.inferred.value, x, y, f.world.undef), t2)
    case Invocation(p, args) =>
      var (xs, t1) := MeantAll(args, b, f, env, tr);
      var t2 := t1 + [Event(p.form.name, xs)];
      (f.world.reply(t2), t2)
    case Conversion(e) =>
      var (x, t1) := Meant(e, b, f, env, tr);
      (WordOf(n.inferred.value, NumberOf(e.inferred.value, x)), t1)
  }

  function MeantAll(ns: seq<T.Node>, b: Binding, f: Frame, env: Env, tr: seq<Event>): (seq<int>, seq<Event>)
    requires AllIntegral(ns)
    decreases ns
  {
    if ns == [] then ([], tr) else
      var (x, t1) := Meant(ns[0], b, f, env, tr);
      var (xs, t2) := MeantAll(ns[1..], b, f, env, t1);
      ([x] + xs, t2)
  }

  lemma OneBitReads(x: int)
    ensures NumberOf(T.BOOLEAN, x) == BoolWord(Truth(x))
  {
    assert Pow2(1) == 2 * Pow2(0) == 2;
  }

  /** The tree that code generation walks has this meaning. */
  lemma {:induction false} TranslationMeans(n: T.Node, b: Binding, f: Frame, env: Env, tr: seq<Event>)
    requires Integral(n)
    ensures Eval(Translate(n, b), f, env, tr) == Meant(n, b, f, env, tr)
    decreases n, 1
  {
    hide OperatorMeant, NumberOf, WordOf, Meaning, Decode, Unsigned, Truth, BoolWord, OpOf, HasWords, WordType;
    match n.form
    case Operation(op, l, r) =>
      var (x, t1) := Meant(l, b, f, env, tr);
      TranslationMeans(l, b, f, env, tr);
      TranslationMeans(r, b, f, env, t1);
      OneBitReads(x);
      OneBitReads(Meant(r, b, f, env, t1).0);
      OneBitIsTruth(x);
      if !IsLogical(op) {
        OperatorTranslates(op, l.inferred.value, x, Meant(r, b, f, env, t1).0, f.world.undef);
      }
    case Invocation(_, args) => TranslationsMean(args, b, f, env, tr);
    case Conversion(e) =>
      TranslationMeans(e, b, f, env, tr);
      var x := Meant(e, b, f, env, tr).0;
      ReadsAlike(e.inferred.value, x);
      ReadsAlike(n.inferred.value, NumberOf(e.inferred.value, x));
    case _ =>
  }

  lemma OneBitIsTruth(x: int)
    ensures NumberOf(T.BOOLEAN, x) == 0 <==> !Truth(x)
  {
    OneBitReads(x);
  }

  lemma {:induction false} TranslationsMean(ns: seq<T.Node>, b: Binding, f: Frame, env: Env, tr: seq<Event>)
    requires AllIntegral(ns)
    ensures EvalAll(TranslateAll(ns, b), f, env, tr) == MeantAll(ns, b, f, env, tr)
    decreases ns, 0
  {
    hide Meant, Translate, Integral;
    if ns != [] {
      assert TranslateAll(ns, b)[1..] == TranslateAll(ns[1..], b);
      TranslationMeans(ns[0], b, f, env, tr);
      TranslationsMean(ns[1..], b, f, env, Meant(ns[0], b, f, env, tr).1);
    }
  }

  // ----- down to the blocks -----

  /** Every name in the tree is a local that has a slot. */
  predicate HaveSlots(n: T.Node, b: Binding, slots: Slots)
    requires Integral(n)
    decreases n
  {
    match n.form
    case Constant(_) => true
    case Reference(x) => b.decl(x) in slots
    case Operation(_, l, r) => HaveSlots(l, b, slots) && HaveSlots(r, b, slots)
    case Invocation(_, args) => AllHaveSlots(args, b, slots)
    case Conversion(e) => HaveSlots(e, b, slots)
  }

  predicate AllHaveSlots(ns: seq<T.Node>, b: Binding, slots: Slots)
    requires AllIntegral(ns)
    decreases ns
  {
    ns == [] || (HaveSlots(ns[0], b, slots) && AllHaveSlots(ns[1..], b, slots))
  }

  lemma {:induction false} AcceptedInSlots(n: T.Node, b: Binding, slots: Slots)
    requires Integral(n) && HaveSlots(n, b, slots) && Accepted(Translate(n, b))
    ensures ExprOk(Translate(n, b), InSlots(slots))
    decreases n, 1
  {
    hide OpOf, WordType, Faithful;
    match n.form
    case Operation(_, l, r) =>
      AcceptedInSlots(l, b, slots);
      AcceptedInSlots(r, b, slots);
    case Invocation(_, args) =>
      var es := TranslateAll(args, b);
      forall i | 0 <= i < |es| ensures Accepted(es[i]) {}
      AllAcceptedInSlots(args, b, slots);
    case Conversion(e) => AcceptedInSlots(e, b, slots);
    case _ =>
  }

  lemma {:induction false} AllAcceptedInSlots(ns: seq<T.Node>, b: Binding, slots: Slots)
    requires AllIntegral(ns) && AllHaveSlots(ns, b, slots) && AllAccepted(TranslateAll(ns, b))
    ensures forall i :: 0 <= i < |ns| ==> ExprOk(TranslateAll(ns, b)[i], InSlots(slots))
    decreases ns, 0
  {
    hide Translate, Accepted, HaveSlots, Integral, ExprOk;
    if ns != [] {
      var es, rest := TranslateAll(ns, b), TranslateAll(ns[1..], b);
      assert es == [Translate(ns[0], b)] + rest && es[0] == Translate(ns[0], b);
      assert forall i :: 0 <= i < |rest| ==> rest[i] == es[i + 1];
      AcceptedInSlots(ns[0], b, slots);
      AllAcceptedInSlots(ns[1..], b, slots);
    }
  }

  /** An expression of integers and booleans that checks without errors, in which nothing orders
      or divides booleans or converts unsigned numbers: from any machine state in which its names
      are in their slots, the blocks generated for the checked tree deliver the word that is
      meant, after exactly the calls that are meant. */
  lemma {:induction false} GeneratedCodeMeans(n: T.Node, scope: Scope, b: Binding, slots: Slots, bd: Builder,
                                              m: Machine, env: Env, c: Config)
    returns (steps: nat)
    requires T.Fresh(n) && ProperScope(scope) && Clean(Check(n, scope))
    requires var checked := Check(n, scope).node;
             && Integral(checked) && Sound(checked) && HaveSlots(checked, b, slots)
             && Extends(GenExpr(Translate(checked, b), slots, bd).1.blocks, m.code)
    requires AtEnd(c, bd) && Rel(c, env, slots) && SlotsBelow(slots, bd.regs)
    ensures var checked := Check(n, scope).node;
            var (o, bd') := GenExpr(Translate(checked, b), slots, bd);
            var (x, tr) := Meant(checked, b, m.frame, env, c.trace);
            var c' := Run(m, c, steps);
            && AtEnd(c', bd') && Preserves(c, c', bd.regs) && c'.trace == tr && Delivers(o, x, c', m.frame, bd'.regs)
  {
    hide Check, Integral, Sound, HaveSlots, Translate, GenExpr, Meant, Eval, Rel, SlotsBelow, Extends, ExprOk, Run;
    var e := Translate(Check(n, scope).node, b);
    CleanTreesAreAcceptedExactly(n, scope, b);
    AcceptedInSlots(Check(n, scope).node, b, slots);
    TranslationMeans(Check(n, scope).node, b, m.frame, env, c.trace);
    steps := SimExpr(e, slots, bd, m, env, c);
  }
}
