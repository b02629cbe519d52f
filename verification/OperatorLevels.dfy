// How tightly operators bind, told from what the parser makes of two of them in a row.
module OperatorLevels {
  import opened Words
  import opened Grammar
  import opened Parser
  import opened ParserCorrect

  /** The level of an operator, 0 being the tightest. */
  function LevelOf(op: Operator): nat
  {
    match op
    case Asterisk | Slash | Percent => 0
    case Plus | Minus => 1
    case LeftShift | RightShift => 2
    case LessThan | GreaterThan | LessThanOrEqual | GreaterThanOrEqual => 3
    case EqualTo | Inequal => 4
    case Ampersand => 5
    case Caret => 6
    case Bar => 7
    case LogicalAnd => 8
    case LogicalOr => 9
    case Assign => 10
  }

  lemma TighterIsEarlier(p: Operator, q: Operator)
    ensures LevelOf(p) <= LevelOf(q) <==> Precedence(p) >= Precedence(q)
  {}

  /** The tree of x p y q z. */
  function Grouped(x: Syntax, p: Operator, y: Syntax, q: Operator, z: Syntax, left: bool): Syntax
  {
    if left then Infixed(q, Infixed(p, x, y), z) else Infixed(p, x, Infixed(q, y, z))
  }

  function Tokens(x: Syntax, p: Operator, y: Syntax, q: Operator, z: Syntax): seq<Token>
  {
    Yield(x) + [Infix(p)] + Yield(y) + [Infix(q)] + Yield(z)
  }

  lemma GroupedYields(x: Syntax, p: Operator, y: Syntax, q: Operator, z: Syntax, left: bool)
    ensures Yield(Grouped(x, p, y, q, z, left)) == Tokens(x, p, y, q, z)
  {}

  lemma GroupedIsWellFormed(x: Syntax, p: Operator, y: Syntax, q: Operator, z: Syntax, left: bool)
    requires WellFormed(x) && WellFormed(y) && WellFormed(z) && !x.Infixed? && !y.Infixed? && !z.Infixed?
    requires if left then Precedence(p) >= Precedence(q) else Precedence(p) < Precedence(q)
    ensures WellFormed(Grouped(x, p, y, q, z, left))
  {
    assert WellFormed(if left then Infixed(p, x, y) else Infixed(q, y, z));
  }

  /** Two operators in a row, between names, literals, calls or anything in parentheses, in any
      surroundings that cannot continue them: the operator of the tighter level is inside, and of
      two of one level the left one is. */
  lemma {:induction false} TighterLevelIsInside(before: seq<Token>, x: Syntax, p: Operator, y: Syntax, q: Operator,
                                                z: Syntax, after: seq<Token>)
    requires WellFormed(x) && WellFormed(y) && WellFormed(z) && !x.Infixed? && !y.Infixed? && !z.Infixed?
    requires after == [] || (!after[0].Infix? && !after[0].Open?)
    ensures ParseBinary(before + Tokens(x, p, y, q, z) + after, |before|, -1)
            == Some(Parsed(if LevelOf(p) <= LevelOf(q) then Infixed(q, Infixed(p, x, y), z)
                           else Infixed(p, x, Infixed(q, y, z)),
                           |before| + |Tokens(x, p, y, q, z)|))
  {
    hide ParseBinary, Yield, Tokens, LevelOf;
    TighterIsEarlier(p, q);
    var left := LevelOf(p) <= LevelOf(q);
    var c := Grouped(x, p, y, q, z, left);
    GroupedYields(x, p, y, q, z, left);
    GroupedIsWellFormed(x, p, y, q, z, left);
    var ts := before + Yield(c) + after;
    assert ts[|before|..|before| + |Yield(c)|] == Yield(c);
    var end := |before| + |Yield(c)|;
    assert !Peek(ts, end).Infix? && !Peek(ts, end).Open? by {
      if after != [] {
        assert ts[end] == after[0];
      }
    }
    ParsesWhatIsCovered(ts, |before|, -1, c);
  }

  /** `a p b q c` for literals: so `1 + 2 * 3` is 1 + (2 * 3), and `1 - 2 - 3` is (1 - 2) - 3. */
  lemma {:induction false} LiteralsGroup(a: string, p: Operator, b: string, q: Operator, c: string)
    ensures var ts := [Constant(a), Infix(p), Constant(b), Infix(q), Constant(c)];
            var r := ParseBinary(ts, 0, -1);
            && r.Some? && r.value.next == 5
            && Erase(r.value.tree) ==
               if LevelOf(p) <= LevelOf(q) then Binary(q, Binary(p, Literal(a), Literal(b)), Literal(c))
               else Binary(p, Literal(a), Binary(q, Literal(b), Literal(c)))
  {
    hide ParseBinary, LevelOf;
    var x, y, z := Leaf(Constant(a)), Leaf(Constant(b)), Leaf(Constant(c));
    TighterLevelIsInside([], x, p, y, q, z, []);
    var ts := [Constant(a), Infix(p), Constant(b), Infix(q), Constant(c)];
    assert [] + Tokens(x, p, y, q, z) + [] == ts;
    assert |Tokens(x, p, y, q, z)| == 5;
    assert Erase(x) == Literal(a) && Erase(y) == Literal(b) && Erase(z) == Literal(c);
    assert Erase(Infixed(p, x, y)) == Binary(p, Literal(a), Literal(b));
    assert Erase(Infixed(q, y, z)) == Binary(q, Literal(b), Literal(c));
  }
}
