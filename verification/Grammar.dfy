// Expressions as token sequences: the concrete trees that parse.cpp accepts, the tokens
// they consist of, and the abstract tree each stands for.
module Grammar {

  datatype Operator =
    | Asterisk | Slash | Percent | Plus | Minus | LeftShift | RightShift
    | LessThan | GreaterThan | LessThanOrEqual | GreaterThanOrEqual | EqualTo | Inequal
    | Ampersand | Caret | Bar | LogicalAnd | LogicalOr | Assign

  /** The higher the precedence, the tighter the operator binds. */
  function Precedence(op: Operator): nat
  {
    match op
    case Asterisk | Slash | Percent => 110
    case Plus | Minus => 100
    case LeftShift | RightShift => 90
    case LessThan | GreaterThan | LessThanOrEqual | GreaterThanOrEqual => 80
    case EqualTo | Inequal => 70
    case Ampersand => 50
    case Caret => 40
    case Bar => 30
    case LogicalAnd => 20
    case LogicalOr => 10
    case Assign => 5
  }

  /** Tokens as the expression parser tells them apart. `Constant` is a number, string, true
      or false that decodes; `BadConstant` one that does not; `Other` every other token, the
      end of the file included. */
  datatype Token =
    | Identifier(name: string) | Constant(text: string) | BadConstant
    | Infix(op: Operator) | Open | Close | Comma | Other

  /** Abstract syntax. */
  datatype Tree =
    | Name(name: string) | Literal(text: string) | Binary(op: Operator, lhs: Tree, rhs: Tree)
    | Call(callee: Tree, arguments: seq<Tree>)

  /** Concrete syntax: which parentheses were written, and whether a comma ended the
      arguments of a call. */
  datatype Syntax =
    | Leaf(token: Token)
    | Paren(inner: Syntax)
    | Apply(callee: Syntax, arguments: seq<Syntax>, trailingComma: bool)
    | Infixed(op: Operator, lhs: Syntax, rhs: Syntax)

  const TIGHTEST: nat := 200

  /** How tightly the outermost form binds. */
  function Tightness(c: Syntax): nat { if c.Infixed? then Precedence(c.op) else TIGHTEST }

  predicate Primary(c: Syntax) { c.Leaf? || c.Paren? }

  /** Left operands bind at least as tightly as their operator, right operands strictly
      tighter, and a primary takes at most one call. */
  predicate WellFormed(c: Syntax)
  {
    match c
    case Leaf(t) => t.Identifier? || t.Constant?
    case Paren(i) => WellFormed(i)
    case Apply(f, args, trailing) => Primary(f) && WellFormed(f) && AllWellFormed(args) && (trailing ==> args != [])
    case Infixed(op, l, r) =>
      WellFormed(l) && WellFormed(r) && Tightness(l) >= Precedence(op) && Tightness(r) > Precedence(op)
  }

  predicate AllWellFormed(cs: seq<Syntax>)
  {
    cs == [] || (WellFormed(cs[0]) && AllWellFormed(cs[1..]))
  }

  /** The tokens of a concrete tree. */
  function Yield(c: Syntax): (r: seq<Token>)
    ensures r != []
  {
    match c
    case Leaf(t) => [t]
    case Paren(i) => [Open] + Yield(i) + [Close]
    case Apply(f, args, trailing) => Yield(f) + ([Open] + YieldRest(args, trailing))
    case Infixed(op, l, r) => Yield(l) + ([Infix(op)] + Yield(r))
  }

  /** The remaining arguments of a call and its closing parenthesis. */
  function YieldRest(args: seq<Syntax>, trailing: bool): (r: seq<Token>)
    ensures r != []
  {
    if args == [] then [Close]
    else if |args| > 1 || trailing then Yield(args[0]) + ([Comma] + YieldRest(args[1..], trailing))
    else Yield(args[0]) + [Close]
  }

  /** The abstract tree: parentheses and trailing commas are forgotten. */
  function Erase(c: Syntax): Tree
  {
    match c
    case Leaf(t) => if t.Identifier? then Name(t.name) else if t.Constant? then Literal(t.text) else Name("")
    case Paren(i) => Erase(i)
    case Apply(f, args, _) => Call(Erase(f), EraseAll(args))
    case Infixed(op, l, r) => Binary(op, Erase(l), Erase(r))
  }

  function EraseAll(cs: seq<Syntax>): (r: seq<Tree>)
    ensures |r| == |cs|
  {
    if cs == [] then [] else [Erase(cs[0])] + EraseAll(cs[1..])
  }

  /** Whether the last operand could still take a call. */
  predicate OpenEnded(c: Syntax)
  {
    match c
    case Infixed(_, _, r) => OpenEnded(r)
    case _ => Primary(c)
  }
}
