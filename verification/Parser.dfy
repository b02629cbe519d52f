// The precedence-climbing parser of parse.cpp as functions of the token sequence and a
// position. None is a failure, for which the original returns its starting state.
module Parser {
  import opened Grammar
  import opened Words

  function Peek(ts: seq<Token>, i: nat): Token { if i < |ts| then ts[i] else Other }

  function PrecedenceAt(ts: seq<Token>, i: nat): nat
  {
    if Peek(ts, i).Infix? then Precedence(Peek(ts, i).op) else 0
  }

  datatype Parsed = Parsed(tree: Syntax, next: nat)

  datatype ParsedArguments = ParsedArguments(arguments: seq<Syntax>, trailingComma: bool, next: nat)

  predicate Advances(ts: seq<Token>, i: nat, r: Option<Parsed>)
  {
    r.Some? ==> i < r.value.next <= |ts|
  }

  function ParsePrimary(ts: seq<Token>, i: nat): (r: Option<Parsed>)
    requires i <= |ts|
    ensures Advances(ts, i, r)
    decreases |ts| - i, 1
  {
    var t := Peek(ts, i);
    if t.Identifier? || t.Constant? then Some(Parsed(Leaf(t), i + 1))
    else if t.Open? then
      match ParseBinary(ts, i + 1, -1)
      case None => None
      case Some(inner) => if Peek(ts, inner.next).Close? then Some(Parsed(Paren(inner.tree), inner.next + 1)) else None
    else None
  }

  /** The arguments of a call, the first of them or those after a comma. */
  function ParseArguments(ts: seq<Token>, i: nat, first: bool): (r: Option<ParsedArguments>)
    requires i <= |ts|
    ensures r.Some? ==> i < r.value.next <= |ts|
    decreases |ts| - i, 4
  {
    if Peek(ts, i).Close? then Some(ParsedArguments([], !first, i + 1)) else
    match ParseBinary(ts, i, -1)
    case None => None
    case Some(argument) =>
      if Peek(ts, argument.next).Comma? then
        match ParseArguments(ts, argument.next + 1, false)
        case None => None
        case Some(rest) => Some(ParsedArguments([argument.tree] + rest.arguments, rest.trailingComma, rest.next))
      else if Peek(ts, argument.next).Close? then Some(ParsedArguments([argument.tree], false, argument.next + 1))
      else None
  }

  function ParseSuffix(ts: seq<Token>, i: nat): (r: Option<ParsedArguments>)
    requires i <= |ts|
    ensures r.Some? ==> i < r.value.next <= |ts|
    decreases |ts| - i, 0
  {
    if Peek(ts, i).Open? then ParseArguments(ts, i + 1, true) else None
  }

  /** A primary and at most one call suffix; a suffix that does not parse is left alone. */
  function ParseOperand(ts: seq<Token>, i: nat): (r: Option<Parsed>)
    requires i <= |ts|
    ensures Advances(ts, i, r)
    decreases |ts| - i, 2
  {
    match ParsePrimary(ts, i)
    case None => None
    case Some(p) =>
      match ParseSuffix(ts, p.next)
      case None => Some(p)
      case Some(s) => Some(Parsed(Apply(p.tree, s.arguments, s.trailingComma), s.next))
  }

  /** The operator loop with `lhs` read so far. */
  function ParseOperators(ts: seq<Token>, i: nat, lhs: Syntax, bound: int): (r: Option<Parsed>)
    requires i <= |ts|
    ensures r.Some? ==> i <= r.value.next <= |ts|
    decreases |ts| - i, 4
  {
    var prec := PrecedenceAt(ts, i);
    if prec == 0 || prec <= bound then Some(Parsed(lhs, i)) else
    match ParseBinary(ts, i + 1, prec)
    case None => None
    case Some(rhs) => ParseOperators(ts, rhs.next, Infixed(Peek(ts, i).op, lhs, rhs.tree), bound)
  }

  /** An expression of operators that bind tighter than `bound`. */
  function ParseBinary(ts: seq<Token>, i: nat, bound: int): (r: Option<Parsed>)
    requires i <= |ts|
    ensures Advances(ts, i, r)
    decreases |ts| - i, 3
  {
    match ParseOperand(ts, i)
    case None => None
    case Some(lhs) => ParseOperators(ts, lhs.next, lhs.tree, bound)
  }

  // ----- the loops that do it -----

  /** A parsing method hands back its starting position where the specification fails. */
  predicate Matches(start: nat, q: nat, node: Tree, spec: Option<Parsed>)
  {
    match spec
    case None => q == start
    case Some(p) => q == p.next && node == Erase(p.tree)
  }

  lemma {:induction false} EraseAppend(cs: seq<Syntax>, c: Syntax)
    ensures EraseAll(cs + [c]) == EraseAll(cs) + [Erase(c)]
  {
    if cs == [] {
      assert cs + [c] == [c];
    } else {
      assert (cs + [c])[1..] == cs[1..] + [c];
      EraseAppend(cs[1..], c);
    }
  }

  method ParsePrimaryExpr(ts: seq<Token>, p: nat) returns (q: nat, node: Tree)
    requires p <= |ts|
    ensures Matches(p, q, node, ParsePrimary(ts, p))
    decreases |ts| - p, 1
  {
    node := Name("");
    match Peek(ts, p)
    case Identifier(name) =>
      return p + 1, Name(name);
    case Constant(text) =>
      return p + 1, Literal(text);
    case Open =>
      var r;
      r, node := ParseBinaryExpr(ts, p + 1, -1);
      if r <= p + 1 || Peek(ts, r) != Close {
        return p, node;
      }
      q := r + 1;
    case _ =>
      q := p;
  }

  method ParseExpressionSuffix(ts: seq<Token>, p: nat, lhs: Tree) returns (q: nat, node: Tree)
    requires p <= |ts|
    ensures match ParseSuffix(ts, p)
            case None => q == p
            case Some(s) => q == s.next && node == Call(lhs, EraseAll(s.arguments))
    decreases |ts| - p, 0
  {
    hide ParseArguments, ArgumentsFrom, ParseBinary, EraseAll;
    node := lhs;
    if Peek(ts, p) != Open {
      return p, node;
    }
    var at := p + 1;
    NothingRead(ts, at);
    var arguments: seq<Tree> := [];
    ghost var done: seq<Syntax> := [];
    var requireClose := false;
    while true
      invariant p < at <= |ts| && arguments == EraseAll(done)
      invariant requireClose ==>
        ArgumentsFrom(ts, p + 1, done, if Peek(ts, at).Close? then Some(ParsedArguments([], false, at + 1)) else None)
      invariant !requireClose ==> ArgumentsFrom(ts, p + 1, done, ParseArguments(ts, at, done == []))
      decreases |ts| - at, !requireClose
    {
      if requireClose {
        Closed(ts, p + 1, done, at);
        if Peek(ts, at) != Close {
          return p, node;
        }
        at := at + 1;
        break;
      } else if Peek(ts, at) == Close {
        ClosedAtOnce(ts, p + 1, done, at);
        at := at + 1;
        break;
      }
      NoArgument(ts, p + 1, done, at);
      var next, argument := ParseBinaryExpr(ts, at, -1);
      if next <= at {
        return p, node;
      }
      ghost var tree := ParseBinary(ts, at, -1).value.tree;
      EraseAppend(done, tree);
      ArgumentRead(ts, p + 1, done, at);
      arguments := arguments + [argument];
      done := done + [tree];
      at := next;
      if Peek(ts, at) == Comma {
        at := at + 1;
      } else {
        requireClose := true;
      }
    }
    q, node := at, Call(lhs, arguments);
  }

  /** With `done` read, the whole argument list is `done` and then what `rest` gives. */
  predicate ArgumentsFrom(ts: seq<Token>, i: nat, done: seq<Syntax>, rest: Option<ParsedArguments>)
    requires i <= |ts|
  {
    match rest
    case None => ParseArguments(ts, i, true).None?
    case Some(r) =>
      && ParseArguments(ts, i, true).Some?
      && ParseArguments(ts, i, true).value.arguments == done + r.arguments
      && ParseArguments(ts, i, true).value.next == r.next
  }

  lemma NothingRead(ts: seq<Token>, i: nat)
    requires i <= |ts|
    ensures ArgumentsFrom(ts, i, [], ParseArguments(ts, i, true)) && EraseAll([]) == []
  {
    if ParseArguments(ts, i, true).Some? {
      assert [] + ParseArguments(ts, i, true).value.arguments == ParseArguments(ts, i, true).value.arguments;
    }
  }

  lemma Closed(ts: seq<Token>, i: nat, done: seq<Syntax>, at: nat)
    requires i <= |ts|
    requires ArgumentsFrom(ts, i, done,
                           if Peek(ts, at).Close? then Some(ParsedArguments([], false, at + 1)) else None)
    ensures var all := ParseArguments(ts, i, true);
            if Peek(ts, at).Close? then all.Some? && all.value.arguments == done && all.value.next == at + 1
            else all.None?
  {
    assert done + [] == done;
  }

  lemma ClosedAtOnce(ts: seq<Token>, i: nat, done: seq<Syntax>, at: nat)
    requires i <= |ts| && at <= |ts| && Peek(ts, at).Close?
    requires ArgumentsFrom(ts, i, done, ParseArguments(ts, at, done == []))
    ensures var all := ParseArguments(ts, i, true);
            all.Some? && all.value.arguments == done && all.value.next == at + 1
  {
    assert done + [] == done;
  }

  lemma NoArgument(ts: seq<Token>, i: nat, done: seq<Syntax>, at: nat)
    requires i <= |ts| && at <= |ts| && !Peek(ts, at).Close?
    requires ArgumentsFrom(ts, i, done, ParseArguments(ts, at, done == []))
    ensures ParseBinary(ts, at, -1).None? ==> ParseArguments(ts, i, true).None?
  {}

  lemma ArgumentRead(ts: seq<Token>, i: nat, done: seq<Syntax>, at: nat)
    requires i <= |ts| && at <= |ts| && !Peek(ts, at).Close? &&
             ArgumentsFrom(ts, i, done, ParseArguments(ts, at, done == []))
    requires ParseBinary(ts, at, -1).Some?
    ensures var a := ParseBinary(ts, at, -1).value;
            var done' := done + [a.tree];
            && (Peek(ts, a.next).Comma? ==> ArgumentsFrom(ts, i, done', ParseArguments(ts, a.next + 1, false)))
            && (!Peek(ts, a.next).Comma? ==>
                  ArgumentsFrom(ts, i, done',
                                if Peek(ts, a.next).Close? then Some(ParsedArguments([], false, a.next + 1)) else None))
  {
    var a := ParseBinary(ts, at, -1).value;
    if Peek(ts, a.next).Comma? {
      var rest := ParseArguments(ts, a.next + 1, false);
      if rest.Some? {
        assert done + ([a.tree] + rest.value.arguments) == done + [a.tree] + rest.value.arguments;
      }
    } else {
      assert done + [a.tree] == done + [a.tree] + [];
    }
  }

  method ParseBinaryExpr(ts: seq<Token>, p: nat, bound: int) returns (q: nat, node: Tree)
    requires p <= |ts|
    ensures Matches(p, q, node, ParseBinary(ts, p, bound))
    decreases |ts| - p, 3
  {
    q, node := ParsePrimaryExpr(ts, p);
    if q <= p {
      return p, node;
    }
    ghost var lhs := ParsePrimary(ts, p).value.tree;
    var after, call := ParseExpressionSuffix(ts, q, node);
    if after > q {
      lhs := ParseOperand(ts, p).value.tree;
      q, node := after, call;
    }
    while true
      invariant p < q <= |ts| && node == Erase(lhs)
      invariant ParseBinary(ts, p, bound) == ParseOperators(ts, q, lhs, bound)
      decreases |ts| - q
    {
      var op := Peek(ts, q);
      var prec := PrecedenceAt(ts, q);
      if prec == 0 || prec <= bound {
        return;
      }
      var next, rhs := ParseBinaryExpr(ts, q + 1, prec);
      if next <= q + 1 {
        return p, node;
      }
      lhs := Infixed(op.op, lhs, ParseBinary(ts, q + 1, prec).value.tree);
      q, node := next, Binary(op.op, node, rhs);
    }
  }

  method ParseExpr(ts: seq<Token>, p: nat) returns (q: nat, node: Tree)
    requires p <= |ts|
    ensures Matches(p, q, node, ParseBinary(ts, p, -1))
  {
    q, node := ParseBinaryExpr(ts, p, -1);
  }
}
