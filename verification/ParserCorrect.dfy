// The parser accepts exactly the well-formed concrete trees, and no token sequence has two.
module ParserCorrect {
  import opened Grammar
  import opened Parser
  import opened Words

  /** The tokens `y` are at position i. */
  predicate At(ts: seq<Token>, i: nat, y: seq<Token>)
  {
    i + |y| <= |ts| && ts[i..i + |y|] == y
  }

  lemma AtTwo(ts: seq<Token>, i: nat, x: seq<Token>, y: seq<Token>)
    ensures At(ts, i, x + y) <==> At(ts, i, x) && At(ts, i + |x|, y)
  {
    if i + |x| + |y| <= |ts| {
      var m := ts[i..i + |x| + |y|];
      assert m == ts[i..i + |x|] + ts[i + |x|..i + |x| + |y|];
      assert m == x + y ==> m[..|x|] == x && m[|x|..] == y;
    }
  }

  lemma AtOne(ts: seq<Token>, i: nat, t: Token)
    ensures At(ts, i, [t]) <==> i < |ts| && ts[i] == t
  {}

  /** After c, the token at j neither is an operator that would take c's last operand away
      nor starts a call that c could take. */
  predicate StopsAfter(ts: seq<Token>, j: nat, c: Syntax)
    requires j <= |ts|
  {
    PrecedenceAt(ts, j) <= Tightness(c) && (OpenEnded(c) ==> ParseSuffix(ts, j).None?)
  }

  /** c is the longest expression at i whose operators bind tighter than `bound`. */
  predicate Covers(ts: seq<Token>, i: nat, bound: int, c: Syntax)
  {
    && WellFormed(c)
    && At(ts, i, Yield(c))
    && Tightness(c) > bound
    && (PrecedenceAt(ts, i + |Yield(c)|) == 0 || PrecedenceAt(ts, i + |Yield(c)|) <= bound)
    && (OpenEnded(c) ==> ParseSuffix(ts, i + |Yield(c)|).None?)
  }

  // ----- completeness -----

  lemma {:induction false} CompletePrimary(ts: seq<Token>, i: nat, c: Syntax)
    requires i <= |ts| && WellFormed(c) && Primary(c) && At(ts, i, Yield(c))
    ensures ParsePrimary(ts, i) == Some(Parsed(c, i + |Yield(c)|))
    decreases c, 1
  {
    hide ParseBinary, ParseOperators, At;
    match c
    case Leaf(t) => AtOne(ts, i, t);
    case Paren(inner) =>
      var y := Yield(inner);
      AtTwo(ts, i, [Open] + y, [Close]);
      AtTwo(ts, i, [Open], y);
      AtOne(ts, i, Open);
      AtOne(ts, i + 1 + |y|, Close);
      Complete(ts, i + 1, inner, -1);
      StopLoop(ts, i + 1 + |y|, inner, -1);
  }

  lemma StopLoop(ts: seq<Token>, i: nat, c: Syntax, bound: int)
    requires i <= |ts| && (PrecedenceAt(ts, i) == 0 || PrecedenceAt(ts, i) <= bound)
    ensures ParseOperators(ts, i, c, bound) == Some(Parsed(c, i))
  {}

  lemma {:induction false} CompleteArguments(ts: seq<Token>, i: nat, args: seq<Syntax>, trailing: bool, first: bool)
    requires i <= |ts| && AllWellFormed(args) && At(ts, i, YieldRest(args, trailing)) &&
             (args == [] ==> trailing == !first)
    ensures ParseArguments(ts, i, first) == Some(ParsedArguments(args, trailing, i + |YieldRest(args, trailing)|))
    decreases args
  {
    hide ParseBinary, ParseOperators, At, Yield;
    if args == [] {
      AtOne(ts, i, Close);
    } else {
      var y := Yield(args[0]);
      NotAtClose(ts, i, args, trailing);
      if |args| > 1 || trailing {
        var rest := YieldRest(args[1..], trailing);
        AtTwo(ts, i, y, [Comma] + rest);
        AtTwo(ts, i + |y|, [Comma], rest);
        AtOne(ts, i + |y|, Comma);
        Complete(ts, i, args[0], -1);
        StopLoop(ts, i + |y|, args[0], -1);
        CompleteArguments(ts, i + |y| + 1, args[1..], trailing, false);
        assert [args[0]] + args[1..] == args;
      } else {
        AtTwo(ts, i, y, [Close]);
        AtOne(ts, i + |y|, Close);
        Complete(ts, i, args[0], -1);
        StopLoop(ts, i + |y|, args[0], -1);
        assert [args[0]] == args;
      }
    }
  }

  /** No expression starts with a closing parenthesis. */
  lemma {:induction false} StartsWithOperand(c: Syntax)
    requires WellFormed(c)
    ensures !Yield(c)[0].Close?
  {
    match c
    case Apply(f, _, _) => StartsWithOperand(f);
    case Infixed(_, l, _) => StartsWithOperand(l);
    case _ =>
  }

  lemma NotAtClose(ts: seq<Token>, i: nat, args: seq<Syntax>, trailing: bool)
    requires i <= |ts| && args != [] && AllWellFormed(args) && At(ts, i, YieldRest(args, trailing))
    ensures !Peek(ts, i).Close?
  {
    StartsWithOperand(args[0]);
    var y := YieldRest(args, trailing);
    assert y[0] == Yield(args[0])[0];
    assert ts[i..i + |y|][0] == ts[i];
  }

  lemma {:induction false} CompleteOperand(ts: seq<Token>, i: nat, c: Syntax)
    requires i <= |ts| && WellFormed(c) && !c.Infixed? && At(ts, i, Yield(c)) && i + |Yield(c)| <= |ts|
    requires Primary(c) ==> ParseSuffix(ts, i + |Yield(c)|).None?
    ensures ParseOperand(ts, i) == Some(Parsed(c, i + |Yield(c)|))
    decreases c, 2
  {
    hide ParsePrimary, ParseArguments, At;
    if c.Apply? {
      var f, y, rest := c.callee, Yield(c.callee), YieldRest(c.arguments, c.trailingComma);
      AtTwo(ts, i, y, [Open] + rest);
      AtTwo(ts, i + |y|, [Open], rest);
      AtOne(ts, i + |y|, Open);
      CompletePrimary(ts, i, f);
      CompleteArguments(ts, i + |y| + 1, c.arguments, c.trailingComma, true);
    } else {
      CompletePrimary(ts, i, c);
    }
  }

  /** Reading a well-formed tree brings the operator loop to its end with that tree. */
  lemma {:induction false} Complete(ts: seq<Token>, i: nat, c: Syntax, bound: int)
    requires i <= |ts| && WellFormed(c) && At(ts, i, Yield(c)) && i + |Yield(c)| <= |ts|
    requires Tightness(c) > bound && StopsAfter(ts, i + |Yield(c)|, c)
    ensures ParseBinary(ts, i, bound) == ParseOperators(ts, i + |Yield(c)|, c, bound)
    decreases c, 3
  {
    hide ParseOperand, ParseBinary, ParseOperators, ParseSuffix, At;
    if c.Infixed? {
      var op, l, r := c.op, c.lhs, c.rhs;
      var y, z := Yield(l), Yield(r);
      AtTwo(ts, i, y, [Infix(op)] + z);
      AtTwo(ts, i + |y|, [Infix(op)], z);
      AtOne(ts, i + |y|, Infix(op));
      NoSuffixAtOperator(ts, i + |y|);
      Complete(ts, i, l, bound);
      Complete(ts, i + |y| + 1, r, Precedence(op));
      StopLoop(ts, i + |y| + 1 + |z|, r, Precedence(op));
      OneOperator(ts, i + |y|, op, l, r, i + |y| + 1 + |z|, bound);
    } else {
      CompleteOperand(ts, i, c);
      OperandFirst(ts, i, bound);
    }
  }

  lemma OperandFirst(ts: seq<Token>, i: nat, bound: int)
    requires i <= |ts| && ParseOperand(ts, i).Some?
    ensures ParseBinary(ts, i, bound) ==
            var lhs := ParseOperand(ts, i).value; ParseOperators(ts, lhs.next, lhs.tree, bound)
  {}

  lemma OneOperator(ts: seq<Token>, j: nat, op: Operator, l: Syntax, r: Syntax, k: nat, bound: int)
    requires j < |ts| && ts[j] == Infix(op) && Precedence(op) > bound && k <= |ts|
    requires ParseBinary(ts, j + 1, Precedence(op)) == Some(Parsed(r, k))
    ensures ParseOperators(ts, j, l, bound) == ParseOperators(ts, k, Infixed(op, l, r), bound)
  {}

  lemma NoSuffixAtOperator(ts: seq<Token>, i: nat)
    requires i <= |ts| && !Peek(ts, i).Open?
    ensures ParseSuffix(ts, i).None?
  {}

  lemma {:induction false} ParsesWhatIsCovered(ts: seq<Token>, i: nat, bound: int, c: Syntax)
    requires i <= |ts| && Covers(ts, i, bound, c)
    ensures ParseBinary(ts, i, bound) == Some(Parsed(c, i + |Yield(c)|))
  {
    hide ParseBinary, ParseOperators, ParseSuffix, Yield;
    Complete(ts, i, c, bound);
    StopLoop(ts, i + |Yield(c)|, c, bound);
  }

  // ----- soundness -----

  /** c was read from i up to j. */
  predicate Reads(ts: seq<Token>, i: nat, c: Syntax, j: nat)
  {
    WellFormed(c) && At(ts, i, Yield(c)) && j == i + |Yield(c)|
  }

  lemma {:induction false} SoundPrimary(ts: seq<Token>, i: nat)
    requires i <= |ts| && ParsePrimary(ts, i).Some?
    ensures var p := ParsePrimary(ts, i).value; Primary(p.tree) && Reads(ts, i, p.tree, p.next)
    decreases |ts| - i, 1
  {
    hide ParseBinary, At;
    if Peek(ts, i).Open? {
      var inner := ParseBinary(ts, i + 1, -1).value;
      Sound(ts, i + 1, -1);
      AtOne(ts, i, Open);
      AtTwo(ts, i, [Open], Yield(inner.tree));
      AtOne(ts, inner.next, Close);
      AtTwo(ts, i, [Open] + Yield(inner.tree), [Close]);
    } else {
      AtOne(ts, i, Peek(ts, i));
    }
  }

  predicate ReadsArguments(ts: seq<Token>, i: nat, p: ParsedArguments, first: bool)
  {
    && AllWellFormed(p.arguments)
    && At(ts, i, YieldRest(p.arguments, p.trailingComma))
    && p.next == i + |YieldRest(p.arguments, p.trailingComma)|
    && (p.arguments == [] ==> p.trailingComma == !first)
  }

  lemma {:induction false} SoundArguments(ts: seq<Token>, i: nat, first: bool)
    requires i <= |ts| && ParseArguments(ts, i, first).Some?
    ensures ReadsArguments(ts, i, ParseArguments(ts, i, first).value, first)
    decreases |ts| - i, 4
  {
    hide ParseBinary, At, Yield;
    if Peek(ts, i).Close? {
      AtOne(ts, i, Close);
    } else {
      var a := ParseBinary(ts, i, -1).value;
      Sound(ts, i, -1);
      var all := ParseArguments(ts, i, first).value;
      if Peek(ts, a.next).Comma? {
        SoundArguments(ts, a.next + 1, false);
        var rest := ParseArguments(ts, a.next + 1, false).value;
        assert all.arguments[1..] == rest.arguments;
        AtOne(ts, a.next, Comma);
        AtTwo(ts, a.next, [Comma], YieldRest(rest.arguments, rest.trailingComma));
        AtTwo(ts, i, Yield(a.tree), [Comma] + YieldRest(rest.arguments, rest.trailingComma));
      } else {
        assert all.arguments == [a.tree] && all.arguments[1..] == [];
        AtOne(ts, a.next, Close);
        AtTwo(ts, i, Yield(a.tree), [Close]);
        assert AllWellFormed(all.arguments);
        assert YieldRest(all.arguments, false) == Yield(a.tree) + [Close];
        assert all.next == a.next + 1;
      }
    }
  }

  lemma {:induction false} SoundOperand(ts: seq<Token>, i: nat)
    requires i <= |ts| && ParseOperand(ts, i).Some?
    ensures var p := ParseOperand(ts, i).value;
            && Reads(ts, i, p.tree, p.next) && !p.tree.Infixed? && (OpenEnded(p.tree) ==> ParseSuffix(ts, p.next).None?)
    decreases |ts| - i, 2
  {
    hide ParsePrimary, ParseArguments, At;
    SoundPrimary(ts, i);
    var p := ParsePrimary(ts, i).value;
    if ParseSuffix(ts, p.next).Some? {
      var s := ParseSuffix(ts, p.next).value;
      SoundArguments(ts, p.next + 1, true);
      AtOne(ts, p.next, Open);
      AtTwo(ts, p.next, [Open], YieldRest(s.arguments, s.trailingComma));
      AtTwo(ts, i, Yield(p.tree), [Open] + YieldRest(s.arguments, s.trailingComma));
    }
  }

  /** What the operator loop keeps about the operand it has read. */
  predicate LoopKeeps(ts: seq<Token>, i: nat, c: Syntax, j: nat, bound: int)
    requires j <= |ts|
  {
    Reads(ts, i, c, j) && Tightness(c) > bound && StopsAfter(ts, j, c)
  }

  lemma {:induction false} SoundOperators(ts: seq<Token>, i: nat, lhs: Syntax, j: nat, bound: int)
    requires i <= j <= |ts| && bound < TIGHTEST && LoopKeeps(ts, i, lhs, j, bound) &&
             ParseOperators(ts, j, lhs, bound).Some?
    ensures var p := ParseOperators(ts, j, lhs, bound).value;
            && LoopKeeps(ts, i, p.tree, p.next, bound)
            && (PrecedenceAt(ts, p.next) == 0 || PrecedenceAt(ts, p.next) <= bound)
    decreases |ts| - j, 4
  {
    hide ParseBinary, ParseSuffix, At;
    var prec := PrecedenceAt(ts, j);
    if prec != 0 && prec > bound {
      var rhs := ParseBinary(ts, j + 1, prec).value;
      Sound(ts, j + 1, prec);
      var op := Peek(ts, j).op;
      AtOne(ts, j, Infix(op));
      AtTwo(ts, j, [Infix(op)], Yield(rhs.tree));
      AtTwo(ts, i, Yield(lhs), [Infix(op)] + Yield(rhs.tree));
      SoundOperators(ts, i, Infixed(op, lhs, rhs.tree), rhs.next, bound);
    }
  }

  lemma {:induction false} Sound(ts: seq<Token>, i: nat, bound: int)
    requires i <= |ts| && bound < TIGHTEST && ParseBinary(ts, i, bound).Some?
    ensures var p := ParseBinary(ts, i, bound).value;
            Covers(ts, i, bound, p.tree) && LoopKeeps(ts, i, p.tree, p.next, bound)
    decreases |ts| - i, 3
  {
    hide ParseOperators, ParseOperand, ParseSuffix, At;
    var lhs := ParseOperand(ts, i).value;
    SoundOperand(ts, i);
    PrecedenceBelowTightest(ts, lhs.next);
    SoundOperators(ts, i, lhs.tree, lhs.next, bound);
  }

  lemma PrecedenceBelowTightest(ts: seq<Token>, i: nat)
    ensures PrecedenceAt(ts, i) < TIGHTEST
  {}

  // ----- the results -----

  /** A parse returns c exactly if c is a well-formed tree whose tokens start here, all of
      whose outer operators bind tighter than the bound, and which cannot be continued. */
  lemma {:induction false} ParserIsExact(ts: seq<Token>, i: nat, bound: int, c: Syntax, j: nat)
    requires i <= |ts| && bound < TIGHTEST
    ensures ParseBinary(ts, i, bound) == Some(Parsed(c, j)) <==> Covers(ts, i, bound, c) && j == i + |Yield(c)|
  {
    hide ParseBinary, Covers;
    if ParseBinary(ts, i, bound) == Some(Parsed(c, j)) {
      Sound(ts, i, bound);
    }
    if Covers(ts, i, bound, c) && j == i + |Yield(c)| {
      ParsesWhatIsCovered(ts, i, bound, c);
    }
  }

  /** It fails exactly where no such tree starts. */
  lemma {:induction false} ParserFailsExactly(ts: seq<Token>, i: nat, bound: int)
    requires i <= |ts| && bound < TIGHTEST
    ensures ParseBinary(ts, i, bound).None? <==> forall c :: !Covers(ts, i, bound, c)
  {
    hide ParseBinary, Covers;
    if ParseBinary(ts, i, bound).Some? {
      Sound(ts, i, bound);
    } else {
      forall c ensures !Covers(ts, i, bound, c) {
        ParserIsExact(ts, i, bound, c, i + |Yield(c)|);
      }
    }
  }

  /** The grammar is unambiguous: tokens determine the tree and its parentheses. */
  lemma {:induction false} TokensDetermineTree(c: Syntax, d: Syntax)
    requires WellFormed(c) && WellFormed(d) && Yield(c) == Yield(d)
    ensures c == d
  {
    var ts := Yield(c);
    assert ts[0..0 + |ts|] == ts;
    assert Peek(ts, |ts|) == Other;
    ParsesWhatIsCovered(ts, 0, -1, c);
    ParsesWhatIsCovered(ts, 0, -1, d);
  }

  // ----- printing -----

  /** The concrete tree with parentheses only where the form is looser than its place. */
  function Print(t: Tree, need: nat): Syntax
    decreases t, 0
  {
    match t
    case Name(n) => Leaf(Identifier(n))
    case Literal(x) => Leaf(Constant(x))
    case Binary(op, l, r) =>
      var c := Infixed(op, Print(l, Precedence(op)), Print(r, Precedence(op) + 1));
      if Precedence(op) < need then Paren(c) else c
    case Call(f, args) =>
      var callee := Print(f, TIGHTEST);
      Apply(if Primary(callee) then callee else Paren(callee), PrintAll(args), false)
  }

  function PrintAll(ts: seq<Tree>): (r: seq<Syntax>)
    ensures |r| == |ts|
    decreases ts, 1
  {
    if ts == [] then [] else [Print(ts[0], 0)] + PrintAll(ts[1..])
  }

  lemma {:induction false} PrintIsWellFormed(t: Tree, need: nat)
    requires need <= TIGHTEST
    ensures WellFormed(Print(t, need)) && Tightness(Print(t, need)) >= need && Erase(Print(t, need)) == t
    decreases t, 0
  {
    match t
    case Binary(op, l, r) =>
      PrintIsWellFormed(l, Precedence(op));
      PrintIsWellFormed(r, Precedence(op) + 1);
    case Call(f, args) =>
      PrintIsWellFormed(f, TIGHTEST);
      PrintAllIsWellFormed(args);
    case _ =>
  }

  lemma {:induction false} PrintAllIsWellFormed(ts: seq<Tree>)
    ensures AllWellFormed(PrintAll(ts)) && EraseAll(PrintAll(ts)) == ts
    decreases ts, 1
  {
    if ts != [] {
      PrintIsWellFormed(ts[0], 0);
      PrintAllIsWellFormed(ts[1..]);
      assert PrintAll(ts)[1..] == PrintAll(ts[1..]);
      assert [ts[0]] + ts[1..] == ts;
    }
  }

  /** Printing a tree and parsing the tokens gives the tree back and stops right behind it,
      whatever precedes, if what follows is no operator and no opening parenthesis. */
  lemma {:induction false} ParseUndoesPrint(before: seq<Token>, t: Tree, after: seq<Token>)
    requires after == [] || (!after[0].Infix? && !after[0].Open?)
    ensures var y := Yield(Print(t, 0));
            var parsed := ParseBinary(before + y + after, |before|, -1);
            parsed.Some? && Erase(parsed.value.tree) == t && parsed.value.next == |before| + |y|
  {
    hide ParseBinary, Print, Yield;
    PrintIsWellFormed(t, 0);
    var c := Print(t, 0);
    var ts := before + Yield(c) + after;
    assert ts[|before|..|before| + |Yield(c)|] == Yield(c);
    var j := |before| + |Yield(c)|;
    assert !Peek(ts, j).Infix? && !Peek(ts, j).Open? by {
      if after != [] {
        assert ts[j] == after[0];
      }
    }
    ParsesWhatIsCovered(ts, |before|, -1, c);
  }

  // ----- no parenthesis is redundant -----

  function Parens(c: Syntax): nat
  {
    match c
    case Leaf(_) => 0
    case Paren(i) => 1 + Parens(i)
    case Apply(f, args, _) => Parens(f) + ParensOfAll(args)
    case Infixed(_, l, r) => Parens(l) + Parens(r)
  }

  function ParensOfAll(cs: seq<Syntax>): nat
  {
    if cs == [] then 0 else Parens(cs[0]) + ParensOfAll(cs[1..])
  }

  lemma LooserNeedsFewer(t: Tree, need: nat)
    ensures Parens(Print(t, need)) <= 1 + Parens(Print(t, 0))
    ensures need == 0 ==> Parens(Print(t, need)) == Parens(Print(t, 0))
  {}

  /** Any way to write the tree has at least as many parentheses as the printed one. */
  lemma {:induction false} PrintIsMinimal(c: Syntax, need: nat)
    requires WellFormed(c) && need <= Tightness(c)
    ensures Parens(Print(Erase(c), need)) <= Parens(c)
    decreases c, 0
  {
    match c
    case Leaf(_) =>
    case Paren(i) =>
      PrintIsMinimal(i, 0);
      LooserNeedsFewer(Erase(i), need);
    case Apply(f, args, _) =>
      PrintIsMinimal(f, TIGHTEST);
      AllMinimal(args);
      if f.Paren? {
        PrintIsMinimal(f.inner, 0);
      }
    case Infixed(op, l, r) =>
      PrintIsMinimal(l, Precedence(op));
      PrintIsMinimal(r, Precedence(op) + 1);
  }

  lemma {:induction false} AllMinimal(cs: seq<Syntax>)
    requires AllWellFormed(cs)
    ensures ParensOfAll(PrintAll(EraseAll(cs))) <= ParensOfAll(cs)
    decreases cs, 1
  {
    if cs != [] {
      PrintIsMinimal(cs[0], 0);
      AllMinimal(cs[1..]);
      assert EraseAll(cs)[1..] == EraseAll(cs[1..]);
      assert PrintAll(EraseAll(cs))[1..] == PrintAll(EraseAll(cs[1..]));
    }
  }
}
