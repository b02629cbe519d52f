// From characters to trees and back: an expression written out as text is lexed into its
// tokens and parsed into itself.
module SourceText {
  import opened Words
  import G = Grammar
  import opened Scanner
  import opened Literals
  import opened TokenTexts
  import L = Lexing
  import P = Parser
  import PC = ParserCorrect

  // ----- what tokens look like -----

  /** The operator a simple token stands for. */
  function OperatorOf(ty: Type): Option<G.Operator>
  {
    match ty
    case Asterisk => Some(G.Asterisk) case Slash => Some(G.Slash) case Mod => Some(G.Percent)
    case Plus => Some(G.Plus) case Minus => Some(G.Minus) case Assign => Some(G.Assign)
    case BitAnd => Some(G.Ampersand) case BitXor => Some(G.Caret) case BitOr => Some(G.Bar)
    case LeftShift => Some(G.LeftShift) case RightShift => Some(G.RightShift)
    case LogicalAnd => Some(G.LogicalAnd) case LogicalOr => Some(G.LogicalOr)
    case EqualTo => Some(G.EqualTo) case Inequal => Some(G.Inequal)
    case GreaterThanOrEqual => Some(G.GreaterThanOrEqual) case LessThanOrEqual => Some(G.LessThanOrEqual)
    case GreaterThan => Some(G.GreaterThan) case LessThan => Some(G.LessThan)
    case _ => None
  }

  /** How the expression parser sees a token. Floating-point literals are not part of this
      model. */
  function Classify(ty: Type, text: string): G.Token
  {
    if OperatorOf(ty).Some? then G.Infix(OperatorOf(ty).value) else
    match ty
    case ParenthesisOpen => G.Open
    case ParenthesisClose => G.Close
    case Comma => G.Comma
    case Identifier => G.Identifier(text)
    case Keyword => if text == "true" || text == "false" then G.Constant(text) else G.Other
    case NumberLiteral => if text != "" && DecodeInteger(text).Some? then G.Constant(text) else G.BadConstant
    case StringLiteral => if |text| >= 2 && DecodeString(text).Some? then G.Constant(text) else G.BadConstant
    case _ => G.Other
  }

  predicate ValidName(s: string)
  {
    IsWord(s) && !IsReserved(s)
  }

  datatype Value = Number(n: nat, hex: bool, unsigned: bool) | Text(s: string) | Truth(b: bool)

  predicate Writable(v: Value)
  {
    match v
    case Number(n, _, _) => n < LIMIT
    case Text(s) => NUL !in s && !EndsInBackslash(s)
    case Truth(_) => true
  }

  function Write(v: Value): string
  {
    match v
    case Number(n, hex, unsigned) => IntegerText(n, hex, unsigned)
    case Text(s) => Quote(s)
    case Truth(b) => if b then "true" else "false"
  }

  ghost predicate ValidLiteral(text: string) { exists v :: Writable(v) && text == Write(v) }

  /** The tokens of expressions, as far as they can be written. */
  ghost predicate ValidToken(t: G.Token)
  {
    match t
    case Identifier(name) => ValidName(name)
    case Constant(text) => ValidLiteral(text)
    case Infix(_) => true
    case Open => true
    case Close => true
    case Comma => true
    case _ => false
  }

  predicate IsSymbol(t: G.Token) { t.Infix? || t.Open? || t.Close? || t.Comma? }

  /** The type of a symbol. */
  function SymbolType(t: G.Token): (ty: Type)
    requires IsSymbol(t)
    ensures Spelling(ty).Some?
  {
    match t
    case Open => ParenthesisOpen
    case Close => ParenthesisClose
    case Comma => Comma
    case Infix(op) =>
      match op
      case Asterisk => Asterisk case Slash => Slash case Percent => Type.Mod case Plus => Plus case Minus => Minus
      case Assign => Assign case Ampersand => Type.BitAnd case Caret => Type.BitXor case Bar => Type.BitOr
      case LeftShift => LeftShift case RightShift => RightShift case LogicalAnd => LogicalAnd
      case LogicalOr => LogicalOr case EqualTo => EqualTo case Inequal => Inequal
      case GreaterThanOrEqual => GreaterThanOrEqual case LessThanOrEqual => LessThanOrEqual
      case GreaterThan => GreaterThan case LessThan => LessThan
  }

  ghost function TextOf(t: G.Token): string
    requires ValidToken(t)
  {
    if t.Identifier? then t.name
    else if t.Constant? then t.text
    else Spelling(SymbolType(t)).value
  }

  // ----- one token and a blank -----

  /** t's text is at i, followed by a blank, and is lexed as t. */
  ghost predicate Lexes(src: string, i: nat, t: G.Token)
    requires ValidToken(t) && i <= |src|
  {
    && Scan(src, i).Scanned?
    && Scan(src, i).ty != Eof
    && Scan(src, i).end == i + |TextOf(t)|
    && Classify(Scan(src, i).ty, TextOf(t)) == t
  }

  lemma SymbolTypeClassifies(t: G.Token, text: string)
    requires IsSymbol(t)
    ensures SymbolType(t) != Eof && Classify(SymbolType(t), text) == t
  {}

  lemma SpellingsAreTight(ty: Type)
    requires Spelling(ty).Some?
    ensures ' ' !in Spelling(ty).value && !IsWhite(Spelling(ty).value[0])
    ensures Spelling(ty).value[0] == '/' ==> |Spelling(ty).value| == 1
  {}

  lemma {:induction false} SymbolLexes(src: string, i: nat, t: G.Token)
    requires IsSymbol(t) && StartsWith(src, i, TextOf(t) + " ")
    ensures Lexes(src, i, t) && !IsWhite(CharAt(src, i))
  {
    hide Spelling, SymbolType, Classify, StartsWith, Scan;
    var ty, w := SymbolType(t), TextOf(t);
    SymbolTypeClassifies(t, w);
    SymbolsStart(ty);
    SpellingsAreTight(ty);
    CharsOf(src, i, w + " ", 0);
    CharsOf(src, i, w + " ", |w|);
    MiddleOf(src, i, w + " ", 0, |w|);
    assert (w + " ")[0..|w|] == w;
    forall other | Reads(src, i, other) ensures |Spelling(other).value| <= |w| {
      if |Spelling(other).value| > |w| {
        CharsOf(src, i, Spelling(other).value, |w|);
        SpellingsAreTight(other);
      }
    }
    NoCommentBefore(src, i);
    LongestSymbolIsRead(src, i, ty);
  }

  // words

  lemma {:induction false} SplitAt(src: string, i: nat, w: string)
    requires StartsWith(src, i, w + " ")
    ensures src == src[..i] + w + src[i + |w|..] && i + |w| < |src| && src[i + |w|] == ' '
  {
    CharsOf(src, i, w + " ", |w|);
    MiddleOf(src, i, w + " ", 0, |w|);
    assert (w + " ")[0..|w|] == w;
    assert src[i..i + |w|] == w;
  }

  /** A word followed by a blank: keyword or identifier, whichever it is. */
  lemma {:induction false} WordLexes(src: string, i: nat, w: string)
    requires IsWord(w) && StartsWith(src, i, w + " ")
    ensures Scan(src, i) == Scanned(if IsReserved(w) then Keyword else Identifier, i + |w|)
    ensures !IsWhite(CharAt(src, i))
  {
    hide Scan, IsReserved, StartsWith;
    SplitAt(src, i, w);
    WordsLexToOneToken(src[..i], w, src[i + |w|..]);
    CharsOf(src, i, w + " ", 0);
  }

  lemma {:induction false} TruthLexes(src: string, i: nat, b: bool)
    requires StartsWith(src, i, Write(Truth(b)) + " ")
    ensures Scan(src, i) == Scanned(Keyword, i + |Write(Truth(b))|) && !IsWhite(CharAt(src, i))
  {
    WordLexes(src, i, Write(Truth(b)));
  }

  lemma {:induction false} LiteralLexes(src: string, i: nat, v: Value)
    requires Writable(v) && StartsWith(src, i, Write(v) + " ")
    ensures ValidLiteral(Write(v)) && Lexes(src, i, G.Constant(Write(v))) && !IsWhite(CharAt(src, i))
  {
    hide Scan, SIMPLE_TOKENS, DecodeInteger, DecodeString, IntegerText, Quote, KEYWORDS, StartsWith;
    var w := Write(v);
    SplitAt(src, i, w);
    match v
    case Number(n, hex, unsigned) =>
      IntegersLexToOneToken(src[..i], n, hex, unsigned, src[i + |w|..]);
      IntegersDecode(n, hex, unsigned);
      NumberStart(src, i, n, hex, unsigned);
    case Text(s) =>
      QuotedStringsRoundTrip(src[..i], s, src[i + |w|..]);
      QuoteStart(src, i, s);
    case Truth(b) => TruthLexes(src, i, b);
  }

  lemma NumberStart(src: string, i: nat, n: nat, hex: bool, unsigned: bool)
    requires StartsWith(src, i, IntegerText(n, hex, unsigned) + " ")
    ensures !IsWhite(CharAt(src, i))
  {
    CharsOf(src, i, IntegerText(n, hex, unsigned) + " ", 0);
    DecimalDigitsAreDigits(Digits(n, 10), 0);
  }

  lemma QuoteStart(src: string, i: nat, s: string)
    requires StartsWith(src, i, Quote(s) + " ")
    ensures !IsWhite(CharAt(src, i))
  {
    CharsOf(src, i, Quote(s) + " ", 0);
  }

  lemma {:induction false} TokenLexes(src: string, i: nat, t: G.Token)
    requires ValidToken(t) && StartsWith(src, i, TextOf(t) + " ")
    ensures Lexes(src, i, t) && !IsWhite(CharAt(src, i))
  {
    hide Scan, SIMPLE_TOKENS, KEYWORDS, StartsWith, Write;
    match t
    case Identifier(name) => WordLexes(src, i, name);
    case Constant(text) =>
      var v :| Writable(v) && text == Write(v);
      LiteralLexes(src, i, v);
    case _ => SymbolLexes(src, i, t);
  }

  // ----- whole expressions -----

  ghost predicate AllValid(ts: seq<G.Token>) { forall k :: 0 <= k < |ts| ==> ValidToken(ts[k]) }

  /** Tokens as text, each followed by a blank. */
  ghost function Render(ts: seq<G.Token>): string
    requires AllValid(ts)
  {
    if ts == [] then "" else TextOf(ts[0]) + " " + Render(ts[1..])
  }

  predicate Inside(src: string, spans: seq<L.Span>)
  {
    forall k :: 0 <= k < |spans| ==> spans[k].from <= spans[k].to <= |src|
  }

  /** What the expression parser is given: every token but the end of the file. */
  function TokensOf(src: string, spans: seq<L.Span>): seq<G.Token>
    requires Inside(src, spans)
    decreases spans
  {
    if spans == [] || spans[0].ty == Eof then [] else
      [Classify(spans[0].ty, src[spans[0].from..spans[0].to])] + TokensOf(src, spans[1..])
  }

  lemma {:induction false} SpansAreInside(src: string, i: nat)
    requires i <= |src| && L.Spans(src, i).Some?
    ensures Inside(src, L.Spans(src, i).value)
    decreases |src| - i
  {
    hide Scan;
    var start := SkipWhite(src, i);
    ScanAdvances(src, start);
    if Scan(src, start).ty != Eof {
      SpansAreInside(src, Scan(src, start).end);
    }
  }

  lemma BlankSkipped(src: string, i: nat)
    requires i < |src| && src[i] == ' '
    ensures L.Spans(src, i) == L.Spans(src, i + 1)
  {
    hide Scan;
  }

  lemma NothingLeft(src: string)
    ensures L.Spans(src, |src|) == Some([L.Span(Eof, |src|, |src|)])
  {
    hide SIMPLE_TOKENS, KEYWORDS;
    forall j | 0 <= j < |SIMPLE_TOKENS| ensures !StartsWith(src, |src|, SIMPLE_TOKENS[j].0) {
      EntryIsSpelled(j);
      SymbolsStart(SIMPLE_TOKENS[j].1);
    }
    NoMatch(src, |src|, SIMPLE_TOKENS);
  }

  lemma NotWhiteStays(src: string, i: nat)
    requires i <= |src| && !IsWhite(CharAt(src, i))
    ensures SkipWhite(src, i) == i
  {}

  lemma RenderedParts(src: string, i: nat, w: string, rest: string)
    requires StartsWith(src, i, w + " " + rest)
    ensures StartsWith(src, i, w + " ") && StartsWith(src, i + |w| + 1, rest)
    ensures i + |w| < |src| && src[i + |w|] == ' ' && src[i..i + |w|] == w
  {
    var all := w + " " + rest;
    MiddleOf(src, i, all, 0, |w| + 1);
    assert all[0..|w| + 1] == w + " ";
    RestOf(src, i, all, |w| + 1);
    assert all[|w| + 1..] == rest;
    MiddleOf(src, i, all, 0, |w|);
    assert all[0..|w|] == w;
    CharsOf(src, i, all, |w|);
  }

  /** A lexed token in front of a lexed rest. */
  lemma TokenInFront(src: string, i: nat, t: G.Token, end: nat)
    requires ValidToken(t) && i <= end <= |src| && Lexes(src, i, t) && !IsWhite(CharAt(src, i)) &&
             end == i + |TextOf(t)|
    requires L.Spans(src, end).Some? && Inside(src, L.Spans(src, end).value) && src[i..end] == TextOf(t)
    ensures L.Spans(src, i).Some? && Inside(src, L.Spans(src, i).value)
    ensures TokensOf(src, L.Spans(src, i).value) == [t] + TokensOf(src, L.Spans(src, end).value)
  {
    hide Scan, Classify, ValidToken, TextOf, IsWhite;
    NotWhiteStays(src, i);
    ScanAdvances(src, i);
    SpansAreInside(src, i);
    assert L.Spans(src, i).value[1..] == L.Spans(src, end).value;
  }

  /** Text made of valid tokens is lexed back into them. */
  lemma {:induction false} RenderedTokensLex(src: string, i: nat, ts: seq<G.Token>)
    requires AllValid(ts) && StartsWith(src, i, Render(ts)) && i + |Render(ts)| == |src|
    ensures L.Spans(src, i).Some? && Inside(src, L.Spans(src, i).value) && TokensOf(src, L.Spans(src, i).value) == ts
    decreases ts
  {
    hide Scan, Classify, ValidToken, StartsWith, TextOf, IsWhite, L.Spans, TokensOf, Inside;
    if ts == [] {
      NothingLexed(src);
    } else {
      var w := TextOf(ts[0]);
      RenderedParts(src, i, w, Render(ts[1..]));
      var end := i + |w|;
      BlankSkipped(src, end);
      RenderedTokensLex(src, end + 1, ts[1..]);
      TokenLexes(src, i, ts[0]);
      TokenInFront(src, i, ts[0], end);
      assert [ts[0]] + ts[1..] == ts;
    }
  }

  lemma NothingLexed(src: string)
    ensures L.Spans(src, |src|).Some? && Inside(src, L.Spans(src, |src|).value) &&
            TokensOf(src, L.Spans(src, |src|).value) == []
  {
    hide L.Spans;
    NothingLeft(src);
  }

  /** Lexing and parsing a source that is one expression. */
  function ReadExpression(src: string): Option<G.Tree>
  {
    if L.Spans(src, 0).None? || !Inside(src, L.Spans(src, 0).value) then None else
    var ts := TokensOf(src, L.Spans(src, 0).value);
    match P.ParseBinary(ts, 0, -1)
    case None => None
    case Some(p) => if p.next == |ts| then Some(G.Erase(p.tree)) else None
  }

  /** Trees whose names are names and whose literals are literals. */
  ghost predicate ValidTree(t: G.Tree)
  {
    match t
    case Name(n) => ValidName(n)
    case Literal(text) => ValidLiteral(text)
    case Binary(_, l, r) => ValidTree(l) && ValidTree(r)
    case Call(f, args) => ValidTree(f) && AllValidTrees(args)
  }

  ghost predicate AllValidTrees(ts: seq<G.Tree>)
  {
    ts == [] || (ValidTree(ts[0]) && AllValidTrees(ts[1..]))
  }

  lemma ValidTokensAppend(xs: seq<G.Token>, ys: seq<G.Token>)
    ensures AllValid(xs + ys) <==> AllValid(xs) && AllValid(ys)
  {
    hide ValidToken;
    if AllValid(xs + ys) {
      forall k | 0 <= k < |xs| ensures ValidToken(xs[k]) {
        assert (xs + ys)[k] == xs[k];
      }
      forall k | 0 <= k < |ys| ensures ValidToken(ys[k]) {
        assert (xs + ys)[|xs| + k] == ys[k];
      }
    }
  }

  lemma {:induction false} PrintedTokensAreValid(t: G.Tree, need: nat)
    requires ValidTree(t)
    ensures AllValid(G.Yield(PC.Print(t, need)))
    decreases t, 0
  {
    hide ValidName, ValidLiteral;
    match t
    case Name(_) =>
    case Literal(_) =>
    case Binary(op, l, r) =>
      var p := G.Precedence(op);
      PrintedTokensAreValid(l, p);
      PrintedTokensAreValid(r, p + 1);
      var x, y := G.Yield(PC.Print(l, p)), G.Yield(PC.Print(r, p + 1));
      ValidTokensAppend([G.Infix(op)], y);
      ValidTokensAppend(x, [G.Infix(op)] + y);
      Parenthesized(x + ([G.Infix(op)] + y));
    case Call(f, args) =>
      var callee := PC.Print(f, G.TIGHTEST);
      PrintedTokensAreValid(f, G.TIGHTEST);
      PrintedArgumentsAreValid(args);
      Parenthesized(G.Yield(callee));
      var x := G.Yield(if G.Primary(callee) then callee else G.Paren(callee));
      var rest := G.YieldRest(PC.PrintAll(args), false);
      ValidTokensAppend([G.Open], rest);
      ValidTokensAppend(x, [G.Open] + rest);
  }

  lemma Parenthesized(x: seq<G.Token>)
    requires AllValid(x)
    ensures AllValid([G.Open] + x + [G.Close])
  {
    ValidTokensAppend([G.Open], x);
    ValidTokensAppend([G.Open] + x, [G.Close]);
  }

  lemma {:induction false} PrintedArgumentsAreValid(ts: seq<G.Tree>)
    requires AllValidTrees(ts)
    ensures AllValid(G.YieldRest(PC.PrintAll(ts), false))
    decreases ts, 1
  {
    hide ValidTree, PC.Print, G.Yield;
    if ts != [] {
      PrintedTokensAreValid(ts[0], 0);
      PrintedArgumentsAreValid(ts[1..]);
      var all := PC.PrintAll(ts);
      assert all[1..] == PC.PrintAll(ts[1..]);
      var y := G.Yield(all[0]);
      var rest := G.YieldRest(all[1..], false);
      ValidTokensAppend([G.Comma], rest);
      ValidTokensAppend(y, [G.Comma] + rest);
      ValidTokensAppend(y, [G.Close]);
    }
  }

  lemma StartsWithItself(src: string)
    ensures StartsWith(src, 0, src)
  {
    assert src[0..|src|] == src;
  }

  /** Writing a tree out with as few parentheses as possible, lexing the characters and
      parsing the tokens gives the tree back. */
  lemma {:induction false} SourceTextRoundTrips(t: G.Tree)
    requires ValidTree(t)
    ensures AllValid(G.Yield(PC.Print(t, 0)))
    ensures ReadExpression(Render(G.Yield(PC.Print(t, 0)))) == Some(t)
  {
    hide P.ParseBinary, PC.Print, G.Yield, TokensOf, Inside, StartsWith, Render, AllValid, ValidTree, L.Spans;
    PrintedTokensAreValid(t, 0);
    var ts := G.Yield(PC.Print(t, 0));
    var src := Render(ts);
    StartsWithItself(src);
    RenderedTokensLex(src, 0, ts);
    PC.ParseUndoesPrint([], t, []);
    assert [] + ts + [] == ts;
  }
}
