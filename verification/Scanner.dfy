// The lexer (lex.cpp): where each token starts, ends and stands, as functions of the source
// text.
module Scanner {
  import opened Words

  const NUL: char := '\0'

  /** The character at position i; behind the source stands a NUL. */
  function CharAt(src: string, i: nat): char { if i < |src| then src[i] else NUL }

  datatype Cursor = Cursor(at: nat, line: nat, lineOffset: nat)

  datatype Type =
    | Asterisk | Slash | Mod | Plus | Minus | Assign | BitAnd | BitOr | BitXor | LeftShift | RightShift
    | EqualTo | Inequal | GreaterThanOrEqual | GreaterThan | LessThanOrEqual | LessThan | LogicalAnd | LogicalOr
    | Colon | Comma | TripleDot | ParenthesisOpen | ParenthesisClose | BraceOpen | BraceClose
    | BracketOpen | BracketClose
    | Identifier | Keyword | NumberLiteral | StringLiteral | SingleLineComment | MultiLineComment | Eof

  datatype Token = Token(ty: Type, pos: Cursor, length: nat)

  predicate IsWhite(c: char) { c == ' ' || c == '\t' || c == '\n' }

  predicate IsDigit(c: char) { '0' <= c <= '9' }

  predicate IsHexDigit(c: char) { '0' <= c <= '9' || 'a' <= c <= 'f' || 'A' <= c <= 'F' }

  predicate IsIdent(c: char, i: nat)
  {
    'a' <= c <= 'z' || 'A' <= c <= 'Z' || c == '_' || (i > 0 && '0' <= c <= '9')
  }

  // ----- where things end -----

  predicate StartsWith(src: string, i: nat, prefix: string)
  {
    i + |prefix| <= |src| && src[i..i + |prefix|] == prefix
  }

  function SkipWhite(src: string, i: nat): (r: nat)
    requires i <= |src|
    ensures i <= r <= |src|
    decreases |src| - i
  {
    if i < |src| && IsWhite(src[i]) then SkipWhite(src, i + 1) else i
  }

  function SkipLine(src: string, i: nat): (r: nat)
    requires i <= |src|
    ensures i <= r <= |src|
    decreases |src| - i
  {
    if CharAt(src, i) != NUL && CharAt(src, i) != '\n' then SkipLine(src, i + 1) else i
  }

  /** The end of a comment that is `depth` levels deep at i. Comments nest; an open one ends
      with the source. */
  function SkipComment(src: string, i: nat, depth: nat): (r: nat)
    requires i <= |src|
    ensures i <= r <= |src|
    decreases |src| - i
  {
    if depth == 0 then i
    else if StartsWith(src, i, "/*") then SkipComment(src, i + 2, depth + 1)
    else if StartsWith(src, i, "*/") then SkipComment(src, i + 2, depth - 1)
    else if CharAt(src, i) == NUL then i
    else SkipComment(src, i + 1, depth)
  }

  /** Digits of any base, with at most one point in all. */
  function SkipDigits(src: string, i: nat, hasPoint: bool): (r: nat)
    requires i <= |src|
    ensures i <= r <= |src|
    decreases |src| - i
  {
    var c := CharAt(src, i);
    if IsHexDigit(c) then SkipDigits(src, i + 1, hasPoint)
    else if c == '.' && !hasPoint then SkipDigits(src, i + 1, true)
    else i
  }

  predicate StartsNumber(src: string, i: nat)
  {
    IsDigit(CharAt(src, i)) || (CharAt(src, i) == '.' && CharAt(src, i + 1) != '.')
  }

  function NumberEnd(src: string, i: nat): (r: nat)
    requires i <= |src| && StartsNumber(src, i)
    ensures i < r <= |src|
  {
    var j := if CharAt(src, i + 1) == 'x' then i + 2 else i + 1;
    var k := SkipDigits(src, j, CharAt(src, i) == '.');
    if CharAt(src, k) == 'u' || CharAt(src, k) == 'f' then k + 1 else k
  }

  /** The position behind the closing quote; None where there is none. A backslash only
      matters directly before a quote. */
  function SkipString(src: string, i: nat): (r: Option<nat>)
    requires i <= |src|
    ensures r.Some? ==> i < r.value <= |src|
    decreases |src| - i
  {
    var c := CharAt(src, i);
    if c == '"' then Some(i + 1)
    else if c == NUL then None
    else if c == '\\' && CharAt(src, i + 1) == '"' then SkipString(src, i + 2)
    else SkipString(src, i + 1)
  }

  function SkipIdentifier(src: string, start: nat, i: nat): (r: nat)
    requires start <= i <= |src|
    ensures i <= r <= |src|
    decreases |src| - i
  {
    if IsIdent(CharAt(src, i), i - start) && i < |src| then SkipIdentifier(src, start, i + 1) else i
  }

  const LONG_TOKENS: seq<(string, Type)> := [
    ("...", TripleDot), ("<<", LeftShift), (">>", RightShift), ("&&", LogicalAnd), ("||", LogicalOr), ("==", EqualTo),
    ("!=", Inequal), (">=", GreaterThanOrEqual), ("<=", LessThanOrEqual)]

  const SHORT_TOKENS: seq<(string, Type)> := [
    ("*", Asterisk), ("/", Slash), ("%", Type.Mod), ("+", Plus), ("-", Minus), ("=", Assign), ("&", Type.BitAnd),
    ("^", Type.BitXor), ("|", Type.BitOr), (",", Comma), ("(", ParenthesisOpen), (")", ParenthesisClose),
    ("{", BraceOpen), ("}", BraceClose), ("[", BracketOpen), ("]", BracketClose), (">", GreaterThan), ("<", LessThan),
    (":", Colon)]

  /** Longer tokens come before the tokens they start with. */
  const SIMPLE_TOKENS: seq<(string, Type)> := LONG_TOKENS + SHORT_TOKENS

  /** The first entry of the table that the source continues with. */
  function MatchSimple(src: string, i: nat, table: seq<(string, Type)>): Option<(string, Type)>
    decreases table
  {
    if table == [] then None
    else if StartsWith(src, i, table[0].0) then Some(table[0])
    else MatchSimple(src, i, table[1..])
  }

  const KEYWORDS: seq<string> :=
    ["break", "continue", "else", "external", "false", "for", "goto", "if", "proc", "return", "true", "while"]

  /** A token's type and end. `Unterminated` is an open string, at which the original gives up. */
  datatype Scanned = Scanned(ty: Type, end: nat) | Unterminated

  /** The token at i, which is not whitespace. */
  function Scan(src: string, i: nat): (r: Scanned)
    requires i <= |src|
  {
    if StartsWith(src, i, "//") then Scanned(SingleLineComment, SkipLine(src, i + 2))
    else if StartsWith(src, i, "/*") then Scanned(MultiLineComment, SkipComment(src, i + 2, 1))
    else if StartsNumber(src, i) then Scanned(NumberLiteral, NumberEnd(src, i))
    else if CharAt(src, i) == '"' then
      match SkipString(src, i + 1)
      case None => Unterminated
      case Some(end) => Scanned(StringLiteral, end)
    else ScanWord(src, i)
  }

  function ScanWord(src: string, i: nat): (r: Scanned)
    requires i <= |src|
  {
    match MatchSimple(src, i, SIMPLE_TOKENS)
    case Some((text, ty)) => Scanned(ty, i + |text|)
    case None =>
      var end := SkipIdentifier(src, i, i);
      if end > i then Scanned(if src[i..end] in KEYWORDS then Keyword else Identifier, end)
      else if CharAt(src, i) == NUL then Scanned(Eof, i)
      else Scanned(Eof, i + 1)
  }

  lemma {:induction false} MatchIsInside(src: string, i: nat, table: seq<(string, Type)>)
    ensures MatchSimple(src, i, table).Some? ==>
              MatchSimple(src, i, table).value in table && StartsWith(src, i, MatchSimple(src, i, table).value.0)
    decreases table
  {
    if table != [] {
      MatchIsInside(src, i, table[1..]);
    }
  }

  predicate ProperEntry(e: (string, Type)) { |e.0| > 0 && e.1 != Eof && NUL !in e.0 }

  lemma LongTokensAreProper(e: (string, Type))
    requires e in LONG_TOKENS
    ensures ProperEntry(e)
  {}

  lemma ShortTokensAreProper(e: (string, Type))
    requires e in SHORT_TOKENS
    ensures ProperEntry(e)
  {}

  lemma SimpleTokensAreNotEmpty(e: (string, Type))
    requires e in SIMPLE_TOKENS
    ensures |e.0| > 0 && e.1 != Eof && NUL !in e.0
  {
    hide LONG_TOKENS, SHORT_TOKENS;
    if e in LONG_TOKENS {
      LongTokensAreProper(e);
    } else {
      ShortTokensAreProper(e);
    }
  }

  /** Every token but the end of the file has at least one character, and none reaches past
      the source. */
  lemma {:induction false} ScanAdvances(src: string, i: nat)
    requires i <= |src| && Scan(src, i).Scanned?
    ensures i <= Scan(src, i).end <= |src|
    ensures Scan(src, i).ty != Eof ==> Scan(src, i).end > i
  {
    hide SIMPLE_TOKENS, KEYWORDS;
    MatchIsInside(src, i, SIMPLE_TOKENS);
    if MatchSimple(src, i, SIMPLE_TOKENS).Some? {
      SimpleTokensAreNotEmpty(MatchSimple(src, i, SIMPLE_TOKENS).value);
    }
  }
}
