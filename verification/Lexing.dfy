// The lexer as an object with a cursor: each loop is proved to stop where the scanning
// functions say, with the line and the column that belong to that position.
module Lexing {
  import opened Words
  import opened Scanner

  /** Newlines before position n. */
  function Line(src: string, n: nat): nat
    requires n <= |src|
  {
    if n == 0 then 0 else Line(src, n - 1) + (if src[n - 1] == '\n' then 1 else 0)
  }

  /** Characters between the last newline before position n and n. */
  function Column(src: string, n: nat): nat
    requires n <= |src|
  {
    if n == 0 || src[n - 1] == '\n' then 0 else Column(src, n - 1) + 1
  }

  /** The cursor's line and column are those of its position. */
  predicate Tracks(src: string, c: Cursor)
  {
    c.at <= |src| && c.line == Line(src, c.at) && c.lineOffset == Column(src, c.at)
  }

  /** The token that Scan finds behind the whitespace at i. */
  predicate IsToken(src: string, i: nat, token: Token, next: Cursor)
    requires i <= |src|
  {
    var start := SkipWhite(src, i);
    && Scan(src, start) == Scanned(token.ty, next.at)
    && token.pos.at == start && start + token.length == next.at
    && Tracks(src, token.pos) && Tracks(src, next)
  }

  /** The position n characters on; a NUL, like the end of the source, is not passed. */
  function Skip(src: string, i: nat, n: nat): (r: nat)
    ensures i <= r <= i + n && (i <= |src| ==> r <= |src|)
    decreases n
  {
    if n == 0 || CharAt(src, i) == NUL then i else Skip(src, i + 1, n - 1)
  }

  lemma {:induction false} SkipsAll(src: string, i: nat, n: nat)
    requires i + n <= |src| && NUL !in src[i..i + n]
    ensures Skip(src, i, n) == i + n
    decreases n
  {
    if n > 0 {
      assert src[i..i + n][0] == src[i];
      assert src[i..i + n][1..] == src[i + 1..i + n];
      SkipsAll(src, i + 1, n - 1);
    }
  }

  class Lexer {
    const source: string
    var cursor: Cursor

    predicate Valid()
      reads this
    {
      Tracks(source, cursor)
    }

    constructor (source: string)
      ensures Valid() && this.source == source && cursor.at == 0
    {
      this.source := source;
      cursor := Cursor(0, 0, 0);
    }

    /** n characters on, or to the end of the source. */
    method Next(n: nat)
      requires Valid()
      modifies this
      ensures Valid() && cursor.at == Skip(source, old(cursor.at), n)
    {
      var i := 0;
      while i < n
        invariant 0 <= i <= n && Valid() && Skip(source, cursor.at, n - i) == Skip(source, old(cursor.at), n)
      {
        if CharAt(source, cursor.at) == NUL {
          break;
        }
        if source[cursor.at] == '\n' {
          cursor := Cursor(cursor.at + 1, cursor.line + 1, 0);
        } else {
          cursor := Cursor(cursor.at + 1, cursor.line, cursor.lineOffset + 1);
        }
        i := i + 1;
      }
    }

    /** One character on. */
    method NextOne()
      requires Valid() && CharAt(source, cursor.at) != NUL
      modifies this
      ensures Valid() && cursor.at == old(cursor.at) + 1
    {
      Next(1);
    }

    method ConsumeSequence(prefix: string) returns (ok: bool)
      requires Valid() && NUL !in prefix
      modifies this
      ensures Valid() && ok == StartsWith(source, old(cursor.at), prefix)
      ensures cursor.at == old(cursor.at) + (if ok then |prefix| else 0)
    {
      if cursor.at + |prefix| > |source| {
        return false;
      }
      var i := 0;
      while i < |prefix|
        invariant 0 <= i <= |prefix| && forall k :: 0 <= k < i ==> source[cursor.at + k] == prefix[k]
      {
        if source[cursor.at + i] != prefix[i] {
          assert source[cursor.at..cursor.at + |prefix|][i] != prefix[i];
          return false;
        }
        i := i + 1;
      }
      assert source[cursor.at..cursor.at + |prefix|] == prefix;
      SkipsAll(source, cursor.at, |prefix|);
      Next(|prefix|);
      ok := true;
    }

    method SkipWhitespace()
      requires Valid()
      modifies this
      ensures Valid() && cursor.at == SkipWhite(source, old(cursor.at))
    {
      while IsWhite(CharAt(source, cursor.at))
        invariant Valid() && SkipWhite(source, cursor.at) == SkipWhite(source, old(cursor.at))
        decreases |source| - cursor.at
      {
        NextOne();
      }
    }

    method RestOfLine()
      requires Valid()
      modifies this
      ensures Valid() && cursor.at == SkipLine(source, old(cursor.at))
    {
      while CharAt(source, cursor.at) != NUL && CharAt(source, cursor.at) != '\n'
        invariant Valid() && SkipLine(source, cursor.at) == SkipLine(source, old(cursor.at))
        decreases |source| - cursor.at
      {
        NextOne();
      }
    }

    method RestOfComment()
      requires Valid()
      modifies this
      ensures Valid() && cursor.at == SkipComment(source, old(cursor.at), 1)
    {
      hide Column, Line, StartsWith, SkipWhite, Scan;
      var depth := 1;
      while depth > 0
        invariant depth >= 0 && Valid() &&
                  SkipComment(source, cursor.at, depth) == SkipComment(source, old(cursor.at), 1)
        decreases |source| - cursor.at, depth
      {
        var ok := ConsumeSequence("/*");
        if ok {
          depth := depth + 1;
          continue;
        }
        ok := ConsumeSequence("*/");
        if ok {
          depth := depth - 1;
          continue;
        }
        if CharAt(source, cursor.at) == NUL {
          break;
        }
        NextOne();
      }
    }

    method Number()
      requires Valid() && StartsNumber(source, cursor.at)
      modifies this
      ensures Valid() && cursor.at == NumberEnd(source, old(cursor.at))
    {
      var hasPoint := CharAt(source, cursor.at) == '.';
      NextOne();
      if CharAt(source, cursor.at) == 'x' {
        NextOne();
      }
      ghost var from, point := cursor.at, hasPoint;
      while IsHexDigit(CharAt(source, cursor.at)) || CharAt(source, cursor.at) == '.'
        invariant Valid() && SkipDigits(source, cursor.at, hasPoint) == SkipDigits(source, from, point)
        decreases |source| - cursor.at
      {
        if CharAt(source, cursor.at) == '.' {
          if hasPoint {
            break;
          }
          hasPoint := true;
        }
        NextOne();
      }
      if CharAt(source, cursor.at) == 'u' || CharAt(source, cursor.at) == 'f' {
        NextOne();
      }
    }

    /** From behind the opening quote. An open string is fatal. */
    method RestOfString() returns (closed: bool)
      requires Valid()
      modifies this
      ensures Valid()
      ensures match SkipString(source, old(cursor.at))
              case None => !closed
              case Some(end) => closed && cursor.at == end
    {
      while CharAt(source, cursor.at) != '"'
        invariant Valid() && SkipString(source, cursor.at) == SkipString(source, old(cursor.at))
        decreases |source| - cursor.at
      {
        if CharAt(source, cursor.at) == NUL {
          return false;
        }
        if CharAt(source, cursor.at) == '\\' && CharAt(source, cursor.at + 1) == '"' {
          NextOne();
        }
        NextOne();
      }
      NextOne();
      closed := true;
    }

    method SimpleToken() returns (found: Option<Type>)
      requires Valid()
      modifies this
      ensures Valid()
      ensures match MatchSimple(source, old(cursor.at), SIMPLE_TOKENS)
              case None => found == None && cursor.at == old(cursor.at)
              case Some((text, ty)) => found == Some(ty) && cursor.at == old(cursor.at) + |text|
    {
      hide SIMPLE_TOKENS;
      var k := 0;
      while k < |SIMPLE_TOKENS|
        invariant 0 <= k <= |SIMPLE_TOKENS| && Valid() && cursor.at == old(cursor.at)
        invariant MatchSimple(source, cursor.at, SIMPLE_TOKENS[k..]) == MatchSimple(source, cursor.at, SIMPLE_TOKENS)
      {
        var (text, ty) := SIMPLE_TOKENS[k];
        assert SIMPLE_TOKENS[k] in SIMPLE_TOKENS;
        SimpleTokensAreNotEmpty(SIMPLE_TOKENS[k]);
        assert SIMPLE_TOKENS[k..][1..] == SIMPLE_TOKENS[k + 1..];
        var ok := ConsumeSequence(text);
        if ok {
          return Some(ty);
        }
        k := k + 1;
      }
      found := None;
    }

    method IdentifierCharacters()
      requires Valid()
      modifies this
      ensures Valid() && cursor.at == SkipIdentifier(source, old(cursor.at), old(cursor.at))
    {
      var start := cursor.at;
      while IsIdent(CharAt(source, cursor.at), cursor.at - start)
        invariant Valid() && start <= cursor.at
        invariant SkipIdentifier(source, start, cursor.at) == SkipIdentifier(source, start, start)
        decreases |source| - cursor.at
      {
        NextOne();
      }
    }

    /** The next token, or `ok == false` for an open string. Positions, lines and columns are
        exact, and peeking is the same on a copy. */
    method NextToken() returns (token: Token, ok: bool)
      requires Valid()
      modifies this
      ensures Valid() && ok == Scan(source, SkipWhite(source, old(cursor.at))).Scanned?
      ensures ok ==> IsToken(source, old(cursor.at), token, cursor)
    {
      hide SIMPLE_TOKENS, KEYWORDS, NumberEnd, StartsNumber, SkipString, SkipComment, SkipLine, MatchSimple, Line,
        Column;
      SkipWhitespace();
      var start := cursor;
      var ty, found := Eof, false;
      ok := true;
      found := ConsumeSequence("//");
      if found {
        RestOfLine();
        ty := SingleLineComment;
      } else {
        found := ConsumeSequence("/*");
        if found {
          RestOfComment();
          ty := MultiLineComment;
        } else if StartsNumber(source, cursor.at) {
          Number();
          ty := NumberLiteral;
        } else if CharAt(source, cursor.at) == '"' {
          NextOne();
          ok := RestOfString();
          ty := StringLiteral;
          if !ok {
            return Token(Eof, start, 0), false;
          }
        } else {
          ty := Word();
        }
      }
      ScanAdvances(source, start.at);
      token := Token(ty, start, cursor.at - start.at);
    }

    /** A simple token, a keyword, an identifier, or the end. A character that starts no
        token is skipped and reported as the end of the file. */
    method Word() returns (ty: Type)
      requires Valid()
      modifies this
      ensures Valid() && ScanWord(source, old(cursor.at)) == Scanned(ty, cursor.at)
    {
      hide SIMPLE_TOKENS, KEYWORDS;
      var start := cursor.at;
      var found := SimpleToken();
      if found.Some? {
        return found.value;
      }
      IdentifierCharacters();
      if cursor.at > start {
        return if source[start..cursor.at] in KEYWORDS then Keyword else Identifier;
      }
      if CharAt(source, cursor.at) != NUL {
        NextOne();
      }
      ty := Eof;
    }
  }

  // ----- whole sources -----

  /** The stretches [from, to) of the tokens up to the first end-of-file token; None if a
      string is left open. */
  datatype Span = Span(ty: Type, from: nat, to: nat)

  function Spans(src: string, i: nat): Option<seq<Span>>
    requires i <= |src|
    decreases |src| - i
  {
    var start := SkipWhite(src, i);
    match Scan(src, start)
    case Unterminated => None
    case Scanned(ty, end) =>
      if ty == Eof then Some([Span(ty, start, end)]) else
      assert start < end <= |src| by { ScanAdvances(src, start); }
      match Spans(src, end)
      case None => None
      case Some(rest) => Some([Span(ty, start, end)] + rest)
  }

  predicate AllWhite(s: string) { forall k :: 0 <= k < |s| ==> IsWhite(s[k]) }

  /** Consecutive stretches with only whitespace between them, from i on. */
  predicate Gapless(src: string, i: nat, spans: seq<Span>)
    decreases spans
  {
    spans == [] ||
    (&& i <= spans[0].from <= spans[0].to <= |src|
     && AllWhite(src[i..spans[0].from])
     && (spans[0].ty != Eof ==> spans[0].from < spans[0].to)
     && Gapless(src, spans[0].to, spans[1..]))
  }

  /** Gaps and token texts put together again. */
  function Rebuild(src: string, i: nat, spans: seq<Span>): string
    requires Gapless(src, i, spans)
    decreases spans
  {
    if spans == [] then "" else
      src[i..spans[0].from] + src[spans[0].from..spans[0].to] + Rebuild(src, spans[0].to, spans[1..])
  }

  lemma {:induction false} SkipWhiteIsWhite(src: string, i: nat)
    requires i <= |src|
    ensures AllWhite(src[i..SkipWhite(src, i)]) && !IsWhite(CharAt(src, SkipWhite(src, i)))
    decreases |src| - i
  {
    var end := SkipWhite(src, i);
    if i < |src| && IsWhite(src[i]) {
      SkipWhiteIsWhite(src, i + 1);
      assert src[i..end] == [src[i]] + src[i + 1..end];
    }
  }

  /** Nothing of the source is lost, doubled or moved: up to the end of the last token it is
      the texts of the tokens and the whitespace between them. Only the last token is an
      end of file, and if that is empty the source ends there. */
  lemma {:induction false} LexingIsLossless(src: string, i: nat)
    requires i <= |src| && Spans(src, i).Some?
    ensures var spans := Spans(src, i).value;
            && spans != [] && Gapless(src, i, spans)
            && i <= Last(spans).to <= |src| && Rebuild(src, i, spans) == src[i..Last(spans).to]
            && (forall k :: 0 <= k < |spans| ==> (spans[k].ty == Eof <==> k == |spans| - 1))
            && (Last(spans).from == Last(spans).to ==> CharAt(src, Last(spans).to) == NUL)
    decreases |src| - i
  {
    hide Scan, SkipWhite;
    var start := SkipWhite(src, i);
    SkipWhiteIsWhite(src, i);
    ScanAdvances(src, start);
    var first := Scan(src, start);
    var spans := Spans(src, i).value;
    if first.ty == Eof {
      EndOfFile(src, start);
      assert spans[1..] == [];
      assert src[i..start] + src[start..first.end] + "" == src[i..first.end];
    } else {
      LexingIsLossless(src, first.end);
      var rest := Spans(src, first.end).value;
      assert spans[1..] == rest;
      var end := Last(rest).to;
      assert src[i..start] + src[start..first.end] + src[first.end..end] == src[i..end];
    }
  }

  function Last(spans: seq<Span>): Span
    requires spans != []
  {
    spans[|spans| - 1]
  }

  lemma EndOfFile(src: string, i: nat)
    requires i <= |src| && Scan(src, i).Scanned? && Scan(src, i).ty == Eof
    ensures Scan(src, i).end == i ==> CharAt(src, i) == NUL
  {
    hide SIMPLE_TOKENS, KEYWORDS;
    MatchIsInside(src, i, SIMPLE_TOKENS);
    if MatchSimple(src, i, SIMPLE_TOKENS).Some? {
      SimpleTokensAreNotEmpty(MatchSimple(src, i, SIMPLE_TOKENS).value);
    }
  }

  /** What has been read before `at` and what follows from there make up all the tokens. */
  predicate Continues(src: string, at: nat, spans: seq<Span>)
    requires at <= |src|
  {
    match Spans(src, at)
    case None => Spans(src, 0).None?
    case Some(rest) => Spans(src, 0) == Some(spans + rest)
  }

  lemma NothingRead(src: string)
    ensures Continues(src, 0, [])
  {
    if Spans(src, 0).Some? {
      assert [] + Spans(src, 0).value == Spans(src, 0).value;
    }
  }

  /** One more token, or an open string. */
  lemma {:induction false} OneMore(src: string, at: nat, spans: seq<Span>)
    requires at <= |src| && Continues(src, at, spans)
    ensures var start := SkipWhite(src, at);
            match Scan(src, start)
            case Unterminated => Spans(src, 0).None?
            case Scanned(ty, end) =>
              var all := spans + [Span(ty, start, end)];
              end <= |src| && if ty == Eof then Spans(src, 0) == Some(all) else end > at && Continues(src, end, all)
  {
    hide Scan, SkipWhite;
    var start := SkipWhite(src, at);
    if Scan(src, start).Scanned? {
      ScanAdvances(src, start);
      var span := Span(Scan(src, start).ty, start, Scan(src, start).end);
      if span.ty != Eof && Spans(src, span.to).Some? {
        var rest := Spans(src, span.to).value;
        assert spans + ([span] + rest) == spans + [span] + rest;
      }
    }
  }

  /** Reading token after token until the end of the file. */
  method Tokenize(source: string) returns (tokens: seq<Token>, ok: bool)
    ensures ok == Spans(source, 0).Some?
    ensures ok ==> |tokens| == |Spans(source, 0).value|
    ensures ok ==> forall k :: 0 <= k < |tokens| ==> Placed(source, tokens[k], Spans(source, 0).value[k])
  {
    hide Scan, SkipWhite, Spans, Continues;
    var lexer := new Lexer(source);
    tokens := [];
    ghost var spans: seq<Span> := [];
    NothingRead(source);
    while true
      invariant lexer.Valid() && lexer.source == source && |tokens| == |spans|
      invariant forall k :: 0 <= k < |tokens| ==> Placed(source, tokens[k], spans[k])
      invariant Continues(source, lexer.cursor.at, spans)
      decreases |source| - lexer.cursor.at
    {
      OneMore(source, lexer.cursor.at, spans);
      var token;
      token, ok := lexer.NextToken();
      if !ok {
        return;
      }
      tokens, spans := tokens + [token], spans + [Span(token.ty, token.pos.at, lexer.cursor.at)];
      if token.ty == Eof {
        return;
      }
    }
  }

  /** The token that occupies a stretch, with the line and column of its start. */
  predicate Placed(src: string, token: Token, span: Span)
  {
    token.ty == span.ty && token.pos.at == span.from && token.length == span.to - span.from && Tracks(src, token.pos)
  }
}
