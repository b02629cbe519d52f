// What each kind of token looks like in the source, spelled out.
module TokenTexts {
  import opened Words
  import opened Scanner
  import opened Literals

  // ----- symbols -----

  /** How a symbol is written. */
  function Spelling(ty: Type): Option<string>
  {
    match ty
    case Asterisk => Some("*") case Slash => Some("/") case Mod => Some("%") case Plus => Some("+")
    case Minus => Some("-") case Assign => Some("=") case BitAnd => Some("&") case BitOr => Some("|")
    case BitXor => Some("^") case LeftShift => Some("<<") case RightShift => Some(">>") case EqualTo => Some("==")
    case Inequal => Some("!=") case GreaterThanOrEqual => Some(">=") case GreaterThan => Some(">")
    case LessThanOrEqual => Some("<=") case LessThan => Some("<") case LogicalAnd => Some("&&")
    case LogicalOr => Some("||") case Colon => Some(":") case Comma => Some(",") case TripleDot => Some("...")
    case ParenthesisOpen => Some("(") case ParenthesisClose => Some(")") case BraceOpen => Some("{")
    case BraceClose => Some("}") case BracketOpen => Some("[") case BracketClose => Some("]")
    case _ => None
  }

  /** The source continues with the symbol. */
  predicate Reads(src: string, i: nat, ty: Type)
  {
    Spelling(ty).Some? && StartsWith(src, i, Spelling(ty).value)
  }

  /** Where the table has it. */
  function IndexOf(ty: Type): (k: nat)
    requires Spelling(ty).Some?
    ensures k < 28
  {
    match ty
    case TripleDot => 0 case LeftShift => 1 case RightShift => 2 case LogicalAnd => 3 case LogicalOr => 4
    case EqualTo => 5 case Inequal => 6 case GreaterThanOrEqual => 7 case LessThanOrEqual => 8
    case Asterisk => 9 case Slash => 10 case Mod => 11 case Plus => 12 case Minus => 13 case Assign => 14
    case BitAnd => 15 case BitXor => 16 case BitOr => 17 case Comma => 18 case ParenthesisOpen => 19
    case ParenthesisClose => 20 case BraceOpen => 21 case BraceClose => 22 case BracketOpen => 23
    case BracketClose => 24 case GreaterThan => 25 case LessThan => 26 case _ => 27
  }

  lemma LongIsSpelled(ty: Type)
    requires Spelling(ty).Some? && IndexOf(ty) < 9
    ensures |LONG_TOKENS| == 9 && LONG_TOKENS[IndexOf(ty)] == (Spelling(ty).value, ty)
  {}

  lemma ShortIsSpelled(ty: Type)
    requires Spelling(ty).Some? && IndexOf(ty) >= 9
    ensures |LONG_TOKENS| == 9 && |SHORT_TOKENS| == 19 && SHORT_TOKENS[IndexOf(ty) - 9] == (Spelling(ty).value, ty)
  {
    if IndexOf(ty) < 18 {
      FirstShortIsSpelled(ty);
    } else {
      LastShortIsSpelled(ty);
    }
  }

  lemma FirstShortIsSpelled(ty: Type)
    requires Spelling(ty).Some? && 9 <= IndexOf(ty) < 18
    ensures SHORT_TOKENS[IndexOf(ty) - 9] == (Spelling(ty).value, ty)
  {}

  lemma LastShortIsSpelled(ty: Type)
    requires Spelling(ty).Some? && IndexOf(ty) >= 18
    ensures SHORT_TOKENS[IndexOf(ty) - 9] == (Spelling(ty).value, ty)
  {}

  lemma TableIsSpelled(ty: Type)
    requires Spelling(ty).Some?
    ensures |SIMPLE_TOKENS| == 28 && SIMPLE_TOKENS[IndexOf(ty)] == (Spelling(ty).value, ty)
  {
    TableSize();
    hide LONG_TOKENS, SHORT_TOKENS, IndexOf;
    if IndexOf(ty) < 9 {
      LongIsSpelled(ty);
    } else {
      ShortIsSpelled(ty);
    }
  }

  lemma TableSize()
    ensures |LONG_TOKENS| == 9 && |SHORT_TOKENS| == 19 && |SIMPLE_TOKENS| == 28
  {}

  lemma LongDistinct(j: nat, k: nat)
    requires j < k < |LONG_TOKENS|
    ensures |LONG_TOKENS[j].0| >= 2 && |LONG_TOKENS[k].0| == 2
    ensures LONG_TOKENS[j].0[0] != LONG_TOKENS[k].0[0] || LONG_TOKENS[j].0[1] != LONG_TOKENS[k].0[1]
  {}

  lemma ShortDistinct(j: nat, k: nat)
    requires j < k < |SHORT_TOKENS|
    ensures |SHORT_TOKENS[j].0| == 1 == |SHORT_TOKENS[k].0| && SHORT_TOKENS[j].0[0] != SHORT_TOKENS[k].0[0]
  {}

  lemma LongAndShort(j: nat, k: nat)
    requires j < |LONG_TOKENS| && k < |SHORT_TOKENS|
    ensures |LONG_TOKENS[j].0| >= 2 && ' ' !in LONG_TOKENS[j].0 && |SHORT_TOKENS[k].0| == 1
  {}

  lemma {:induction false} FirstMatch(src: string, i: nat, table: seq<(string, Type)>, k: nat)
    requires k < |table| && StartsWith(src, i, table[k].0)
    requires forall j :: 0 <= j < k ==> !StartsWith(src, i, table[j].0)
    ensures MatchSimple(src, i, table) == Some(table[k])
    decreases table
  {
    hide StartsWith;
    if k > 0 {
      assert !StartsWith(src, i, table[0].0);
      forall j | 0 <= j < k - 1 ensures !StartsWith(src, i, table[1..][j].0) {
        assert table[1..][j] == table[j + 1];
      }
      FirstMatch(src, i, table[1..], k - 1);
    }
  }

  lemma {:induction false} NoMatch(src: string, i: nat, table: seq<(string, Type)>)
    requires forall j :: 0 <= j < |table| ==> !StartsWith(src, i, table[j].0)
    ensures MatchSimple(src, i, table) == None
    decreases table
  {
    hide StartsWith;
    if table != [] {
      forall j | 0 <= j < |table| - 1 ensures !StartsWith(src, i, table[1..][j].0) {
        assert table[1..][j] == table[j + 1];
      }
      assert !StartsWith(src, i, table[0].0);
      NoMatch(src, i, table[1..]);
    }
  }

  /** So are all entries. */
  lemma LongEntries(j: nat)
    requires j < |LONG_TOKENS|
    ensures var ty := LONG_TOKENS[j].1; Spelling(ty) == Some(LONG_TOKENS[j].0) && IndexOf(ty) == j
  {}

  lemma ShortEntries(j: nat)
    requires j < |SHORT_TOKENS|
    ensures var ty := SHORT_TOKENS[j].1; Spelling(ty) == Some(SHORT_TOKENS[j].0) && IndexOf(ty) == j + 9
  {}

  lemma EntryIsSpelled(j: nat)
    requires j < |SIMPLE_TOKENS|
    ensures var ty := SIMPLE_TOKENS[j].1; Spelling(ty) == Some(SIMPLE_TOKENS[j].0) && IndexOf(ty) == j
  {
    TableSize();
    hide LONG_TOKENS, SHORT_TOKENS, IndexOf, Spelling;
    if j < 9 {
      LongEntries(j);
    } else {
      ShortEntries(j - 9);
    }
  }

  /** Longer entries come first, and no two are the same. */
  lemma EarlierIsNotShorter(j: nat, k: nat)
    requires j < k < |SIMPLE_TOKENS|
    ensures var v, w := SIMPLE_TOKENS[j].0, SIMPLE_TOKENS[k].0; |v| >= |w| && v != w
  {
    TableSize();
    hide LONG_TOKENS, SHORT_TOKENS;
    if k < 9 {
      LongDistinct(j, k);
    } else if j < 9 {
      LongAndShort(j, k - 9);
    } else {
      ShortDistinct(j - 9, k - 9);
    }
  }

  lemma SymbolsStart(ty: Type)
    requires Spelling(ty).Some?
    ensures var w := Spelling(ty).value;
            && w != "" && !IsDigit(w[0]) && w[0] != '"' && NUL !in w
            && (w[0] == '.' ==> w == "..." && w[1] == '.')
  {}

  /** Where the source continues with symbols, and no comment starts, the longest of them is the
      next token. */
  lemma {:induction false} LongestSymbolIsRead(src: string, i: nat, ty: Type)
    requires i <= |src| && Reads(src, i, ty) && !StartsWith(src, i, "//") && !StartsWith(src, i, "/*")
    requires forall other :: Reads(src, i, other) ==> |Spelling(other).value| <= |Spelling(ty).value|
    ensures Scan(src, i) == Scanned(ty, i + |Spelling(ty).value|)
  {
    hide LONG_TOKENS, SHORT_TOKENS, SIMPLE_TOKENS, KEYWORDS, StartsWith, NumberEnd, SkipComment, SkipLine, SkipString,
      IndexOf, Spelling;
    var k, w := IndexOf(ty), Spelling(ty).value;
    TableIsSpelled(ty);
    forall j | 0 <= j < k ensures !StartsWith(src, i, SIMPLE_TOKENS[j].0) {
      EntryIsSpelled(j);
      EarlierIsNotShorter(j, k);
      if StartsWith(src, i, SIMPLE_TOKENS[j].0) {
        assert Reads(src, i, SIMPLE_TOKENS[j].1);
        SameStart(src, i, SIMPLE_TOKENS[j].0, w);
      }
    }
    FirstMatch(src, i, SIMPLE_TOKENS, k);
    SymbolsStart(ty);
    CharsOf(src, i, w, 0);
    if w[0] == '.' {
      CharsOf(src, i, w, 1);
    }
  }

  lemma SameStart(src: string, i: nat, v: string, w: string)
    requires StartsWith(src, i, v) && StartsWith(src, i, w) && |v| == |w|
    ensures v == w
  {}

  /** A slash that is followed by neither slash nor star opens no comment. */
  lemma NoCommentBefore(src: string, i: nat)
    requires CharAt(src, i) == '/' ==> CharAt(src, i + 1) == ' '
    ensures !StartsWith(src, i, "//") && !StartsWith(src, i, "/*")
  {
    if StartsWith(src, i, "//") {
      CharsOf(src, i, "//", 0);
      CharsOf(src, i, "//", 1);
    }
    if StartsWith(src, i, "/*") {
      CharsOf(src, i, "/*", 0);
      CharsOf(src, i, "/*", 1);
    }
  }

  // ----- words -----

  predicate IsLetter(c: char) { 'a' <= c <= 'z' || 'A' <= c <= 'Z' || c == '_' }

  predicate ContinuesWord(c: char) { IsLetter(c) || '0' <= c <= '9' }

  /** A letter or an underscore, and then letters, underscores and digits. */
  predicate IsWord(w: string)
  {
    w != "" && IsLetter(w[0]) && forall k :: 1 <= k < |w| ==> ContinuesWord(w[k])
  }

  /** The words that are no names. */
  predicate IsReserved(w: string)
  {
    || w == "if" || w == "else" || w == "while" || w == "for" || w == "break" || w == "continue" || w == "goto"
    || w == "proc" || w == "return" || w == "external" || w == "true" || w == "false"
  }

  lemma ReservedAreKeywords(w: string)
    ensures w in KEYWORDS <==> IsReserved(w)
  {
    var ks := KEYWORDS;
    assert ks[0] == "break" && ks[1] == "continue" && ks[2] == "else" && ks[3] == "external" && ks[4] == "false"
      && ks[5] == "for" && ks[6] == "goto" && ks[7] == "if" && ks[8] == "proc" && ks[9] == "return"
      && ks[10] == "true" && ks[11] == "while" && |ks| == 12;
  }

  lemma {:induction false} SkipWord(src: string, start: nat, i: nat, end: nat)
    requires start <= i <= end <= |src| && (forall k :: i <= k < end ==> IsIdent(src[k], k - start))
    requires end == |src| || !IsIdent(src[end], end - start)
    ensures SkipIdentifier(src, start, i) == end
    decreases end - i
  {
    if i < end {
      SkipWord(src, start, i + 1, end);
    }
  }

  lemma NoSymbolAtLetter(src: string, i: nat)
    requires i < |src| && IsLetter(src[i])
    ensures MatchSimple(src, i, SIMPLE_TOKENS) == None
  {
    hide SIMPLE_TOKENS, LONG_TOKENS, SHORT_TOKENS, Spelling;
    forall j | 0 <= j < |SIMPLE_TOKENS| ensures !StartsWith(src, i, SIMPLE_TOKENS[j].0) {
      EntryIsSpelled(j);
      NoLetterInSymbol(SIMPLE_TOKENS[j].1);
      StartsWithFirst(src, i, SIMPLE_TOKENS[j].0);
    }
    NoMatch(src, i, SIMPLE_TOKENS);
  }

  lemma NoLetterInSymbol(ty: Type)
    requires Spelling(ty).Some?
    ensures var w := Spelling(ty).value; w != "" && !IsLetter(w[0])
  {}

  /** A word, anywhere in a source, is one token: a keyword or an identifier. */
  lemma {:induction false} WordsLexToOneToken(before: string, w: string, after: string)
    requires IsWord(w) && (after == "" || !ContinuesWord(after[0]))
    ensures Scan(before + w + after, |before|)
            == Scanned(if IsReserved(w) then Keyword else Identifier, |before| + |w|)
  {
    hide SIMPLE_TOKENS, KEYWORDS, NumberEnd, IsReserved, SkipComment, SkipLine;
    var src, i := before + w + after, |before|;
    var end := i + |w|;
    assert src[i..end] == w;
    assert forall k :: i <= k < end ==> src[k] == w[k - i];
    SkipWord(src, i, i, end);
    NoSymbolAtLetter(src, i);
    NoCommentBefore(src, i);
    ReservedAreKeywords(w);
  }

  // ----- between tokens -----

  /** Blanks, tabs and newlines are passed, and nothing else. */
  lemma {:induction false} BlanksAreSkipped(before: string, blanks: string, after: string)
    requires forall k :: 0 <= k < |blanks| ==> blanks[k] == ' ' || blanks[k] == '\t' || blanks[k] == '\n'
    requires after != "" ==> after[0] != ' ' && after[0] != '\t' && after[0] != '\n'
    ensures SkipWhite(before + blanks + after, |before|) == |before| + |blanks|
    decreases blanks
  {
    var src := before + blanks + after;
    if blanks != "" {
      assert src == (before + [blanks[0]]) + blanks[1..] + after;
      BlanksAreSkipped(before + [blanks[0]], blanks[1..], after);
    }
  }

  lemma {:induction false} RestOfLineSkipped(before: string, line: string, after: string)
    requires NUL !in line && '\n' !in line && (after == "" || after[0] == '\n')
    ensures SkipLine(before + line + after, |before|) == |before| + |line|
    decreases line
  {
    var src := before + line + after;
    if line != "" {
      assert src == (before + [line[0]]) + line[1..] + after;
      RestOfLineSkipped(before + [line[0]], line[1..], after);
    }
  }

  /** A line comment ends before the newline, or with the source. */
  lemma {:induction false} LineCommentsLexToOneToken(before: string, line: string, after: string)
    requires NUL !in line && '\n' !in line && (after == "" || after[0] == '\n')
    ensures Scan(before + "//" + line + after, |before|) == Scanned(SingleLineComment, |before| + 2 + |line|)
  {
    hide SkipLine;
    var src := before + "//" + line + after;
    assert src == (before + "//") + line + after;
    RestOfLineSkipped(before + "//", line, after);
    assert src[|before|..|before| + 2] == "//";
  }

  // ----- comments in comments -----

  /** What is in a comment: text, and comments. */
  datatype Part = Text(s: string) | Comment(parts: seq<Part>)

  /** Text in which no comment starts or ends, not even with what stands next to it. */
  predicate IsPlain(s: string)
  {
    && NUL !in s
    && (forall k :: 0 <= k < |s| - 1 ==> !(s[k] == '/' && s[k + 1] == '*') && !(s[k] == '*' && s[k + 1] == '/'))
    && (s != "" ==> s[|s| - 1] != '/' && s[|s| - 1] != '*')
  }

  predicate ArePlain(parts: seq<Part>)
  {
    parts == [] ||
    (&& match parts[0] { case Text(s) => IsPlain(s) case Comment(inner) => ArePlain(inner) }
     && ArePlain(parts[1..]))
  }

  function Written(parts: seq<Part>): string
  {
    if parts == [] then "" else
    (match parts[0] case Text(s) => s case Comment(inner) => "/*" + Written(inner) + "*/") + Written(parts[1..])
  }

  lemma {:induction false} TextIsPassed(src: string, i: nat, s: string, depth: nat)
    requires IsPlain(s) && StartsWith(src, i, s) && depth > 0
    ensures i + |s| <= |src| && SkipComment(src, i, depth) == SkipComment(src, i + |s|, depth)
    decreases s
  {
    if s != "" {
      CharsOf(src, i, s, 0);
      RestOf(src, i, s, 1);
      if |s| > 1 {
        CharsOf(src, i, s, 1);
      }
      assert IsPlain(s[1..]) by {
        assert forall k :: 0 <= k < |s[1..]| ==> s[1..][k] == s[k + 1];
      }
      NoDelimiter(src, i);
      TextIsPassed(src, i + 1, s[1..], depth);
    }
  }

  /** One character that is no part of a delimiter. */
  lemma NoDelimiter(src: string, i: nat)
    requires i < |src| && src[i] != NUL
    requires CharAt(src, i) == '/' ==> CharAt(src, i + 1) != '*'
    requires CharAt(src, i) == '*' ==> CharAt(src, i + 1) != '/'
    ensures forall depth: nat :: depth > 0 ==> SkipComment(src, i, depth) == SkipComment(src, i + 1, depth)
  {
    if StartsWith(src, i, "/*") {
      CharsOf(src, i, "/*", 0);
      CharsOf(src, i, "/*", 1);
    }
    if StartsWith(src, i, "*/") {
      CharsOf(src, i, "*/", 0);
      CharsOf(src, i, "*/", 1);
    }
  }

  lemma Opens(src: string, i: nat, depth: nat)
    requires StartsWith(src, i, "/*") && depth > 0
    ensures SkipComment(src, i, depth) == SkipComment(src, i + 2, depth + 1)
  {}

  lemma Closes(src: string, i: nat, depth: nat)
    requires StartsWith(src, i, "*/") && depth > 0
    ensures SkipComment(src, i, depth) == SkipComment(src, i + 2, depth - 1)
  {
    CharsOf(src, i, "*/", 0);
    if StartsWith(src, i, "/*") {
      CharsOf(src, i, "/*", 0);
    }
  }

  lemma TwoParts(src: string, i: nat, v: string, w: string)
    requires StartsWith(src, i, v + w)
    ensures StartsWith(src, i, v) && StartsWith(src, i + |v|, w)
  {
    MiddleOf(src, i, v + w, 0, |v|);
    RestOf(src, i, v + w, |v|);
    assert (v + w)[0..|v|] == v && (v + w)[|v|..] == w;
  }

  lemma InsideComment(src: string, i: nat, w: string, rest: string)
    requires StartsWith(src, i, "/*" + w + "*/" + rest)
    ensures StartsWith(src, i, "/*") && StartsWith(src, i + 2, w) && StartsWith(src, i + 2 + |w|, "*/")
    ensures StartsWith(src, i + |w| + 4, rest)
  {
    hide StartsWith;
    TwoParts(src, i, "/*" + w + "*/", rest);
    TwoParts(src, i, "/*" + w, "*/");
    TwoParts(src, i, "/*", w);
  }

  lemma {:induction false} PartsArePassed(src: string, i: nat, parts: seq<Part>, depth: nat)
    requires ArePlain(parts) && StartsWith(src, i, Written(parts)) && depth > 0
    ensures i + |Written(parts)| <= |src|
    ensures SkipComment(src, i, depth) == SkipComment(src, i + |Written(parts)|, depth)
    decreases parts
  {
    hide StartsWith, SkipComment;
    if parts != [] {
      var rest := Written(parts[1..]);
      match parts[0] {
        case Text(s) =>
          TwoParts(src, i, s, rest);
          TextIsPassed(src, i, s, depth);
          PartsArePassed(src, i + |s|, parts[1..], depth);
        case Comment(inner) =>
          var w := Written(inner);
          InsideComment(src, i, w, rest);
          Opens(src, i, depth);
          PartsArePassed(src, i + 2, inner, depth + 1);
          Closes(src, i + 2 + |w|, depth + 1);
          PartsArePassed(src, i + |w| + 4, parts[1..], depth);
      }
    } else {
      assert StartsWith(src, i, "");
      WithinSource(src, i, "");
    }
  }

  lemma WithinSource(src: string, i: nat, s: string)
    requires StartsWith(src, i, s)
    ensures i + |s| <= |src|
  {}

  /** Comments nest: a comment ends where it is closed, not where one inside it is. */
  lemma {:induction false} CommentsNest(before: string, parts: seq<Part>, after: string)
    requires ArePlain(parts)
    ensures var text := Written([Comment(parts)]);
            Scan(before + text + after, |before|) == Scanned(MultiLineComment, |before| + |text|)
  {
    hide SkipComment, ArePlain, Written;
    var w, text := Written(parts), Written([Comment(parts)]);
    OneComment(parts);
    var src, i := before + text + after, |before|;
    assert src[i..i + |text|] == "/*" + w + "*/";
    TwoParts(src, i, "/*" + w, "*/");
    TwoParts(src, i, "/*", w);
    NotALineComment(src, i);
    PartsArePassed(src, i + 2, parts, 1);
    Closes(src, i + 2 + |w|, 1);
    AtDepthZero(src, i + |w| + 4);
  }

  lemma OneComment(parts: seq<Part>)
    ensures Written([Comment(parts)]) == "/*" + Written(parts) + "*/"
  {
    assert [Comment(parts)][1..] == [] && Written([Comment(parts)][1..]) == "";
  }

  lemma NotALineComment(src: string, i: nat)
    requires StartsWith(src, i, "/*")
    ensures !StartsWith(src, i, "//")
  {
    CharsOf(src, i, "/*", 1);
    SecondChar(src, i, "//");
  }

  lemma SecondChar(src: string, i: nat, w: string)
    requires |w| >= 2
    ensures StartsWith(src, i, w) ==> CharAt(src, i + 1) == w[1]
  {
    if StartsWith(src, i, w) {
      CharsOf(src, i, w, 1);
    }
  }

  lemma AtDepthZero(src: string, i: nat)
    requires i <= |src|
    ensures SkipComment(src, i, 0) == i
  {}

  /** A comment that is not closed ends with the source. */
  lemma {:induction false} OpenCommentsEndTheSource(before: string, parts: seq<Part>)
    requires ArePlain(parts)
    ensures var src := before + "/*" + Written(parts); Scan(src, |before|) == Scanned(MultiLineComment, |src|)
  {
    hide SkipComment, ArePlain, Written;
    var w := Written(parts);
    var src, i := before + "/*" + w, |before|;
    assert src[i..i + |"/*" + w|] == "/*" + w;
    TwoParts(src, i, "/*", w);
    NotALineComment(src, i);
    PartsArePassed(src, i + 2, parts, 1);
    AtTheEnd(src, 1);
  }

  lemma AtTheEnd(src: string, depth: nat)
    ensures SkipComment(src, |src|, depth) == |src|
  {}

  // ----- numbers with a point -----

  lemma {:induction false} DigitsArePassed(src: string, i: nat, d: string, hasPoint: bool)
    requires StartsWith(src, i, d) && AllDigits(d, 16)
    ensures i + |d| <= |src| && SkipDigits(src, i, hasPoint) == SkipDigits(src, i + |d|, hasPoint)
    decreases d
  {
    if d != "" {
      CharsOf(src, i, d, 0);
      RestOf(src, i, d, 1);
      assert IsDigitOf(d[0], 16);
      assert forall k :: 0 <= k < |d[1..]| ==> d[1..][k] == d[k + 1];
      DigitsArePassed(src, i + 1, d[1..], hasPoint);
    }
  }

  lemma PointIsPassed(src: string, i: nat)
    requires StartsWith(src, i, ".")
    ensures i + 1 <= |src| && SkipDigits(src, i, false) == SkipDigits(src, i + 1, true)
  {
    CharsOf(src, i, ".", 0);
  }

  lemma {:induction false} PointNumberEnds(src: string, i: nat, d: string, e: string)
    requires d != "" && AllDigits(d, 10) && AllDigits(e, 16) && StartsWith(src, i, d + ("." + e))
    requires var c := CharAt(src, i + |d| + 1 + |e|); !IsHexDigit(c) && c != 'u'
    ensures i < |src| && IsDigit(src[i]) && NumberEnd(src, i) == i + |d| + 1 + |e|
  {
    hide SkipDigits, AllDigits, StartsWith, IsHexDigit;
    var text := d + ("." + e);
    CharsOf(src, i, text, 0);
    CharsOf(src, i, text, 1);
    DecimalDigitsAreDigits(d, 0);
    if |d| > 1 {
      DecimalDigitsAreDigits(d, 1);
    }
    TwoParts(src, i, d, "." + e);
    TwoParts(src, i + |d|, ".", e);
    RestOf(src, i, d, 1);
    TailIsDigits(d);
    DigitsArePassed(src, i + 1, d[1..], false);
    PointIsPassed(src, i + |d|);
    DigitsArePassed(src, i + |d| + 1, e, true);
    StopsThere(src, i + |text|);
    NoSuffix(CharAt(src, i + |text|));
  }

  lemma NoSuffix(c: char)
    requires !IsHexDigit(c)
    ensures c != 'f'
  {}

  /** A number may have one point: digits, a point and digits, anywhere in a source, are one
      token, which ends before a second point. */
  lemma {:induction false} PointNumbersLexToOneToken(before: string, d: string, e: string, after: string)
    requires d != "" && AllDigits(d, 10) && AllDigits(e, 16)
    requires after != "" ==> !IsHexDigit(after[0]) && after[0] != 'u'
    ensures Scan(before + d + "." + e + after, |before|) == Scanned(NumberLiteral, |before| + |d| + 1 + |e|)
  {
    hide Scan, NumberEnd, AllDigits;
    var text := d + ("." + e);
    var src, i := before + d + "." + e + after, |before|;
    assert src[i..i + |text|] == text;
    assert CharAt(src, i + |text|) == if after == "" then NUL else after[0];
    PointNumberEnds(src, i, d, e);
    DigitStartsNumber(src, i);
  }

  lemma TailIsDigits(d: string)
    requires d != "" && AllDigits(d, 10)
    ensures AllDigits(d[1..], 16)
  {
    forall k | 0 <= k < |d[1..]| ensures IsDigitOf(d[1..][k], 16) {
      assert IsDigitOf(d[k + 1], 10);
    }
  }

  lemma StopsThere(src: string, i: nat)
    requires i <= |src| && !IsHexDigit(CharAt(src, i))
    ensures SkipDigits(src, i, true) == i
  {}

  lemma {:induction false} PointFirstEnds(src: string, i: nat, e: string)
    requires AllDigits(e, 16) && StartsWith(src, i, "." + e)
    requires var c := CharAt(src, i + 1 + |e|); !IsHexDigit(c) && c != 'u' && (e == "" ==> c != 'x' && c != '.')
    ensures i < |src| && src[i] == '.' && StartsNumber(src, i) && NumberEnd(src, i) == i + 1 + |e|
  {
    hide SkipDigits, StartsWith;
    CharsOf(src, i, "." + e, 0);
    TwoParts(src, i, ".", e);
    if e != "" {
      CharsOf(src, i, "." + e, 1);
      assert IsDigitOf(e[0], 16);
    }
    DigitsArePassed(src, i + 1, e, true);
    StopsThere(src, i + 1 + |e|);
    NoSuffix(CharAt(src, i + 1 + |e|));
  }

  /** A number may start with its point, even without a digit behind it, unless another point
      follows. */
  lemma {:induction false} PointMayComeFirst(before: string, e: string, after: string)
    requires AllDigits(e, 16)
    requires after != "" ==> !IsHexDigit(after[0]) && after[0] != 'u'
    requires e == "" && after != "" ==> after[0] != 'x' && after[0] != '.'
    ensures Scan(before + "." + e + after, |before|) == Scanned(NumberLiteral, |before| + 1 + |e|)
  {
    hide NumberEnd, AllDigits, StartsNumber, SkipComment, SkipLine;
    var src, i := before + "." + e + after, |before|;
    assert src[i..i + |"." + e|] == "." + e;
    assert CharAt(src, i + 1 + |e|) == if after == "" then NUL else after[0];
    PointFirstEnds(src, i, e);
    StartsWithFirst(src, i, "//");
    StartsWithFirst(src, i, "/*");
  }
}
