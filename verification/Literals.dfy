// Literals between source text and value: what parse.cpp decodes is what was written.
module Literals {
  import opened Words
  import opened Scanner

  // ----- strings -----

  /** The character that an escape stands for. */
  function EscapeValue(c: char): Option<char>
  {
    match c
    case 'a' => Some(7 as char)
    case 'b' => Some(8 as char)
    case 'e' => Some(27 as char)
    case 'f' => Some(12 as char)
    case 'n' => Some('\n')
    case 'r' => Some('\r')
    case 't' => Some('\t')
    case 'v' => Some(11 as char)
    case '0' => Some(NUL)
    case '"' => Some('"')
    case '\\' => Some('\\')
    case _ => None
  }

  /** The characters of a literal from position i up to its closing quote, decoded. */
  function Unescape(text: string, i: nat): Option<string>
    requires |text| >= 2
    decreases |text| - i
  {
    if i >= |text| - 1 then Some("") else
    if text[i] == '\\' then
      match EscapeValue(text[i + 1])
      case None => None
      case Some(c) =>
        match Unescape(text, i + 2)
        case None => None
        case Some(rest) => Some([c] + rest)
    else
      match Unescape(text, i + 1)
      case None => None
      case Some(rest) => Some([text[i]] + rest)
  }

  /** What is left when the decoded characters are read as a NUL-terminated string. */
  function UpToNul(s: string): string
  {
    if s == "" || s[0] == NUL then "" else [s[0]] + UpToNul(s[1..])
  }

  function DecodeString(text: string): Option<string>
    requires |text| >= 2
  {
    match Unescape(text, 1)
    case None => None
    case Some(s) => Some(UpToNul(s))
  }

  /** The decoding loop; an unknown escape is an error. */
  method DecodeStringLiteral(text: string) returns (value: string, ok: bool)
    requires |text| >= 2
    ensures ok == DecodeString(text).Some?
    ensures ok ==> value == DecodeString(text).value
  {
    var escaped := "";
    var at := 1;
    assert Unescape(text, 1).Some? ==> escaped + Unescape(text, 1).value == Unescape(text, 1).value;
    while at < |text| - 1
      invariant 1 <= at <= |text|
      invariant match Unescape(text, at)
                case None => Unescape(text, 1).None?
                case Some(rest) => Unescape(text, 1) == Some(escaped + rest)
    {
      ghost var rest := Unescape(text, at);
      if text[at] == '\\' {
        var c := EscapeValue(text[at + 1]);
        if c == None {
          return "", false;
        }
        assert rest.Some? ==> escaped + rest.value == escaped + [c.value] + rest.value[1..];
        escaped := escaped + [c.value];
        at := at + 1;
      } else {
        assert rest.Some? ==> escaped + rest.value == escaped + [text[at]] + rest.value[1..];
        escaped := escaped + [text[at]];
      }
      at := at + 1;
    }
    assert escaped + "" == escaped;
    value, ok := UpToNul(escaped), true;
  }

  /** The shortest way to write a string: only quotes and backslashes need a backslash. */
  function Escape(s: string): string
  {
    if s == "" then ""
    else (if s[0] == '"' || s[0] == '\\' then ['\\', s[0]] else [s[0]]) + Escape(s[1..])
  }

  function Quote(s: string): (r: string)
    ensures |r| >= 2
  {
    "\"" + Escape(s) + "\""
  }

  lemma {:induction false} UnescapeUndoesEscape(text: string, i: nat, s: string)
    requires |text| >= 2 && i <= |text| - 1 && text[i..|text| - 1] == Escape(s)
    ensures Unescape(text, i) == Some(s)
    decreases s
  {
    var e := text[i..|text| - 1];
    if s == "" {
      assert |e| == 0;
    } else {
      var width := if s[0] == '"' || s[0] == '\\' then 2 else 1;
      assert e[width..] == Escape(s[1..]);
      assert text[i + width..|text| - 1] == e[width..];
      assert text[i] == e[0] && (width == 2 ==> text[i + 1] == e[1]);
      UnescapeUndoesEscape(text, i + width, s[1..]);
      assert [s[0]] + s[1..] == s;
    }
  }

  /** The letter behind the backslash that stands for a character. */
  function EscapeLetter(c: char): Option<char>
  {
    var code := c as int;
    if code == 7 then Some('a') else if code == 8 then Some('b') else if code == 27 then Some('e')
    else if code == 12 then Some('f') else if code == 10 then Some('n') else if code == 13 then Some('r')
    else if code == 9 then Some('t') else if code == 11 then Some('v') else if code == 0 then Some('0')
    else if code == 34 then Some('"') else if code == 92 then Some('\\')
    else None
  }

  /** Exactly these letters are escapes, and each stands for its character. */
  lemma EscapesAreLetters(letter: char, c: char)
    ensures EscapeValue(letter) == Some(c) <==> EscapeLetter(c) == Some(letter)
  {}

  /** Every character that has an escape written as that. */
  function EscapeFully(s: string): string
  {
    if s == "" then ""
    else (if EscapeLetter(s[0]).Some? then ['\\', EscapeLetter(s[0]).value] else [s[0]]) + EscapeFully(s[1..])
  }

  lemma {:induction false} UnescapeUndoesFully(text: string, i: nat, s: string)
    requires |text| >= 2 && i <= |text| - 1 && text[i..|text| - 1] == EscapeFully(s)
    ensures Unescape(text, i) == Some(s)
    decreases s
  {
    hide EscapeLetter, EscapeValue;
    var e := text[i..|text| - 1];
    if s == "" {
      assert |e| == 0;
    } else {
      var width := if EscapeLetter(s[0]).Some? then 2 else 1;
      assert e[width..] == EscapeFully(s[1..]);
      assert text[i + width..|text| - 1] == e[width..];
      assert text[i] == e[0] && (width == 2 ==> text[i + 1] == e[1]);
      UnescapeUndoesFully(text, i + width, s[1..]);
      BackslashIsEscaped();
      if width == 2 {
        EscapesAreLetters(text[i + 1], s[0]);
      }
      assert [s[0]] + s[1..] == s;
    }
  }

  lemma BackslashIsEscaped()
    ensures EscapeLetter('\\').Some?
  {}

  lemma {:induction false} CutAtNul(s: string, t: string)
    requires NUL !in s
    ensures UpToNul(s + [NUL] + t) == s
  {
    if s != "" {
      assert (s + [NUL] + t)[1..] == s[1..] + [NUL] + t;
      CutAtNul(s[1..], t);
      assert [s[0]] + s[1..] == s;
    } else {
      assert (s + [NUL] + t)[0] == NUL;
    }
  }

  /** A NUL-free string in which every control character, quote and backslash is written as its
      escape decodes to itself; an escaped NUL cuts off what follows it. */
  lemma {:induction false} EscapedStringsDecode(s: string, t: string)
    requires NUL !in s
    ensures DecodeString("\"" + EscapeFully(s) + "\"") == Some(s)
    ensures DecodeString("\"" + EscapeFully(s + [NUL] + t) + "\"") == Some(s)
  {
    DecodesUpToNul(s);
    NulFreeIsKept(s);
    DecodesUpToNul(s + [NUL] + t);
    CutAtNul(s, t);
  }

  lemma DecodesUpToNul(s: string)
    ensures DecodeString("\"" + EscapeFully(s) + "\"") == Some(UpToNul(s))
  {
    var text := "\"" + EscapeFully(s) + "\"";
    assert text[1..|text| - 1] == EscapeFully(s);
    UnescapeUndoesFully(text, 1, s);
  }

  lemma {:induction false} NulFreeIsKept(s: string)
    requires NUL !in s
    ensures UpToNul(s) == s
  {
    if s != "" {
      NulFreeIsKept(s[1..]);
    }
  }

  predicate EndsInBackslash(s: string) { s != "" && s[|s| - 1] == '\\' }

  lemma {:induction false} EscapeIsNulFree(s: string)
    requires NUL !in s
    ensures NUL !in Escape(s)
    ensures s != "" ==> Escape(s) != "" && Escape(s)[0] != '"'
  {
    if s != "" {
      EscapeIsNulFree(s[1..]);
    }
  }

  lemma CharsOf(src: string, i: nat, t: string, k: nat)
    requires StartsWith(src, i, t) && k < |t|
    ensures CharAt(src, i + k) == t[k]
  {
    assert src[i..i + |t|][k] == src[i + k];
  }

  lemma RestOf(src: string, i: nat, t: string, k: nat)
    requires StartsWith(src, i, t) && k <= |t|
    ensures StartsWith(src, i + k, t[k..])
  {
    assert src[i..i + |t|][k..] == src[i + k..i + |t|];
  }

  lemma MiddleOf(src: string, i: nat, t: string, a: nat, b: nat)
    requires StartsWith(src, i, t) && a <= b <= |t|
    ensures StartsWith(src, i + a, t[a..b])
  {
    forall k | 0 <= k < b - a ensures src[i + a + k] == t[a..b][k] {
      CharsOf(src, i, t, a + k);
    }
  }

  lemma SkipHidden(src: string, i: nat)
    requires CharAt(src, i) == '\\' && CharAt(src, i + 1) == '"'
    ensures i + 2 <= |src| && SkipString(src, i) == SkipString(src, i + 2)
  {}

  lemma SkipPlain(src: string, i: nat)
    requires CharAt(src, i) != '"' && CharAt(src, i) != NUL && !(CharAt(src, i) == '\\' && CharAt(src, i + 1) == '"')
    ensures i + 1 <= |src| && SkipString(src, i) == SkipString(src, i + 1)
  {}

  lemma SkipClosing(src: string, i: nat)
    requires CharAt(src, i) == '"'
    ensures i < |src| && SkipString(src, i) == Some(i + 1)
  {}

  /** How far the lexer reads behind an opening quote: to the closing one, unless the last
      character before that is a backslash, which hides it. */
  lemma {:induction false} SkipEscaped(src: string, i: nat, s: string)
    requires NUL !in s && StartsWith(src, i, Escape(s) + "\"")
    ensures var end := i + |Escape(s)| + 1;
            SkipString(src, i) == if EndsInBackslash(s) then SkipString(src, end) else Some(end)
    decreases s
  {
    hide SkipString, CharAt, StartsWith;
    var t := Escape(s) + "\"";
    CharsOf(src, i, t, 0);
    if s == "" {
      SkipClosing(src, i);
    } else {
      var rest := Escape(s[1..]) + "\"";
      var width := if s[0] == '"' || s[0] == '\\' then 2 else 1;
      assert t[width..] == rest;
      RestOf(src, i, t, width);
      EscapeIsNulFree(s[1..]);
      if width == 2 {
        CharsOf(src, i, t, 1);
        CharsOf(src, i + 2, rest, 0);
        SkipEscape(src, i, s);
      } else {
        SkipPlain(src, i);
      }
      if s[1..] != "" || s[0] != '\\' {
        SkipEscaped(src, i + width, s[1..]);
      }
    }
  }

  /** The two characters of an escape are skipped together, except that an escaped backslash
      directly before the closing quote hides that quote. */
  lemma SkipEscape(src: string, i: nat, s: string)
    requires s != "" && (s[0] == '"' || s[0] == '\\') && CharAt(src, i) == '\\' && CharAt(src, i + 1) == s[0]
    requires CharAt(src, i + 2) == '"' <==> s[1..] == ""
    ensures i + 2 <= |src| && (s[0] == '\\' && s[1..] == "" ==> i + 3 <= |src|)
    ensures SkipString(src, i) == SkipString(src, if s[0] == '\\' && s[1..] == "" then i + 3 else i + 2)
  {
    hide SkipString;
    if s[0] == '"' {
      SkipHidden(src, i);
    } else {
      SkipPlain(src, i);
      if s[1..] == "" {
        SkipHidden(src, i + 1);
      } else {
        SkipPlain(src, i + 1);
      }
    }
  }

  lemma StartsWithFirst(src: string, i: nat, prefix: string)
    requires prefix != ""
    ensures StartsWith(src, i, prefix) ==> src[i] == prefix[0]
  {
    if StartsWith(src, i, prefix) {
      assert src[i..i + |prefix|][0] == src[i];
    }
  }

  lemma QuoteStartsString(src: string, i: nat)
    requires i < |src| && src[i] == '"'
    ensures Scan(src, i) == match SkipString(src, i + 1)
                            case None => Unterminated
                            case Some(end) => Scanned(StringLiteral, end)
  {
    hide SkipString;
    StartsWithFirst(src, i, "//");
    StartsWithFirst(src, i, "/*");
  }

  /** A quoted NUL-free string, anywhere in a source, is one token exactly if it does not end
      in a backslash; and every one decodes to itself. */
  lemma {:induction false} QuotedStringsRoundTrip(before: string, s: string, after: string)
    requires NUL !in s
    ensures DecodeString(Quote(s)) == Some(s)
    ensures Scan(before + Quote(s) + after, |before|) == Scanned(StringLiteral, |before| + |Quote(s)|) <==>
            !EndsInBackslash(s)
  {
    hide Scan, SkipString;
    var src, i := before + Quote(s) + after, |before|;
    UnescapeUndoesEscape(Quote(s), 1, s);
    NulFreeIsKept(s);
    assert src[i] == '"';
    assert src[i + 1..i + 1 + |Escape(s) + "\""|] == Escape(s) + "\"";
    QuoteStartsString(src, i);
    SkipEscaped(src, i + 1, s);
  }

  // ----- integers -----

  const LIMIT: nat := 0x1_0000_0000_0000_0000

  function DigitValue(c: char): nat
    requires IsHexDigit(c)
  {
    if '0' <= c <= '9' then c as int - '0' as int
    else if 'a' <= c <= 'f' then c as int - 'a' as int + 10
    else c as int - 'A' as int + 10
  }

  predicate IsDigitOf(c: char, base: nat) { IsHexDigit(c) && DigitValue(c) < base }

  predicate AllDigits(s: string, base: nat) { forall k :: 0 <= k < |s| ==> IsDigitOf(s[k], base) }

  function ValueOf(s: string, base: nat): nat
    requires AllDigits(s, base)
  {
    if s == "" then 0 else ValueOf(s[..|s| - 1], base) * base + DigitValue(s[|s| - 1])
  }

  /** Reading a whole string as an unsigned 64-bit number, as std::from_chars does. */
  function FromChars(s: string, base: nat): Option<nat>
  {
    if s == "" || !AllDigits(s, base) || ValueOf(s, base) >= LIMIT then None else Some(ValueOf(s, base))
  }

  /** The value of an integer literal; None for those that do not decode, and for what is a
      floating-point literal. */
  function DecodeInteger(text: string): Option<nat>
    requires text != ""
  {
    var isHex := |text| > 1 && text[0] == '0' && text[1] == 'x';
    var last := text[|text| - 1];
    if (!isHex && last == 'f') || '.' in text then None else
    var begin := if isHex then 2 else 0;
    var end := if last == 'u' then |text| - 1 else |text|;
    if begin > end then None else FromChars(text[begin..end], if isHex then 16 else 10)
  }

  function DigitOf(v: nat): (c: char)
    requires v < 16
    ensures IsHexDigit(c) && DigitValue(c) == v
  {
    if v < 10 then (v + '0' as int) as char else (v - 10 + 'a' as int) as char
  }

  /** A number written in a base. */
  function Digits(n: nat, base: nat): (r: string)
    requires 2 <= base <= 16
    ensures r != "" && AllDigits(r, base)
    decreases n
  {
    if n < base then [DigitOf(n)] else
    assert n / base < n by { Smaller(n, base); }
    Digits(n / base, base) + [DigitOf(n % base)]
  }

  lemma AtLeastTwice(q: nat, base: nat)
    requires base >= 2
    ensures q * base >= 2 * q
  {}

  lemma Smaller(n: nat, base: nat)
    requires 2 <= base <= n
    ensures n / base < n
  {
    var q := n / base;
    assert n == q * base + n % base;
    AtLeastTwice(q, base);
  }

  lemma ValueOfAppend(s: string, c: char, base: nat)
    requires AllDigits(s + [c], base) && AllDigits(s, base) && IsDigitOf(c, base)
    ensures ValueOf(s + [c], base) == ValueOf(s, base) * base + DigitValue(c)
  {
    assert (s + [c])[..|s|] == s;
  }

  lemma {:induction false} ValueUndoesDigits(n: nat, base: nat)
    requires 2 <= base <= 16
    ensures ValueOf(Digits(n, base), base) == n
    decreases n
  {
    hide ValueOf, DigitValue, IsHexDigit;
    if n < base {
      assert [] + [DigitOf(n)] == [DigitOf(n)];
      EmptyIsZero(base);
      ValueOfAppend([], DigitOf(n), base);
    } else {
      hide Digits;
      DigitsStep(n, base);
      ValueUndoesDigits(n / base, base);
      ValueOfAppend(Digits(n / base, base), DigitOf(n % base), base);
    }
  }

  lemma DigitsStep(n: nat, base: nat)
    requires 2 <= base <= 16 && n >= base
    ensures Digits(n, base) == Digits(n / base, base) + [DigitOf(n % base)]
    ensures n / base < n && (n / base) * base + n % base == n
  {
    hide AllDigits, DigitOf;
    Smaller(n, base);
    QuotientAndRest(n, base);
  }

  lemma QuotientAndRest(n: nat, base: nat)
    requires base >= 2
    ensures (n / base) * base + n % base == n
  {}

  lemma EmptyIsZero(base: nat)
    ensures ValueOf("", base) == 0
  {}

  /** An integer literal: decimal or hexadecimal, with or without the unsigned suffix. */
  function IntegerText(n: nat, hex: bool, unsigned: bool): (r: string)
    ensures r != ""
  {
    (if hex then "0x" + Digits(n, 16) else Digits(n, 10)) + (if unsigned then "u" else "")
  }

  lemma {:induction false} DecimalDigitsAreDigits(s: string, k: nat)
    requires AllDigits(s, 10) && k < |s|
    ensures '0' <= s[k] <= '9'
  {
    assert IsDigitOf(s[k], 10);
  }

  lemma {:induction false} HexTextDecodes(d: string, unsigned: bool)
    requires d != "" && AllDigits(d, 16)
    ensures DecodeInteger("0x" + d + (if unsigned then "u" else "")) == FromChars(d, 16)
  {
    hide FromChars;
    var text := "0x" + d + (if unsigned then "u" else "");
    assert IsDigitOf(d[|d| - 1], 16);
    assert text[2..2 + |d|] == d;
    assert forall k :: 0 <= k < |text| ==> text[k] != '.' by {
      forall k | 0 <= k < |d| ensures d[k] != '.' {
        assert IsDigitOf(d[k], 16);
      }
    }
  }

  lemma {:induction false} DecimalTextDecodes(d: string, unsigned: bool)
    requires d != "" && AllDigits(d, 10)
    ensures DecodeInteger(d + (if unsigned then "u" else "")) == FromChars(d, 10)
  {
    hide FromChars;
    var text := d + (if unsigned then "u" else "");
    assert text[0..|d|] == d;
    assert IsDigitOf(d[|d| - 1], 10);
    if |d| > 1 {
      assert IsDigitOf(d[1], 10);
    }
    assert forall k :: 0 <= k < |text| ==> text[k] != '.' by {
      forall k | 0 <= k < |d| ensures d[k] != '.' {
        assert IsDigitOf(d[k], 10);
      }
    }
  }

  /** A written number decodes to itself below 2^64 and is rejected from there on. */
  lemma {:induction false} IntegersDecode(n: nat, hex: bool, unsigned: bool)
    ensures DecodeInteger(IntegerText(n, hex, unsigned)) == if n < LIMIT then Some(n) else None
  {
    hide DecodeInteger;
    var base := if hex then 16 else 10;
    ValueUndoesDigits(n, base);
    if hex {
      HexTextDecodes(Digits(n, 16), unsigned);
    } else {
      DecimalTextDecodes(Digits(n, 10), unsigned);
    }
  }

  lemma {:induction false} SkipAllDigits(src: string, i: nat, d: string, hasPoint: bool)
    requires StartsWith(src, i, d) && AllDigits(d, 16) && !IsHexDigit(CharAt(src, i + |d|)) &&
             CharAt(src, i + |d|) != '.'
    ensures SkipDigits(src, i, hasPoint) == i + |d|
    decreases d
  {
    if d != "" {
      CharsOf(src, i, d, 0);
      RestOf(src, i, d, 1);
      assert IsDigitOf(d[0], 16);
      assert forall k :: 0 <= k < |d[1..]| ==> d[1..][k] == d[k + 1];
      SkipAllDigits(src, i + 1, d[1..], hasPoint);
    }
  }

  lemma DigitStartsNumber(src: string, i: nat)
    requires i < |src| && IsDigit(src[i])
    ensures StartsNumber(src, i) && Scan(src, i) == Scanned(NumberLiteral, NumberEnd(src, i))
  {
    hide NumberEnd;
    StartsWithFirst(src, i, "//");
    StartsWithFirst(src, i, "/*");
  }

  /** Characters that would be read as part of a number they follow. */
  predicate ContinuesNumber(c: char) { IsHexDigit(c) || c == '.' || c == 'u' || c == 'x' }

  lemma {:induction false} HexEnds(src: string, i: nat, d: string, unsigned: bool)
    requires AllDigits(d, 16) && StartsWith(src, i, "0x" + d + (if unsigned then "u" else ""))
    requires !unsigned ==> !ContinuesNumber(CharAt(src, i + 2 + |d|))
    ensures StartsNumber(src, i) && NumberEnd(src, i) == i + 2 + |d| + (if unsigned then 1 else 0)
  {
    var text := "0x" + d + (if unsigned then "u" else "");
    CharsOf(src, i, text, 0);
    CharsOf(src, i, text, 1);
    MiddleOf(src, i, text, 2, 2 + |d|);
    assert text[2..2 + |d|] == d;
    if unsigned {
      CharsOf(src, i, text, 2 + |d|);
    }
    SkipAllDigits(src, i + 2, d, false);
  }

  lemma {:induction false} DecimalEnds(src: string, i: nat, d: string, unsigned: bool)
    requires d != "" && AllDigits(d, 10) && StartsWith(src, i, d + (if unsigned then "u" else ""))
    requires !unsigned ==> !ContinuesNumber(CharAt(src, i + |d|))
    ensures StartsNumber(src, i) && NumberEnd(src, i) == i + |d| + (if unsigned then 1 else 0)
  {
    var text := d + (if unsigned then "u" else "");
    CharsOf(src, i, text, 0);
    assert IsDigitOf(d[0], 10);
    if |text| > 1 {
      CharsOf(src, i, text, 1);
      if |d| > 1 {
        assert IsDigitOf(d[1], 10);
      }
    }
    MiddleOf(src, i, text, 1, |d|);
    assert text[1..|d|] == d[1..];
    if unsigned {
      CharsOf(src, i, text, |d|);
    }
    assert forall k :: 0 <= k < |d[1..]| ==> d[1..][k] == d[k + 1];
    assert AllDigits(d[1..], 16) by {
      forall k | 0 <= k < |d[1..]| ensures IsDigitOf(d[1..][k], 16) {
        assert IsDigitOf(d[k + 1], 10);
      }
    }
    SkipAllDigits(src, i + 1, d[1..], false);
  }

  /** A written number, anywhere in a source, is one number token, if no character follows
      that would continue it. */
  lemma {:induction false} IntegersLexToOneToken(before: string, n: nat, hex: bool, unsigned: bool, after: string)
    requires !unsigned && after != "" ==> !ContinuesNumber(after[0])
    ensures var text := IntegerText(n, hex, unsigned);
            Scan(before + text + after, |before|) == Scanned(NumberLiteral, |before| + |text|)
  {
    hide Scan, NumberEnd, Digits;
    var text := IntegerText(n, hex, unsigned);
    var src, i := before + text + after, |before|;
    assert src[i..i + |text|] == text;
    assert CharAt(src, i + |text|) == (if after == "" then NUL else after[0]);
    CharsOf(src, i, text, 0);
    if hex {
      HexEnds(src, i, Digits(n, 16), unsigned);
    } else {
      DecimalEnds(src, i, Digits(n, 10), unsigned);
      DecimalDigitsAreDigits(Digits(n, 10), 0);
    }
    DigitStartsNumber(src, i);
  }

  // ----- upper-case digits -----

  /** The letters a to f written as A to F. */
  function Upper(s: string): (r: string)
    ensures |r| == |s|
  {
    if s == "" then "" else
      [if 'a' <= s[0] <= 'f' then (s[0] as int - 32) as char else s[0]] + Upper(s[1..])
  }

  lemma {:induction false} UpperAt(s: string, k: nat)
    requires k < |s|
    ensures Upper(s)[k] == if 'a' <= s[k] <= 'f' then (s[k] as int - 32) as char else s[k]
  {
    if k > 0 {
      UpperAt(s[1..], k - 1);
    }
  }

  lemma {:induction false} UpperOfFront(s: string)
    requires s != ""
    ensures Upper(s)[..|s| - 1] == Upper(s[..|s| - 1])
  {
    hide Upper;
    var front := s[..|s| - 1];
    forall k | 0 <= k < |front| ensures Upper(s)[k] == Upper(front)[k] {
      UpperAt(s, k);
      UpperAt(front, k);
    }
  }

  lemma {:induction false} UpperIsTheSameNumber(s: string)
    requires AllDigits(s, 16)
    ensures AllDigits(Upper(s), 16) && ValueOf(Upper(s), 16) == ValueOf(s, 16)
    decreases |s|
  {
    hide Upper;
    forall k | 0 <= k < |s| ensures IsDigitOf(Upper(s)[k], 16) && DigitValue(Upper(s)[k]) == DigitValue(s[k]) {
      assert IsDigitOf(s[k], 16);
      UpperAt(s, k);
    }
    if s != "" {
      UpperOfFront(s);
      UpperIsTheSameNumber(s[..|s| - 1]);
    }
  }

  /** A hexadecimal number in capital letters: the same number, and one token as well. */
  lemma {:induction false} UpperCaseIntegersDecode(before: string, n: nat, unsigned: bool, after: string)
    requires !unsigned && after != "" ==> !ContinuesNumber(after[0])
    ensures var text := "0x" + Upper(Digits(n, 16)) + (if unsigned then "u" else "");
            && DecodeInteger(text) == (if n < LIMIT then Some(n) else None)
            && Scan(before + text + after, |before|) == Scanned(NumberLiteral, |before| + |text|)
  {
    hide Scan, NumberEnd, Digits, DecodeInteger, Upper, AllDigits, ValueOf;
    var d := Upper(Digits(n, 16));
    UpperIsTheSameNumber(Digits(n, 16));
    ValueUndoesDigits(n, 16);
    HexTextDecodes(d, unsigned);
    var text := "0x" + d + (if unsigned then "u" else "");
    var src, i := before + text + after, |before|;
    assert src[i..i + |text|] == text;
    assert CharAt(src, i + |text|) == (if after == "" then NUL else after[0]);
    CharsOf(src, i, text, 0);
    HexEnds(src, i, d, unsigned);
    DigitStartsNumber(src, i);
  }
}
