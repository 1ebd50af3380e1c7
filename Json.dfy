/**
 * The part of Python's `json` module that the list codec uses: `json.dumps`
 * of a list of strings with the default settings (`ensure_ascii=True`,
 * separators `", "`), and `json.loads` of a text holding a JSON array of
 * strings, with the strictness of the C scanner (no raw control characters
 * inside a string, exactly four hex digits after `\u`).
 */
module Json {
  import opened Wrappers

  /** The whitespace JSON allows between tokens. */
  predicate IsJsonSpace(c: char) {
    c == ' ' || c == '\t' || c == '\n' || c == '\r'
  }

  const Backspace: char := 8 as char
  const FormFeed: char := 12 as char

  // ---------------------------------------------------------------------------
  // Four-digit hexadecimal numbers, as written after a `\u` escape
  // ---------------------------------------------------------------------------

  /** The lower-case hex digit of `n`, as the encoder writes it. */
  function HexDigit(n: nat): (c: char)
    requires n < 16
  {
    if n < 10 then ('0' as int + n) as char else ('a' as int + n - 10) as char
  }

  /** The value of a hex digit in either case, or `None` for any other character. */
  function HexValue(c: char): (r: Option<nat>)
    ensures r.Some? ==> r.value < 16
  {
    if '0' <= c <= '9' then Some(c as int - '0' as int)
    else if 'a' <= c <= 'f' then Some(c as int - 'a' as int + 10)
    else if 'A' <= c <= 'F' then Some(c as int - 'A' as int + 10)
    else None
  }

  /** `n` written as four lower-case hex digits (`'{0:04x}'.format(n)`). */
  function Hex4(n: nat): (s: string)
    requires n < 0x1_0000
    ensures |s| == 4
  {
    [HexDigit(n / 0x1000), HexDigit(n / 0x100 % 16), HexDigit(n / 16 % 16), HexDigit(n % 16)]
  }

  /** The value of the four hex digits that start `s`, or `None` if there are not four. */
  function ParseHex4(s: string): (r: Option<nat>)
    ensures r.Some? ==> |s| >= 4 && r.value < 0x1_0000
  {
    if |s| < 4 then None
    else match (HexValue(s[0]), HexValue(s[1]), HexValue(s[2]), HexValue(s[3]))
      case (Some(a), Some(b), Some(c), Some(d)) => Some(a * 0x1000 + b * 0x100 + c * 16 + d)
      case _ => None
  }

  lemma HexDigitValue(n: nat)
    requires n < 16
    ensures HexValue(HexDigit(n)) == Some(n)
  {
  }

  /** The four digits `Hex4` writes are the base-16 digits of `n`. */
  lemma Hex4Digits(n: nat)
    requires n < 0x1_0000
    ensures (n / 0x1000) * 0x1000 + (n / 0x100 % 16) * 0x100 + (n / 16 % 16) * 16 + n % 16 == n
  {
    var d, q1 := n % 16, n / 16;
    assert n == q1 * 16 + d;
    var c, q2 := q1 % 16, q1 / 16;
    assert q1 == q2 * 16 + c;
    assert n == q2 * 0x100 + c * 16 + d;
    assert q2 == n / 0x100 && c == n / 16 % 16;
    var b, q3 := q2 % 16, q2 / 16;
    assert q2 == q3 * 16 + b;
    assert n == q3 * 0x1000 + b * 0x100 + c * 16 + d;
    assert q3 == n / 0x1000;
  }

  lemma Hex4RoundTrip(n: nat, rest: string)
    requires n < 0x1_0000
    ensures ParseHex4(Hex4(n) + rest) == Some(n)
  {
    var s := Hex4(n) + rest;
    Hex4Digits(n);
    HexDigitValue(n / 0x1000);
    HexDigitValue(n / 0x100 % 16);
    HexDigitValue(n / 16 % 16);
    HexDigitValue(n % 16);
    assert s[0] == HexDigit(n / 0x1000) && s[1] == HexDigit(n / 0x100 % 16);
    assert s[2] == HexDigit(n / 16 % 16) && s[3] == HexDigit(n % 16);
  }

  // ---------------------------------------------------------------------------
  // json.dumps
  // ---------------------------------------------------------------------------

  const HighSurrogateBase: nat := 0xD800
  const LowSurrogateBase: nat := 0xDC00

  /** A character the ASCII encoder writes as it is: printable ASCII except `"` and `\`. */
  predicate IsPlain(c: char) {
    ' ' <= c <= '~' && c != '"' && c != '\\'
  }

  /** How `json.dumps` writes one character inside a string literal. */
  function EscapeChar(c: char): (s: string)
    ensures |s| >= 1
  {
    if IsPlain(c) then [c]
    else if c == '"' then "\\\""
    else if c == '\\' then "\\\\"
    else if c == Backspace then "\\b"
    else if c == FormFeed then "\\f"
    else if c == '\n' then "\\n"
    else if c == '\r' then "\\r"
    else if c == '\t' then "\\t"
    else if c as int < 0x1_0000 then "\\u" + Hex4(c as int)
    else
      // outside the Basic Multilingual Plane: a UTF-16 surrogate pair
      var v := c as int - 0x1_0000;
      "\\u" + Hex4(HighSurrogateBase + v / 0x400) + "\\u" + Hex4(LowSurrogateBase + v % 0x400)
  }

  function EscapeString(x: string): string {
    if x == [] then [] else EscapeChar(x[0]) + EscapeString(x[1..])
  }

  /** A string literal: `"`, the escaped characters, `"`. */
  function Quote(x: string): string {
    "\"" + EscapeString(x) + "\""
  }

  /** The elements of a JSON array, separated by `", "`. */
  function JoinElements(xs: seq<string>): string {
    if xs == [] then []
    else if |xs| == 1 then Quote(xs[0])
    else Quote(xs[0]) + ", " + JoinElements(xs[1..])
  }

  /** `json.dumps(xs)` for a list of strings. */
  function Dumps(xs: seq<string>): (s: string)
    ensures |s| >= 2 && s[0] == '[' && s[|s| - 1] == ']'
  {
    "[" + JoinElements(xs) + "]"
  }

  // ---------------------------------------------------------------------------
  // json.loads
  // ---------------------------------------------------------------------------

  /** Skips JSON whitespace; the result is a suffix of `s`. */
  function SkipSpace(s: string): (r: string)
    ensures |r| <= |s|
  {
    if s != [] && IsJsonSpace(s[0]) then SkipSpace(s[1..]) else s
  }

  /**
   * Decodes the escape sequence that follows a backslash. A `\u` escape
   * naming a surrogate must be the high half of a pair whose low half
   * follows at once; the decoder keeps an unpaired surrogate as a
   * character of its own, which a Dafny `char` cannot hold, so this model
   * rejects it.
   */
  function ParseEscape(s: string): (r: Option<(char, string)>)
    ensures r.Some? ==> |r.value.1| < |s|
  {
    if s == [] then None
    else if s[0] == '"' then Some(('"', s[1..]))
    else if s[0] == '\\' then Some(('\\', s[1..]))
    else if s[0] == '/' then Some(('/', s[1..]))
    else if s[0] == 'b' then Some((Backspace, s[1..]))
    else if s[0] == 'f' then Some((FormFeed, s[1..]))
    else if s[0] == 'n' then Some(('\n', s[1..]))
    else if s[0] == 'r' then Some(('\r', s[1..]))
    else if s[0] == 't' then Some(('\t', s[1..]))
    else if s[0] != 'u' then None
    else match ParseHex4(s[1..])
      case None => None
      case Some(n) =>
        if n < HighSurrogateBase || n >= 0xE000 then Some((n as char, s[5..]))
        else if n >= LowSurrogateBase then None
        else if |s| >= 11 && s[5] == '\\' && s[6] == 'u' then
          match ParseHex4(s[7..])
          case Some(m) =>
            if LowSurrogateBase <= m < 0xE000 then
              Some(((0x1_0000 + (n - HighSurrogateBase) * 0x400 + (m - LowSurrogateBase)) as char, s[11..]))
            else None
          case None => None
        else None
  }

  /**
   * Decodes the characters of a string literal whose opening quote has been
   * read, up to and including the closing quote; returns them and the text
   * after the quote.
   */
  function ParseStringBody(s: string): (r: Option<(string, string)>)
    ensures r.Some? ==> |r.value.1| < |s|
  {
    if s == [] then None
    else if s[0] == '"' then Some(([], s[1..]))
    else if s[0] == '\\' then
      match ParseEscape(s[1..])
      case None => None
      case Some((c, rest)) =>
        match ParseStringBody(rest)
        case None => None
        case Some((cs, rest')) => Some(([c] + cs, rest'))
    else if s[0] as int < 0x20 then None
    else
      match ParseStringBody(s[1..])
      case None => None
      case Some((cs, rest)) => Some(([s[0]] + cs, rest))
  }

  /**
   * Decodes one or more array elements followed by the closing `]`. A value
   * other than a string is rejected (see the module comment of ListCodec).
   */
  function ParseElements(s: string): (r: Option<(seq<string>, string)>)
    ensures r.Some? ==> |r.value.1| < |s|
    decreases |s|
  {
    if s == [] || s[0] != '"' then None
    else
      var str := ParseStringBody(s[1..]);
      if str.None? then None
      else
        var t := SkipSpace(str.value.1);
        if t != [] && t[0] == ']' then Some(([str.value.0], t[1..]))
        else if t != [] && t[0] == ',' then
          Prepend(str.value.0, ParseElements(SkipSpace(t[1..])))
        else None
  }

  /** Puts `x` in front of the elements that `more` decoded, if it decoded any. */
  function Prepend(x: string, more: Option<(seq<string>, string)>): (r: Option<(seq<string>, string)>)
    ensures r.Some? <==> more.Some?
    ensures r.Some? ==> r.value.1 == more.value.1
  {
    if more.None? then None else Some(([x] + more.value.0, more.value.1))
  }

  /** `json.loads(s)` where the document is an array of strings; `None` where Python raises. */
  function Loads(s: string): (r: Option<seq<string>>)
  {
    var t := SkipSpace(s);
    if t == [] || t[0] != '[' then None
    else
      var u := SkipSpace(t[1..]);
      var body := ParseArrayBody(u);
      if body.Some? && SkipSpace(body.value.1) == [] then Some(body.value.0) else None
  }

  /** The elements of an array whose `[` and the whitespace after it have been read. */
  function ParseArrayBody(u: string): (r: Option<(seq<string>, string)>)
  {
    if u != [] && u[0] == ']' then Some(([], u[1..])) else ParseElements(u)
  }

  // ---------------------------------------------------------------------------
  // Round trip: json.loads(json.dumps(xs)) == xs
  // ---------------------------------------------------------------------------

  /** The characters `json.dumps` writes as a backslash and one letter. */
  predicate HasShortEscape(c: char) {
    c == '"' || c == '\\' || c == Backspace || c == FormFeed || c == '\n' || c == '\r' || c == '\t'
  }

  lemma ShortEscapeRoundTrip(c: char, rest: string)
    requires HasShortEscape(c)
    ensures |EscapeChar(c)| == 2 && EscapeChar(c)[0] == '\\'
    ensures ParseEscape(EscapeChar(c)[1..] + rest) == Some((c, rest))
  {
  }

  lemma BmpEscapeRoundTrip(c: char, rest: string)
    requires !IsPlain(c) && !HasShortEscape(c) && c as int < 0x1_0000
    ensures EscapeChar(c)[0] == '\\'
    ensures ParseEscape(EscapeChar(c)[1..] + rest) == Some((c, rest))
  {
    var e := EscapeChar(c);
    assert e == "\\u" + Hex4(c as int);
    Hex4RoundTrip(c as int, rest);
    assert e[1..] + rest == ['u'] + (Hex4(c as int) + rest);
  }

  /** The surrogate pair of a character beyond U+FFFF: a high half, a low half, and back. */
  lemma SurrogateHalves(c: char)
    requires c as int >= 0x1_0000
    ensures var v := c as int - 0x1_0000;
      var hi, lo := HighSurrogateBase + v / 0x400, LowSurrogateBase + v % 0x400;
      HighSurrogateBase <= hi < LowSurrogateBase && LowSurrogateBase <= lo < 0xE000
      && 0x1_0000 + (hi - HighSurrogateBase) * 0x400 + (lo - LowSurrogateBase) == c as int
  {
    var v := c as int - 0x1_0000;
    assert v == (v / 0x400) * 0x400 + v % 0x400;
    assert v < 0x10_0000;
  }

  /** A `\u` escape of a high surrogate directly followed by one of a low surrogate reads as one character. */
  lemma SurrogatePairRoundTrip(hi: nat, lo: nat, rest: string)
    requires HighSurrogateBase <= hi < LowSurrogateBase && LowSurrogateBase <= lo < 0xE000
    ensures 0x1_0000 + (hi - HighSurrogateBase) * 0x400 + (lo - LowSurrogateBase) < 0x11_0000
    ensures ParseEscape("u" + Hex4(hi) + "\\u" + Hex4(lo) + rest)
      == Some(((0x1_0000 + (hi - HighSurrogateBase) * 0x400 + (lo - LowSurrogateBase)) as char, rest))
  {
    var s := "u" + Hex4(hi) + "\\u" + Hex4(lo) + rest;
    Hex4RoundTrip(hi, "\\u" + Hex4(lo) + rest);
    assert s[1..] == Hex4(hi) + ("\\u" + Hex4(lo) + rest);
    Hex4RoundTrip(lo, rest);
    assert s[7..] == Hex4(lo) + rest;
    assert s[11..] == rest;
  }

  /** A character beyond U+FFFF is written as a surrogate pair and read back as one character. */
  lemma AstralEscapeRoundTrip(c: char, rest: string)
    requires c as int >= 0x1_0000
    ensures EscapeChar(c)[0] == '\\'
    ensures ParseEscape(EscapeChar(c)[1..] + rest) == Some((c, rest))
  {
    var v := c as int - 0x1_0000;
    var hi, lo := HighSurrogateBase + v / 0x400, LowSurrogateBase + v % 0x400;
    SurrogateHalves(c);
    var e := EscapeChar(c);
    assert e == "\\u" + Hex4(hi) + "\\u" + Hex4(lo);
    assert e[1..] + rest == "u" + Hex4(hi) + "\\u" + Hex4(lo) + rest;
    SurrogatePairRoundTrip(hi, lo, rest);
  }

  lemma EscapeCharRoundTrip(c: char, rest: string)
    ensures EscapeChar(c)[0] == '\\' ==> ParseEscape(EscapeChar(c)[1..] + rest) == Some((c, rest))
    ensures EscapeChar(c)[0] != '\\' ==> EscapeChar(c) == [c] && c != '"' && c as int >= 0x20
  {
    if IsPlain(c) {
    } else if HasShortEscape(c) {
      ShortEscapeRoundTrip(c, rest);
    } else if c as int < 0x1_0000 {
      BmpEscapeRoundTrip(c, rest);
    } else {
      AstralEscapeRoundTrip(c, rest);
    }
  }

  /** One escaped character in front of a string body that reads back adds that character. */
  lemma StringBodyStep(c: char, tail: string, cs: string, rest: string)
    requires ParseStringBody(tail) == Some((cs, rest))
    ensures ParseStringBody(EscapeChar(c) + tail) == Some(([c] + cs, rest))
  {
    var s := EscapeChar(c) + tail;
    EscapeCharRoundTrip(c, tail);
    if EscapeChar(c)[0] == '\\' {
      assert s[1..] == EscapeChar(c)[1..] + tail;
    } else {
      assert s[1..] == tail;
    }
  }

  lemma {:induction false} StringBodyRoundTrip(x: string, rest: string)
    ensures ParseStringBody(EscapeString(x) + "\"" + rest) == Some((x, rest))
  {
    if x != [] {
      var tail := EscapeString(x[1..]) + "\"" + rest;
      assert EscapeString(x) + "\"" + rest == EscapeChar(x[0]) + tail;
      StringBodyRoundTrip(x[1..], rest);
      StringBodyStep(x[0], tail, x[1..], rest);
      assert x == [x[0]] + x[1..];
    }
  }

  lemma SkipSpaceNone(s: string)
    requires s != [] && !IsJsonSpace(s[0])
    ensures SkipSpace(s) == s
  {
  }

  /** A string literal followed by `tail` reads back as the string, leaving `tail`. */
  lemma QuoteRoundTrip(x: string, tail: string)
    ensures (Quote(x) + tail)[0] == '"'
    ensures ParseStringBody((Quote(x) + tail)[1..]) == Some((x, tail))
  {
    assert (Quote(x) + tail)[1..] == EscapeString(x) + "\"" + tail;
    StringBodyRoundTrip(x, tail);
  }

  lemma JoinElementsStart(xs: seq<string>, tail: string)
    requires xs != []
    ensures (JoinElements(xs) + tail)[0] == '"'
  {
    if |xs| == 1 {
      QuoteRoundTrip(xs[0], tail);
    } else {
      assert JoinElements(xs) + tail == Quote(xs[0]) + (", " + JoinElements(xs[1..]) + tail);
      QuoteRoundTrip(xs[0], ", " + JoinElements(xs[1..]) + tail);
    }
  }

  /** How `ParseElements` proceeds once the first string literal has been read. */
  lemma ParseElementsAfterString(s: string, x: string, after: string)
    requires s != [] && s[0] == '"' && ParseStringBody(s[1..]) == Some((x, after))
    requires after != [] && !IsJsonSpace(after[0])
    ensures after[0] == ']' ==> ParseElements(s) == Some(([x], after[1..]))
    ensures after[0] == ',' ==> ParseElements(s) == Prepend(x, ParseElements(SkipSpace(after[1..])))
  {
    SkipSpaceNone(after);
  }

  /**
   * Regrouping a concatenation. Each use states one regrouping by itself, which
   * keeps `SplitElements` from weighing all of them at once.
   */
  lemma Assoc(a: string, b: string, c: string)
    ensures a + b + c == a + (b + c)
  {
  }

  lemma SingleElementRoundTrip(x: string, rest: string)
    ensures ParseElements(JoinElements([x]) + "]" + rest) == Some(([x], rest))
  {
    var after := "]" + rest;
    var s := JoinElements([x]) + "]" + rest;
    assert s == Quote(x) + after;
    QuoteRoundTrip(x, after);
    ParseElementsAfterString(s, x, after);
    assert after[1..] == rest;
  }

  /** The text `json.dumps` writes for two or more elements: the first, a comma, the others. */
  lemma SplitElements(xs: seq<string>, rest: string)
    requires |xs| > 1
    ensures JoinElements(xs) + "]" + rest == Quote(xs[0]) + (", " + (JoinElements(xs[1..]) + "]" + rest))
  {
    var q, j := Quote(xs[0]), JoinElements(xs[1..]);
    var a := q + ", ";
    assert JoinElements(xs) == a + j;
    Assoc(a + j, "]", rest);
    Assoc(a, j, "]" + rest);
    Assoc(q, ", ", j + ("]" + rest));
    Assoc(j, "]", rest);
  }

  /** Reading past the comma and the space that `json.dumps` puts between two elements. */
  lemma SkipSeparator(more: string)
    requires more != [] && more[0] == '"'
    ensures (", " + more)[0] == ',' && SkipSpace((", " + more)[1..]) == more
  {
    assert (", " + more)[1..] == " " + more;
    SkipSpaceNone(more);
  }

  lemma {:induction false} ElementsRoundTrip(xs: seq<string>, rest: string)
    requires xs != []
    ensures ParseElements(JoinElements(xs) + "]" + rest) == Some((xs, rest))
  {
    var x := xs[0];
    if |xs| == 1 {
      assert xs == [x];
      SingleElementRoundTrip(x, rest);
    } else {
      var more := JoinElements(xs[1..]) + "]" + rest;
      var after := ", " + more;
      SplitElements(xs, rest);
      QuoteRoundTrip(x, after);
      JoinElementsStart(xs[1..], "]" + rest);
      assert more == JoinElements(xs[1..]) + ("]" + rest);
      SkipSeparator(more);
      ParseElementsAfterString(Quote(x) + after, x, after);
      ElementsRoundTrip(xs[1..], rest);
      assert xs == [x] + xs[1..];
    }
  }

  /** Decoding what `json.dumps` wrote gives back the same list. */
  lemma LoadsDumps(xs: seq<string>)
    ensures Loads(Dumps(xs)) == Some(xs)
  {
    var s := Dumps(xs);
    SkipSpaceNone(s);
    var u := s[1..];
    if xs == [] {
      assert u == "]";
      SkipSpaceNone(u);
      assert u[1..] == [];
      assert ParseArrayBody(u) == Some(([], []));
    } else {
      assert u == JoinElements(xs) + "]" + "";
      ElementsRoundTrip(xs, "");
      JoinElementsStart(xs, "]");
      assert u == JoinElements(xs) + "]";
      SkipSpaceNone(u);
      assert ParseArrayBody(u) == Some((xs, []));
    }
  }
}
