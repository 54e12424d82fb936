/** Reading values off the router's pages: trimming quotes and spaces, and decoding hex escapes. */
module HuaweiText {
  import opened Prelude

  /** `unicode.IsSpace`. */
  predicate IsSpace(c: char) {
    var code := c as int;
    || 9 <= code <= 13 || code == 32 || code == 0x85 || code == 0xA0
    || code == 0x1680 || 0x2000 <= code <= 0x200A || code == 0x2028 || code == 0x2029 || code == 0x202F
       || code == 0x205F || code == 0x3000
  }

  /** Tabs, line breaks and blanks are white space, printable ASCII is not. */
  lemma SpacesAre(c: char)
    ensures c in {'\t', '\n', '\r', ' '} || c as int in {11, 12, 0x85, 0xA0} ==> IsSpace(c)
    ensures 32 < c as int < 127 ==> !IsSpace(c)
  {}

  predicate IsQuote(c: char) {
    c == '"' || c == '\''
  }

  function TrimSpace(s: string): string
    decreases |s|
  {
    if s != [] && IsSpace(s[0]) then TrimSpace(s[1..])
    else if s != [] && IsSpace(s[|s| - 1]) then TrimSpace(s[..|s| - 1])
    else s
  }

  /** `strings.Trim` with a cutset of the two quotes. */
  function TrimQuotes(s: string): string
    decreases |s|
  {
    if s != [] && IsQuote(s[0]) then TrimQuotes(s[1..])
    else if s != [] && IsQuote(s[|s| - 1]) then TrimQuotes(s[..|s| - 1])
    else s
  }

  function HexValue(c: char): Option<int> {
    if '0' <= c <= '9' then Some(c as int - '0' as int)
    else if 'a' <= c <= 'f' then Some(c as int - 'a' as int + 10)
    else if 'A' <= c <= 'F' then Some(c as int - 'A' as int + 10)
    else None
  }

  predicate StartsEscape(s: string) {
    |s| >= 4 && s[0] == '\\' && s[1] == 'x' && HexValue(s[2]).Some? && HexValue(s[3]).Some?
  }

  /** Replaces every `\xHH`, leftmost first and without rescanning what it wrote. */
  function Decode(s: string): string
    decreases |s|
  {
    if s == [] then ""
    else if StartsEscape(s) then [(16 * HexValue(s[2]).value + HexValue(s[3]).value) as char] + Decode(s[4..])
    else [s[0]] + Decode(s[1..])
  }

  /** `parseHuaweiString`. */
  function ParseString(value: string): string {
    Decode(TrimQuotes(TrimSpace(value)))
  }

  function HexDigit(n: int): char
    requires 0 <= n < 16
  {
    if n < 10 then ('0' as int + n) as char else ('a' as int + n - 10) as char
  }

  lemma HexDigitValue(n: int)
    requires 0 <= n < 16
    ensures HexValue(HexDigit(n)) == Some(n)
  {}

  function UpperHexDigit(n: int): char
    requires 0 <= n < 16
  {
    if n < 10 then ('0' as int + n) as char else ('A' as int + n - 10) as char
  }

  /** Digits are read in either case, and nothing else is a digit. */
  lemma HexInEitherCase(n: int, c: char)
    requires 0 <= n < 16
    ensures HexValue(HexDigit(n)) == Some(n) && HexValue(UpperHexDigit(n)) == Some(n)
    ensures HexValue(c).Some? ==>
              var v := HexValue(c).value; 0 <= v < 16 && (c == HexDigit(v) || c == UpperHexDigit(v))
  {}

  predicate Latin(s: string) {
    forall i | 0 <= i < |s| :: s[i] as int < 256
  }

  function EscapeChar(c: char): string
    requires c as int < 256
  {
    ['\\', 'x', HexDigit(c as int / 16), HexDigit(c as int % 16)]
  }

  function PrintChar(c: char, plain: set<char>): string
    requires c as int < 256
  {
    if c in plain then [c] else EscapeChar(c)
  }

  /** The router's way of printing a value: characters in `plain` as they are, all others as `\xHH`. */
  function Escape(s: string, plain: set<char>): string
    requires Latin(s)
  {
    if s == [] then "" else PrintChar(s[0], plain) + Escape(s[1..], plain)
  }

  lemma DecodeEscapeChar(c: char, rest: string)
    requires c as int < 256
    ensures Decode(EscapeChar(c) + rest) == [c] + Decode(rest)
  {
    var s := EscapeChar(c) + rest;
    HexDigitValue(c as int / 16);
    HexDigitValue(c as int % 16);
    assert s[0] == '\\' && s[1] == 'x' && s[2] == HexDigit(c as int / 16) && s[3] == HexDigit(c as int % 16)
           && s[4..] == rest;
  }

  lemma DecodePlain(c: char, rest: string)
    requires c != '\\'
    ensures Decode([c] + rest) == [c] + Decode(rest)
  {
    assert ([c] + rest)[1..] == rest;
  }

  lemma ConcatAssociates(a: string, b: string, c: string)
    ensures (a + b) + c == a + (b + c)
  {}

  lemma DecodePrinted(c: char, plain: set<char>, rest: string)
    requires c as int < 256 && '\\' !in plain
    ensures Decode(PrintChar(c, plain) + rest) == [c] + Decode(rest)
  {
    if c in plain {
      DecodePlain(c, rest);
    } else {
      DecodeEscapeChar(c, rest);
    }
  }

  /** Decoding undoes escaping and stops there: what follows is decoded on its own. */
  lemma {:induction false} DecodeEscape(s: string, plain: set<char>, rest: string)
    requires Latin(s) && '\\' !in plain
    ensures Decode(Escape(s, plain) + rest) == s + Decode(rest)
  {
    if s == [] {
      assert "" + rest == rest;
    } else {
      var tail := Escape(s[1..], plain) + rest;
      DecodeEscape(s[1..], plain, rest);
      DecodePrinted(s[0], plain, tail);
      ConcatAssociates(PrintChar(s[0], plain), Escape(s[1..], plain), rest);
      ConcatAssociates([s[0]], s[1..], Decode(rest));
      assert s == [s[0]] + s[1..];
    }
  }

  /** Single pass: an escaped backslash never opens an escape with the text after it. */
  lemma EscapedBackslashIsLiteral(rest: string)
    ensures Decode(EscapeChar('\\') + rest) == ['\\'] + Decode(rest)
    ensures Decode(Decode(EscapeChar('\\') + "x41")) != Decode(EscapeChar('\\') + "x41")
  {
    DecodeEscapeChar('\\', rest);
    DecodeEscapeChar('\\', "x41");
    DecodePlain('x', "41");
    DecodePlain('4', "1");
    DecodePlain('1', "");
    assert ['x'] + "41" == "x41" && ['4'] + "1" == "41" && ['1'] + "" == "1";
    assert Decode("x41") == "x41";
    var once := ['\\'] + "x41";
    assert once == ['\\', 'x', '4', '1'] && StartsEscape(once);
    assert |Decode(once)| == 1 + |Decode(once[4..])| && once[4..] == "";
  }

  /** Characters that trimming and splitting leave alone. */
  predicate Inert(c: char) {
    !IsSpace(c) && !IsQuote(c)
  }

  predicate AllInert(s: string) {
    forall i | 0 <= i < |s| :: Inert(s[i]) && s[i] != ')'
  }

  lemma TrimSpaceNothing(s: string)
    requires s != [] ==> !IsSpace(s[0]) && !IsSpace(s[|s| - 1])
    ensures TrimSpace(s) == s
  {}

  lemma TrimQuotesAround(quote: char, body: string)
    requires IsQuote(quote) && (body != [] ==> !IsQuote(body[0]) && !IsQuote(body[|body| - 1]))
    ensures TrimQuotes([quote] + body + [quote]) == body
  {
    var s := [quote] + body + [quote];
    assert s[1..] == body + [quote];
    if body == [] {
      assert s[1..] == [quote] && [quote][1..] == "";
      assert TrimQuotes(s) == TrimQuotes([quote]) && TrimQuotes([quote]) == "";
    } else {
      var tail := body + [quote];
      assert tail[0] == body[0] && tail[|tail| - 1] == quote && tail[..|tail| - 1] == body;
      assert TrimQuotes(s) == TrimQuotes(tail);
      assert TrimQuotes(tail) == TrimQuotes(body);
    }
  }

  /** A printed argument: a space, then the escaped value in double quotes. */
  function Quoted(value: string, plain: set<char>): string
    requires Latin(value)
  {
    [' '] + (['"'] + Escape(value, plain) + ['"'])
  }

  predicate PlainInert(plain: set<char>) {
    forall c | c in plain :: Inert(c) && c != '\\' && c != ')'
  }

  lemma {:induction false} EscapeInert(value: string, plain: set<char>)
    requires Latin(value) && PlainInert(plain)
    ensures AllInert(Escape(value, plain))
  {
    if value == [] {
    } else {
      EscapeInert(value[1..], plain);
      assert AllInert(PrintChar(value[0], plain));
    }
  }

  /** `parseHuaweiString` reads back any printed value. */
  lemma ParseQuoted(value: string, plain: set<char>)
    requires Latin(value) && PlainInert(plain)
    ensures ParseString(Quoted(value, plain)) == value
  {
    var body := Escape(value, plain);
    var inner := ['"'] + body + ['"'];
    EscapeInert(value, plain);
    TrimQuoted(inner);
    TrimQuotesAround('"', body);
    DecodeEscape(value, plain, "");
    assert body + "" == body && value + Decode("") == value;
  }

  lemma TrimQuoted(inner: string)
    requires inner != [] && !IsSpace(inner[0]) && !IsSpace(inner[|inner| - 1])
    ensures TrimSpace([' '] + inner) == inner
  {
    assert ([' '] + inner)[1..] == inner;
    TrimSpaceNothing(inner);
  }

  predicate AllSpace(s: string) {
    forall i | 0 <= i < |s| :: IsSpace(s[i])
  }

  lemma {:induction false} TrimSpaceBefore(before: string, s: string)
    requires AllSpace(before)
    ensures TrimSpace(before + s) == TrimSpace(s)
  {
    if before == [] {
      assert before + s == s;
    } else {
      assert (before + s)[1..] == before[1..] + s;
      TrimSpaceBefore(before[1..], s);
    }
  }

  lemma {:induction false} TrimSpaceAfter(s: string, after: string)
    requires AllSpace(after) && s != [] && !IsSpace(s[0]) && !IsSpace(s[|s| - 1])
    ensures TrimSpace(s + after) == s
  {
    if after == [] {
      assert s + after == s;
      TrimSpaceNothing(s);
    } else {
      assert (s + after)[..|s + after| - 1] == s + after[..|after| - 1];
      TrimSpaceAfter(s, after[..|after| - 1]);
    }
  }

  /** A value is read back from either kind of quotes, with any white space around them. */
  lemma ParseAnyQuoted(before: string, quote: char, value: string, plain: set<char>, after: string)
    requires AllSpace(before) && AllSpace(after) && quote in {'"', '\''} && Latin(value) && PlainInert(plain)
    ensures ParseString(before + (([quote] + Escape(value, plain) + [quote]) + after)) == value
  {
    var body := Escape(value, plain);
    var inner := [quote] + body + [quote];
    assert !IsSpace('"') && !IsSpace('\'');
    TrimSpaceBefore(before, inner + after);
    TrimSpaceAfter(inner, after);
    EscapeInert(value, plain);
    TrimQuotesAround(quote, body);
    DecodeEscape(value, plain, "");
    assert body + "" == body && value + Decode("") == value;
  }

  /** Text without a backslash is left as it is. */
  lemma {:induction false} NothingToDecode(s: string)
    requires '\\' !in s
    ensures Decode(s) == s
  {
    if s == [] {
    } else {
      NothingToDecode(s[1..]);
      assert s == [s[0]] + s[1..];
    }
  }

  /** A backslash that starts no escape stays. */
  lemma LoneBackslashStays(c: char, rest: string)
    requires c != 'x' && c != '\\'
    ensures Decode(['\\'] + ([c] + rest)) == ['\\'] + ([c] + Decode(rest))
  {
    assert (['\\'] + ([c] + rest))[1..] == [c] + rest;
    DecodePlain(c, rest);
  }
}
