/** Constructor calls on the router's pages: finding them, and reading back the arguments a router printed. */
module HuaweiCalls {
  import opened Prelude
  import opened JavaScript
  import opened HuaweiText

  /** `\s` of the regular expressions. */
  function SkipSpaces(s: string): (r: string)
    ensures |r| <= |s|
  {
    if s != [] && s[0] as int in {9, 10, 12, 13, 32} then SkipSpaces(s[1..]) else s
  }

  /** The text before the first `c`. */
  function Until(s: string, c: char): (r: Option<string>)
    ensures r.Some? ==> |r.value| < |s|
  {
    if s == [] then None
    else if s[0] == c then Some("")
    else
      var rest := Until(s[1..], c);
      if rest.None? then None else Some([s[0]] + rest.value)
  }

  /** A match of `name\s*\((.*?)\)` at the start of the text: its capture and what follows it. */
  function CallAt(name: string, doc: string): (r: Option<(string, string)>)
    requires name != []
    ensures r.Some? ==> |r.value.1| < |doc|
  {
    if !(name <= doc) then None
    else
      var rest := SkipSpaces(doc[|name|..]);
      if rest == [] || rest[0] != '(' || Until(rest[1..], ')').None? then None
      else
        var capture := Until(rest[1..], ')').value;
        Some((capture, rest[|capture| + 2..]))
  }

  /**
   `FindAllStringSubmatch`: the captures of all calls, left to right. The optional
   `new\s+` of the patterns moves where a match begins but not what it captures
   or where it ends, so it needs no case here.
   */
  function FindCalls(name: string, doc: string): seq<string>
    requires name != []
    decreases |doc|
  {
    if doc == [] then []
    else
      var call := CallAt(name, doc);
      if call.Some? then [call.value.0] + FindCalls(name, call.value.1) else FindCalls(name, doc[1..])
  }

  lemma FindSkips(name: string, c: char, rest: string)
    requires name != [] && name[0] != c
    ensures FindCalls(name, [c] + rest) == FindCalls(name, rest)
  {
    assert ([c] + rest)[1..] == rest;
  }

  lemma {:induction false} UntilFirst(body: string, c: char, rest: string)
    requires c !in body
    ensures Until(body + [c] + rest, c) == Some(body)
  {
    if body != [] {
      var s := body + [c] + rest;
      assert s[1..] == body[1..] + [c] + rest;
      UntilFirst(body[1..], c, rest);
      assert body == [body[0]] + body[1..];
    } else {
      assert body + [c] + rest == [c] + rest;
    }
  }

  predicate Blank(s: string) {
    forall i | 0 <= i < |s| :: s[i] as int in {9, 10, 12, 13, 32}
  }

  lemma {:induction false} SkipBlank(gap: string, rest: string)
    requires Blank(gap) && (rest != [] ==> rest[0] as int !in {9, 10, 12, 13, 32})
    ensures SkipSpaces(gap + rest) == rest
  {
    if gap == [] {
      assert gap + rest == rest;
    } else {
      assert (gap + rest)[1..] == gap[1..] + rest;
      SkipBlank(gap[1..], rest);
    }
  }

  /** A call is found with any blank space between its name and its parenthesis, up to the first closing one. */
  lemma CallFound(name: string, gap: string, body: string, rest: string)
    requires name != [] && Blank(gap) && ')' !in body
    ensures FindCalls(name, name + (gap + ("(" + body + ")" + rest))) == [body] + FindCalls(name, rest)
  {
    var open := "(" + body + ")" + rest;
    var doc := name + (gap + open);
    SkipBlank(gap, open);
    assert doc[|name|..] == gap + open && name <= doc;
    assert open[1..] == body + [')'] + rest;
    UntilFirst(body, ')', rest);
    assert open[|body| + 2..] == rest;
  }

  lemma {:induction false} UntilNothing(s: string, c: char)
    requires c !in s
    ensures Until(s, c).None?
  {
    if s == [] {
    } else {
      UntilNothing(s[1..], c);
    }
  }

  lemma SkipKeeps(s: string, c: char)
    requires c !in s
    ensures c !in SkipSpaces(s)
  {}

  /** Without both parentheses there is no call. */
  lemma {:induction false} UnclosedIsNoCall(name: string, c: char, doc: string)
    requires name != [] && c in {'(', ')'} && c !in doc
    ensures FindCalls(name, doc) == []
    decreases |doc|
  {
    if doc == [] {
    } else {
      if name <= doc {
        var rest := SkipSpaces(doc[|name|..]);
        SkipKeeps(doc[|name|..], c);
        if rest != [] && c == ')' { UntilNothing(rest[1..], ')'); }
      }
      UnclosedIsNoCall(name, c, doc[1..]);
    }
  }

  /** One call of a router's list, as in `new Array(new F(...),new F(...),)`. */
  function CallText(name: string, body: string): string {
    ['n'] + (['e'] + (['w'] + ([' '] + (name + ("(" + body + ")" + [','])))))
  }

  function PrintCalls(name: string, bodies: seq<string>): string {
    if bodies == [] then "" else CallText(name, bodies[0]) + PrintCalls(name, bodies[1..])
  }

  predicate Findable(name: string) {
    name != [] && name[0] !in {'n', 'e', 'w', ' ', ','}
  }

  lemma PrintedCallFound(name: string, body: string, rest: string)
    requires Findable(name) && ')' !in body
    ensures FindCalls(name, CallText(name, body) + rest) == [body] + FindCalls(name, rest)
  {
    var tail := [','] + rest;
    FindSkips(name, ',', rest);
    CallFound(name, "", body, tail);
    NewSkipped(name, name + ("" + ("(" + body + ")" + tail)));
    CallTextThen(name, body, rest);
  }

  lemma NewSkipped(name: string, call: string)
    requires Findable(name)
    ensures FindCalls(name, ['n'] + (['e'] + (['w'] + ([' '] + call)))) == FindCalls(name, call)
  {
    FindSkips(name, ' ', call);
    FindSkips(name, 'w', [' '] + call);
    FindSkips(name, 'e', ['w'] + ([' '] + call));
    FindSkips(name, 'n', ['e'] + (['w'] + ([' '] + call)));
  }

  lemma CallTextThen(name: string, body: string, rest: string)
    ensures CallText(name, body) + rest
            == ['n'] + (['e'] + (['w'] + ([' '] + (name + ("" + ("(" + body + ")" + ([','] + rest)))))))
  {
    assert (name + ("(" + body + ")" + [','])) + rest == name + ("" + ("(" + body + ")" + ([','] + rest)));
  }

  lemma {:induction false} FindPrinted(name: string, bodies: seq<string>)
    requires Findable(name) && forall i | 0 <= i < |bodies| :: ')' !in bodies[i]
    ensures FindCalls(name, PrintCalls(name, bodies)) == bodies
  {
    if bodies == [] {
    } else {
      FindPrinted(name, bodies[1..]);
      PrintedCallFound(name, bodies[0], PrintCalls(name, bodies[1..]));
      assert [bodies[0]] + bodies[1..] == bodies;
    }
  }

  /** The name occurs nowhere in a text that lacks one of its characters and ends with a character foreign to it. */
  lemma NameNotHere(name: string, c: char, text: string, rest: string)
    requires c in name && c !in text && text != [] && text[|text| - 1] !in name
    ensures !(name <= text + rest)
  {
    var i :| 0 <= i < |name| && name[i] == c;
    var k := if |name| >= |text| then |text| - 1 else i;
    assert (text + rest)[k] == text[k] && name[k] != text[k];
  }

  /** Such a text is passed over. */
  lemma {:induction false} TextSkipped(name: string, c: char, text: string, rest: string)
    requires c in name && c !in text && (text != [] ==> text[|text| - 1] !in name)
    ensures FindCalls(name, text + rest) == FindCalls(name, rest)
    decreases |text|
  {
    if text == [] {
      assert text + rest == rest;
    } else {
      NameNotHere(name, c, text, rest);
      assert (text + rest)[1..] == text[1..] + rest;
      TextSkipped(name, c, text[1..], rest);
    }
  }

  lemma PrefixKeeps(name: string, c: char, doc: string)
    requires c in name && name <= doc
    ensures c in doc
  {
    var i :| 0 <= i < |name| && name[i] == c;
    assert doc[i] == c;
  }

  /** A text that lacks one of the name's characters holds none of its calls. */
  lemma {:induction false} FindsNothing(name: string, c: char, doc: string)
    requires c in name && c !in doc
    ensures FindCalls(name, doc) == []
    decreases |doc|
  {
    if doc == [] {
    } else {
      if name <= doc { PrefixKeeps(name, c, doc); }
      FindsNothing(name, c, doc[1..]);
    }
  }

  /** A call printed under the first or the second of two names. */
  datatype Printed = Printed(first: bool, body: string)

  function NameOf(one: string, two: string, first: bool): string {
    if first then one else two
  }

  /** A page that lists calls of two names in any order. */
  function MixedPage(one: string, two: string, calls: seq<Printed>): string {
    if calls == [] then ""
    else CallText(NameOf(one, two, calls[0].first), calls[0].body) + MixedPage(one, two, calls[1..])
  }

  function BodiesOf(calls: seq<Printed>, first: bool): seq<string> {
    if calls == [] then []
    else (if calls[0].first == first then [calls[0].body] else []) + BodiesOf(calls[1..], first)
  }

  /** The character tells the calls of one name from those of the other. */
  predicate Telltale(name: string, other: string, c: char, calls: seq<Printed>, first: bool) {
    && Findable(name) && c in name && ',' !in name && c !in other && c !in {'n', 'e', 'w', ' ', '(', ')', ','}
    && forall k | 0 <= k < |calls| :: ')' !in calls[k].body && (calls[k].first != first ==> c !in calls[k].body)
  }

  lemma CallTextLacks(name: string, body: string, c: char)
    requires c !in name && c !in body && c !in {'n', 'e', 'w', ' ', '(', ')', ','}
    ensures c !in CallText(name, body)
    ensures var text := CallText(name, body); text != [] && text[|text| - 1] == ','
  {}

  lemma {:induction false} FoundAmong(one: string, two: string, first: bool, c: char, calls: seq<Printed>)
    requires Telltale(NameOf(one, two, first), NameOf(one, two, !first), c, calls, first)
    ensures FindCalls(NameOf(one, two, first), MixedPage(one, two, calls)) == BodiesOf(calls, first)
  {
    var name, other := NameOf(one, two, first), NameOf(one, two, !first);
    if calls == [] {
    } else {
      var rest := calls[1..];
      assert forall k | 0 <= k < |rest| :: rest[k] == calls[k + 1];
      FoundAmong(one, two, first, c, rest);
      if calls[0].first == first {
        PrintedCallFound(name, calls[0].body, MixedPage(one, two, rest));
      } else {
        CallTextLacks(other, calls[0].body, c);
        TextSkipped(name, c, CallText(other, calls[0].body), MixedPage(one, two, rest));
      }
    }
  }

  function PrintRecord(fields: seq<string>, plain: set<char>): seq<string>
    requires forall i | 0 <= i < |fields| :: Latin(fields[i])
  {
    seq(|fields|, i requires 0 <= i < |fields| => Quoted(fields[i], plain))
  }

  function ParseFields(args: seq<string>): seq<string> {
    seq(|args|, i requires 0 <= i < |args| => ParseString(args[i]))
  }

  const IN_QUOTES := Lex(Some('"'), false)

  lemma ScanInert(c: char, rest: string)
    requires Inert(c) && c != '\\'
    ensures Scan(IN_QUOTES, [c] + rest) == Scan(IN_QUOTES, rest)
            && Whole(IN_QUOTES, [c] + rest) == Whole(IN_QUOTES, rest)
  {
    ScanCons(IN_QUOTES, c, rest);
  }

  lemma HexDigitInert(n: int)
    requires 0 <= n < 16
    ensures Inert(HexDigit(n)) && HexDigit(n) != '\\'
  {}

  lemma ScanPrinted(c: char, plain: set<char>)
    requires c as int < 256 && PlainInert(plain)
    ensures Scan(IN_QUOTES, PrintChar(c, plain)) == IN_QUOTES && Whole(IN_QUOTES, PrintChar(c, plain))
  {
    if c in plain {
      ScanInert(c, "");
      assert [c] + "" == [c];
    } else {
      HexDigitInert(c as int / 16);
      HexDigitInert(c as int % 16);
      ScanEscapeChar(HexDigit(c as int / 16), HexDigit(c as int % 16));
      assert EscapeChar(c) == ['\\'] + (['x'] + ([HexDigit(c as int / 16)] + [HexDigit(c as int % 16)]));
    }
  }

  lemma ScanEscapeChar(high: char, low: char)
    requires Inert(high) && high != '\\' && Inert(low) && low != '\\'
    ensures var s := ['\\'] + (['x'] + ([high] + [low])); Scan(IN_QUOTES, s) == IN_QUOTES && Whole(IN_QUOTES, s)
  {
    var escaped := Lex(Some('"'), true);
    ScanInert(low, "");
    assert [low] + "" == [low];
    ScanInert(high, [low]);
    ScanCons(escaped, 'x', [high] + [low]);
    ScanCons(IN_QUOTES, '\\', ['x'] + ([high] + [low]));
    assert Advance(IN_QUOTES, '\\') == escaped && Advance(escaped, 'x') == IN_QUOTES;
  }

  lemma {:induction false} ScanEscape(value: string, plain: set<char>)
    requires Latin(value) && PlainInert(plain)
    ensures Scan(IN_QUOTES, Escape(value, plain)) == IN_QUOTES && Whole(IN_QUOTES, Escape(value, plain))
  {
    if value == [] {
    } else {
      ScanPrinted(value[0], plain);
      ScanEscape(value[1..], plain);
      ScanAppend(IN_QUOTES, PrintChar(value[0], plain), Escape(value[1..], plain));
    }
  }

  lemma ScanQuoted(value: string, plain: set<char>)
    requires Latin(value) && PlainInert(plain)
    ensures Whole(OUTSIDE, Quoted(value, plain)) && Balanced(Quoted(value, plain))
  {
    var body := Escape(value, plain);
    ScanEscape(value, plain);
    ScanClosing();
    ScanAppend(IN_QUOTES, body, ['"']);
    ScanCons(OUTSIDE, '"', body + ['"']);
    ScanCons(OUTSIDE, ' ', ['"'] + (body + ['"']));
    assert Advance(OUTSIDE, '"') == IN_QUOTES && Advance(OUTSIDE, ' ') == OUTSIDE;
    ConcatAssociates(['"'], body, ['"']);
    assert Quoted(value, plain) == [' '] + (['"'] + (body + ['"']));
  }

  lemma ScanClosing()
    ensures Scan(IN_QUOTES, ['"']) == OUTSIDE && Whole(IN_QUOTES, ['"'])
  {
    assert ['"'][1..] == "";
  }

  lemma SplitPrinted(fields: seq<string>, plain: set<char>)
    requires fields != [] && PlainInert(plain) && forall i | 0 <= i < |fields| :: Latin(fields[i])
    ensures Split(Join(PrintRecord(fields, plain))) == PrintRecord(fields, plain)
    ensures ParseFields(PrintRecord(fields, plain)) == fields
  {
    var args := PrintRecord(fields, plain);
    forall i | 0 <= i < |args|
      ensures Whole(OUTSIDE, args[i]) && Balanced(args[i]) && ParseString(args[i]) == fields[i] {
      ScanQuoted(fields[i], plain);
      ParseQuoted(fields[i], plain);
    }
    SplitInverse("", args);
  }

  lemma {:induction false} JoinLacks(parts: seq<string>, c: char)
    requires parts != [] && c != ',' && forall i | 0 <= i < |parts| :: c !in parts[i]
    ensures c !in Join(parts)
  {
    if |parts| <= 1 {
    } else {
      JoinLacks(parts[1..], c);
    }
  }

  lemma PrintedHasNoParenthesis(fields: seq<string>, plain: set<char>)
    requires fields != [] && PlainInert(plain) && forall i | 0 <= i < |fields| :: Latin(fields[i])
    ensures ')' !in Join(PrintRecord(fields, plain))
  {
    forall i | 0 <= i < |fields| ensures ')' !in PrintRecord(fields, plain)[i] {
      EscapeInert(fields[i], plain);
    }
    JoinLacks(PrintRecord(fields, plain), ')');
  }

  predicate Printable(records: seq<seq<string>>) {
    forall k | 0 <= k < |records| :: records[k] != [] && forall i | 0 <= i < |records[k]| :: Latin(records[k][i])
  }

  function PrintBodies(records: seq<seq<string>>, plain: set<char>): seq<string>
    requires Printable(records)
  {
    seq(|records|, k requires 0 <= k < |records| => Join(PrintRecord(records[k], plain)))
  }

  function ReadRecords(name: string, doc: string): seq<seq<string>>
    requires name != []
  {
    var calls := FindCalls(name, doc);
    seq(|calls|, k requires 0 <= k < |calls| => ParseFields(Split(calls[k])))
  }

  /**
   Record round trip: extracting the calls of a printed page, splitting their
   arguments and decoding them gives back every field of every record.
   */
  lemma RecordsRoundTrip(name: string, records: seq<seq<string>>, plain: set<char>)
    requires Findable(name) && PlainInert(plain) && Printable(records)
    ensures FindCalls(name, PrintCalls(name, PrintBodies(records, plain))) == PrintBodies(records, plain)
    ensures ReadRecords(name, PrintCalls(name, PrintBodies(records, plain))) == records
  {
    var bodies := PrintBodies(records, plain);
    forall k | 0 <= k < |records| ensures ')' !in bodies[k] && ParseFields(Split(bodies[k])) == records[k] {
      PrintedHasNoParenthesis(records[k], plain);
      SplitPrinted(records[k], plain);
    }
    FindPrinted(name, bodies);
  }

  lemma {:induction false} EscapeLacks(value: string, plain: set<char>, c: char)
    requires Latin(value) && HexValue(c).None? && c !in plain && c != '\\' && c != 'x'
    ensures c !in Escape(value, plain)
  {
    if value == [] {
    } else {
      EscapeLacks(value[1..], plain, c);
      HexDigitValue(value[0] as int / 16);
      HexDigitValue(value[0] as int % 16);
      assert c !in PrintChar(value[0], plain);
    }
  }

  lemma BodyLacks(fields: seq<string>, plain: set<char>, c: char)
    requires fields != [] && (forall i | 0 <= i < |fields| :: Latin(fields[i]))
    requires HexValue(c).None? && c !in plain && c !in {'\\', 'x', ' ', '"', ','}
    ensures c !in Join(PrintRecord(fields, plain))
  {
    forall i | 0 <= i < |fields| ensures c !in PrintRecord(fields, plain)[i] {
      EscapeLacks(fields[i], plain, c);
    }
    JoinLacks(PrintRecord(fields, plain), c);
  }

  lemma {:induction false} PageLacks(name: string, bodies: seq<string>, c: char)
    requires c !in name && c !in {'n', 'e', 'w', ' ', '(', ')', ','} && forall k | 0 <= k < |bodies| :: c !in bodies[k]
    ensures c !in PrintCalls(name, bodies)
  {
    if bodies == [] {
    } else {
      PageLacks(name, bodies[1..], c);
    }
  }
}
