/**
 The argument splitter for calls on the router's pages (`splitJavaScriptArgs`,
 api/internal/router/huawei_adapter.go).
 */
module JavaScript {
  import opened Prelude

  /** Lexer state: the open quote, if any, and whether the next character is escaped. */
  datatype Lex = Lex(quote: Option<char>, escaped: bool)

  const OUTSIDE := Lex(None, false)

  function Advance(state: Lex, c: char): Lex {
    if state.escaped then state.(escaped := false)
    else if c == '\\' && state.quote.Some? then state.(escaped := true)
    else if c == '\'' || c == '"' then
      if state.quote.None? then Lex(Some(c), false)
      else if state.quote == Some(c) then OUTSIDE
      else state
    else state
  }

  /** A comma that separates arguments. */
  predicate Cuts(state: Lex, c: char) {
    c == ',' && state == OUTSIDE
  }

  function Prefix(p: string, parts: seq<string>): (r: seq<string>)
    requires parts != []
    ensures |r| == |parts| && r[0] == p + parts[0]
  {
    [p + parts[0]] + parts[1..]
  }

  function SplitFrom(state: Lex, input: string): (parts: seq<string>)
    ensures parts != []
    decreases |input|
  {
    if input == [] then [""]
    else if Cuts(state, input[0]) then [""] + SplitFrom(state, input[1..])
    else Prefix([input[0]], SplitFrom(Advance(state, input[0]), input[1..]))
  }

  function Split(input: string): seq<string> {
    SplitFrom(OUTSIDE, input)
  }

  /** The state after a text. */
  function Scan(state: Lex, text: string): Lex
    decreases |text|
  {
    if text == [] then state else Scan(Advance(state, text[0]), text[1..])
  }

  /** No comma of the text separates arguments. */
  predicate Whole(state: Lex, text: string)
    decreases |text|
  {
    text == [] || (!Cuts(state, text[0]) && Whole(Advance(state, text[0]), text[1..]))
  }

  predicate Balanced(text: string) {
    Scan(OUTSIDE, text) == OUTSIDE
  }

  /** Pieces that can be told apart once joined: no top-level comma, and all but the last with closed quotes. */
  predicate Separable(parts: seq<string>) {
    forall i | 0 <= i < |parts| :: Whole(OUTSIDE, parts[i]) && (i < |parts| - 1 ==> Balanced(parts[i]))
  }

  function Join(parts: seq<string>): string
    requires parts != []
  {
    if |parts| == 1 then parts[0] else parts[0] + "," + Join(parts[1..])
  }

  lemma JoinPrefix(p: string, parts: seq<string>)
    requires parts != []
    ensures Join(Prefix(p, parts)) == p + Join(parts)
  {
    if |parts| > 1 {
      assert Prefix(p, parts)[1..] == parts[1..];
      assert (p + parts[0]) + "," + Join(parts[1..]) == p + (parts[0] + "," + Join(parts[1..]));
    }
  }

  lemma JoinEmptyFirst(parts: seq<string>)
    requires parts != []
    ensures Join([""] + parts) == "," + Join(parts)
  {
    assert ([""] + parts)[1..] == parts;
    assert "" + "," == ",";
  }

  lemma {:induction false} JoinSplitFrom(state: Lex, input: string)
    ensures Join(SplitFrom(state, input)) == input
    decreases |input|
  {
    if input == [] {
    } else {
      assert input == [input[0]] + input[1..];
      if Cuts(state, input[0]) {
        JoinSplitFrom(state, input[1..]);
        JoinEmptyFirst(SplitFrom(state, input[1..]));
      } else {
        JoinSplitFrom(Advance(state, input[0]), input[1..]);
        JoinPrefix([input[0]], SplitFrom(Advance(state, input[0]), input[1..]));
      }
    }
  }

  lemma PrefixCons(c: char, p: string, parts: seq<string>)
    requires parts != []
    ensures Prefix([c], Prefix(p, parts)) == Prefix([c] + p, parts)
  {
    assert [c] + (p + parts[0]) == ([c] + p) + parts[0];
  }

  lemma PrefixNothing(parts: seq<string>)
    requires parts != []
    ensures Prefix("", parts) == parts
  {
    assert "" + parts[0] == parts[0];
  }

  /** Text without a top-level comma joins the first piece of what follows. */
  lemma {:induction false} SplitWhole(state: Lex, text: string, rest: string)
    requires Whole(state, text)
    ensures SplitFrom(state, text + rest) == Prefix(text, SplitFrom(Scan(state, text), rest))
    decreases |text|
  {
    if text == [] {
      assert text + rest == rest;
      PrefixNothing(SplitFrom(state, rest));
    } else {
      assert (text + rest)[1..] == text[1..] + rest;
      assert text == [text[0]] + text[1..];
      SplitWhole(Advance(state, text[0]), text[1..], rest);
      PrefixCons(text[0], text[1..], SplitFrom(Scan(state, text), rest));
    }
  }

  lemma {:induction false} SplitJoin(parts: seq<string>)
    requires parts != [] && Separable(parts)
    ensures Split(Join(parts)) == parts
  {
    if |parts| == 1 {
      SplitWhole(OUTSIDE, parts[0], "");
      assert parts[0] + "" == parts[0];
    } else {
      var tail := parts[1..];
      assert forall i | 0 <= i < |tail| :: tail[i] == parts[i + 1];
      SplitJoin(tail);
      var rest := "," + Join(tail);
      SplitWhole(OUTSIDE, parts[0], rest);
      assert Join(parts) == parts[0] + rest;
      assert rest[1..] == Join(tail);
      assert SplitFrom(OUTSIDE, rest) == [""] + tail;
      assert Prefix(parts[0], [""] + tail) == [parts[0] + ""] + tail;
      assert parts[0] + "" == parts[0] && [parts[0]] + tail == parts;
    }
  }

  predicate SeparableFrom(state: Lex, parts: seq<string>)
    requires parts != []
  {
    Whole(state, parts[0]) && (|parts| > 1 ==> Scan(state, parts[0]) == OUTSIDE) && Separable(parts[1..])
  }

  lemma SeparableCons(first: string, rest: seq<string>)
    requires rest != [] && Whole(OUTSIDE, first) && Balanced(first) && Separable(rest)
    ensures Separable([first] + rest)
  {
    var all := [first] + rest;
    forall i | 0 <= i < |all| ensures Whole(OUTSIDE, all[i]) && (i < |all| - 1 ==> Balanced(all[i])) {
      if i > 0 { assert all[i] == rest[i - 1]; }
    }
  }

  lemma SeparableFromOutside(parts: seq<string>)
    requires parts != [] && SeparableFrom(OUTSIDE, parts)
    ensures Separable(parts)
  {
    if |parts| > 1 {
      SeparableCons(parts[0], parts[1..]);
      assert [parts[0]] + parts[1..] == parts;
    }
  }

  lemma {:induction false} SplitPieces(state: Lex, input: string)
    ensures SeparableFrom(state, SplitFrom(state, input))
    decreases |input|
  {
    if input == [] {
    } else {
      if Cuts(state, input[0]) {
        SplitPieces(state, input[1..]);
        SeparableFromOutside(SplitFrom(state, input[1..]));
        assert ([""] + SplitFrom(state, input[1..]))[1..] == SplitFrom(state, input[1..]);
      } else {
        var after := Advance(state, input[0]);
        SplitPieces(after, input[1..]);
        var parts := SplitFrom(after, input[1..]);
        var grown := Prefix([input[0]], parts);
        assert grown[1..] == parts[1..];
        assert grown[0][0] == input[0] && grown[0][1..] == parts[0];
      }
    }
  }

  /**
   Splitting and joining are inverse: every text is the join of its pieces, and a
   list of pieces comes back from its join exactly when it is separable. So the
   pieces are the only separable list that joins to the text.
   */
  lemma SplitInverse(input: string, parts: seq<string>)
    requires parts != []
    ensures Join(Split(input)) == input && Separable(Split(input))
    ensures Split(Join(parts)) == parts <==> Separable(parts)
  {
    JoinSplitFrom(OUTSIDE, input);
    SplitPieces(OUTSIDE, input);
    SeparableFromOutside(Split(input));
    if Separable(parts) {
      SplitJoin(parts);
    } else {
      SplitPieces(OUTSIDE, Join(parts));
      SeparableFromOutside(Split(Join(parts)));
    }
  }

  lemma {:induction false} ScanAppend(state: Lex, a: string, b: string)
    ensures Scan(state, a + b) == Scan(Scan(state, a), b)
    ensures Whole(state, a) && Whole(Scan(state, a), b) ==> Whole(state, a + b)
    decreases |a|
  {
    if a == [] {
      assert a + b == b;
    } else {
      assert (a + b)[1..] == a[1..] + b;
      ScanAppend(Advance(state, a[0]), a[1..], b);
    }
  }

  lemma ScanCons(state: Lex, c: char, rest: string)
    requires !Cuts(state, c)
    ensures Scan(state, [c] + rest) == Scan(Advance(state, c), rest)
    ensures Whole(state, [c] + rest) == Whole(Advance(state, c), rest)
  {
    assert ([c] + rest)[1..] == rest;
  }

  /** An argument as a page may write it: a literal in either kind of quotes, or bare text. */
  datatype Argument = Literal(quote: char, text: string) | Bare(text: string)
  {
    predicate Fits() {
      match this
      case Literal(quote, text) => quote == '\'' || quote == '"'
      case Bare(text) => forall i | 0 <= i < |text| :: text[i] !in {'\'', '"', ','}
    }

    function Written(): string {
      match this
      case Literal(quote, text) => [quote] + (Quote(text, quote) + [quote])
      case Bare(text) => text
    }
  }

  /** Inside a literal, its own quote and the backslash are escaped; commas and the other quote stand as they are. */
  function Quote(text: string, quote: char): string {
    if text == [] then ""
    else (if text[0] == quote || text[0] == '\\' then ['\\', text[0]] else [text[0]]) + Quote(text[1..], quote)
  }

  lemma QuotedChar(c: char, quote: char, rest: string)
    requires quote == '\'' || quote == '"'
    ensures var inside, s := Lex(Some(quote), false), if c == quote || c == '\\' then ['\\', c] else [c];
            Scan(inside, s + rest) == Scan(inside, rest) && Whole(inside, s + rest) == Whole(inside, rest)
  {
    var inside := Lex(Some(quote), false);
    if c == quote || c == '\\' {
      assert ['\\', c] + rest == ['\\'] + ([c] + rest);
      ScanCons(inside, '\\', [c] + rest);
      ScanCons(Lex(Some(quote), true), c, rest);
    } else {
      ScanCons(inside, c, rest);
    }
  }

  lemma {:induction false} QuotedText(text: string, quote: char, rest: string)
    requires quote == '\'' || quote == '"'
    ensures var inside := Lex(Some(quote), false);
            Scan(inside, Quote(text, quote) + rest) == Scan(inside, rest)
            && Whole(inside, Quote(text, quote) + rest) == Whole(inside, rest)
  {
    if text == [] {
      assert "" + rest == rest;
    } else {
      QuotedText(text[1..], quote, rest);
      var s := if text[0] == quote || text[0] == '\\' then ['\\', text[0]] else [text[0]];
      assert Quote(text, quote) + rest == s + (Quote(text[1..], quote) + rest);
      QuotedChar(text[0], quote, Quote(text[1..], quote) + rest);
    }
  }

  lemma {:induction false} BareText(text: string)
    requires Bare(text).Fits()
    ensures Whole(OUTSIDE, text) && Balanced(text)
  {
    if text == [] {
    } else {
      BareText(text[1..]);
    }
  }

  lemma ArgumentIsOnePiece(a: Argument)
    requires a.Fits()
    ensures Whole(OUTSIDE, a.Written()) && Balanced(a.Written())
  {
    match a
    case Bare(text) => BareText(text);
    case Literal(quote, text) =>
      QuotedText(text, quote, [quote]);
      ScanCons(OUTSIDE, quote, Quote(text, quote) + [quote]);
      ScanCons(Lex(Some(quote), false), quote, "");
      assert [quote] + "" == [quote];
  }

  function WrittenAll(arguments: seq<Argument>): seq<string> {
    seq(|arguments|, i requires 0 <= i < |arguments| => arguments[i].Written())
  }

  /** Whatever texts are written as arguments, splitting their list gives each of them back. */
  lemma ArgumentsRoundTrip(arguments: seq<Argument>)
    requires arguments != [] && forall i | 0 <= i < |arguments| :: arguments[i].Fits()
    ensures Split(Join(WrittenAll(arguments))) == WrittenAll(arguments)
  {
    forall i | 0 <= i < |arguments|
      ensures Whole(OUTSIDE, WrittenAll(arguments)[i]) && Balanced(WrittenAll(arguments)[i]) {
      ArgumentIsOnePiece(arguments[i]);
    }
    SplitInverse("", WrittenAll(arguments));
  }

  /** A quote that is never closed takes all that follows into its argument. */
  lemma UnclosedTakesAll(quote: char, text: string)
    requires quote == '\'' || quote == '"'
    ensures Split([quote] + Quote(text, quote)) == [[quote] + Quote(text, quote)]
  {
    var piece := [quote] + Quote(text, quote);
    QuotedText(text, quote, "");
    assert Quote(text, quote) + "" == Quote(text, quote);
    ScanCons(OUTSIDE, quote, Quote(text, quote));
    SplitInverse("", [piece]);
  }

  /** The pieces cut so far, the piece being read, and the pieces still to come make up the split. */
  predicate Progress(input: string, args: seq<string>, start: int, index: int, state: Lex)
    requires 0 <= start <= index <= |input|
  {
    Split(input) == args + Prefix(input[start..index], SplitFrom(state, input[index..]))
  }

  lemma ReadOn(input: string, args: seq<string>, start: int, index: int, state: Lex)
    requires 0 <= start <= index < |input| && Progress(input, args, start, index, state) && !Cuts(state, input[index])
    ensures Progress(input, args, start, index + 1, Advance(state, input[index]))
  {
    var c, rest := input[index], input[index..];
    assert rest[0] == c && rest[1..] == input[index + 1..] && input[start..index + 1] == input[start..index] + [c];
    var parts := SplitFrom(Advance(state, c), rest[1..]);
    assert input[start..index] + ([c] + parts[0]) == (input[start..index] + [c]) + parts[0];
    assert Prefix(input[start..index], SplitFrom(state, rest)) == Prefix(input[start..index + 1], parts);
  }

  lemma CutHere(input: string, args: seq<string>, start: int, index: int)
    requires 0 <= start <= index < |input| && Progress(input, args, start, index, OUTSIDE) && input[index] == ','
    ensures Progress(input, args + [input[start..index]], index + 1, index + 1, OUTSIDE)
  {
    var piece, rest := input[start..index], input[index..];
    assert rest[0] == ',' && rest[1..] == input[index + 1..];
    var parts := SplitFrom(OUTSIDE, rest[1..]);
    PrefixNothing(parts);
    assert input[index + 1..index + 1] == "" && piece + "" == piece;
    assert Prefix(piece, [""] + parts) == [piece] + parts;
    assert args + ([piece] + parts) == (args + [piece]) + parts;
  }

  /** The loop over the input with `start`, `quote` and `escaped`. */
  method SplitJavaScriptArgs(input: string) returns (args: seq<string>)
    ensures args == Split(input)
  {
    args := [];
    var start := 0;
    var quote: Option<char> := None;
    var escaped := false;
    Beginning(input);
    for index := 0 to |input|
      invariant 0 <= start <= index
      invariant Progress(input, args, start, index, Lex(quote, escaped))
    {
      var c := input[index];
      if Cuts(Lex(quote, escaped), c) {
        CutHere(input, args, start, index);
      } else {
        ReadOn(input, args, start, index, Lex(quote, escaped));
      }
      if escaped {
        escaped := false;
        continue;
      }
      if c == '\\' && quote.Some? {
        escaped := true;
        continue;
      }
      if c == '\'' || c == '"' {
        if quote.None? {
          quote := Some(c);
        } else if quote == Some(c) {
          quote := None;
        }
        continue;
      }
      if c == ',' && quote.None? {
        args := args + [input[start..index]];
        start := index + 1;
      }
    }
    Ending(input, args, start, Lex(quote, escaped));
    args := args + [input[start..]];
  }

  lemma Beginning(input: string)
    ensures Progress(input, [], 0, 0, OUTSIDE)
  {
    assert input[0..] == input && input[0..0] == "";
    PrefixNothing(Split(input));
    assert [] + Split(input) == Split(input);
  }

  lemma Ending(input: string, args: seq<string>, start: int, state: Lex)
    requires 0 <= start <= |input| && Progress(input, args, start, |input|, state)
    ensures Split(input) == args + [input[start..]]
  {
    assert input[|input|..] == "" && input[start..|input|] == input[start..];
    assert input[start..] + "" == input[start..];
  }
}
