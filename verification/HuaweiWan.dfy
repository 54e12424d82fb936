/** WAN totals off the router's statistics pages (`parseHuaweiWANStats`, api/internal/router/huawei_adapter.go). */
module HuaweiWan {
  import opened Prelude
  import opened Counters
  import opened JavaScript
  import opened HuaweiText
  import opened HuaweiCalls

  predicate IsDigit(c: char) {
    '0' <= c <= '9'
  }

  function Digits(s: string): nat
    requires forall i | 0 <= i < |s| :: IsDigit(s[i])
  {
    if s == [] then 0
    else
      var last := s[|s| - 1];
      assert IsDigit(last);
      10 * Digits(s[..|s| - 1]) + (last as int - '0' as int)
  }

  /** `parseHuaweiCounter`: `strconv.ParseUint` in base 10 with 64 bits, after trimming. */
  function ParseCounter(value: string): Option<uint64> {
    var s := TrimQuotes(TrimSpace(value));
    if s != [] && (forall i | 0 <= i < |s| :: IsDigit(s[i])) && Digits(s) <= MAX_UINT64 then Some(Digits(s)) else None
  }

  datatype Pair = Pair(received: uint64, sent: uint64)

  /** One record, when it has enough arguments and both counters are numbers. */
  function ReadPair(call: string, receivedIndex: nat, sentIndex: nat): Option<Pair> {
    var args := Split(call);
    if |args| <= receivedIndex || |args| <= sentIndex then None
    else
      var received, sent := ParseCounter(args[receivedIndex]), ParseCounter(args[sentIndex]);
      if received.None? || sent.None? then None else Some(Pair(received.value, sent.value))
  }

  /** The valid records of one kind. */
  function Pairs(calls: seq<string>, receivedIndex: nat, sentIndex: nat): seq<Pair> {
    if calls == [] then []
    else
      var last := ReadPair(calls[|calls| - 1], receivedIndex, sentIndex);
      Pairs(calls[..|calls| - 1], receivedIndex, sentIndex) + if last.Some? then [last.value] else []
  }

  const ETH := "WanEthStats"
  const INFO := "WaninfoStats"

  function AllPairs(document: string): seq<Pair> {
    Pairs(FindCalls(ETH, document), 1, 3) + Pairs(FindCalls(INFO, document), 2, 1)
  }

  function Received(pairs: seq<Pair>): nat {
    if pairs == [] then 0 else Received(pairs[..|pairs| - 1]) + pairs[|pairs| - 1].received
  }

  function Sent(pairs: seq<Pair>): nat {
    if pairs == [] then 0 else Sent(pairs[..|pairs| - 1]) + pairs[|pairs| - 1].sent
  }

  predicate Fits(pairs: seq<Pair>) {
    Received(pairs) <= MAX_UINT64 && Sent(pairs) <= MAX_UINT64
  }

  lemma {:induction false} SumsAppend(a: seq<Pair>, b: seq<Pair>)
    ensures Received(a + b) == Received(a) + Received(b) && Sent(a + b) == Sent(a) + Sent(b)
  {
    if b == [] {
      assert a + b == a;
    } else {
      assert (a + b)[..|a + b| - 1] == a + b[..|b| - 1];
      SumsAppend(a, b[..|b| - 1]);
    }
  }

  /** The totals do not depend on the order of the records. */
  lemma {:induction false} SumsOfPermutation(a: seq<Pair>, b: seq<Pair>)
    requires multiset(a) == multiset(b)
    ensures Received(a) == Received(b) && Sent(a) == Sent(b) && |a| == |b| && (Fits(a) <==> Fits(b))
  {
    assert |multiset(a)| == |a| && |multiset(b)| == |b|;
    if a == [] {
    } else {
      var x := a[|a| - 1];
      assert x in multiset(b);
      var i :| 0 <= i < |b| && b[i] == x;
      assert a == a[..|a| - 1] + [x];
      SumsWithout(b, i);
      SumsOfPermutation(a[..|a| - 1], b[..i] + b[i + 1..]);
    }
  }

  lemma SumsWithout(b: seq<Pair>, i: nat)
    requires i < |b|
    ensures var rest := b[..i] + b[i + 1..];
            && multiset(rest) == multiset(b) - multiset{b[i]}
            && Received(b) == Received(rest) + b[i].received && Sent(b) == Sent(rest) + b[i].sent
  {
    assert b == b[..i] + ([b[i]] + b[i + 1..]);
    SumsAppend(b[..i], b[i + 1..]);
    SumsAppend(b[..i], [b[i]] + b[i + 1..]);
    SumsAppend([b[i]], b[i + 1..]);
    assert [b[i]][..0] == [];
  }

  lemma {:induction false} PairsAppend(a: seq<string>, b: seq<string>, receivedIndex: nat, sentIndex: nat)
    ensures Pairs(a + b, receivedIndex, sentIndex)
            == Pairs(a, receivedIndex, sentIndex) + Pairs(b, receivedIndex, sentIndex)
  {
    if b == [] {
      assert a + b == a;
    } else {
      assert (a + b)[..|a + b| - 1] == a + b[..|b| - 1];
      PairsAppend(a, b[..|b| - 1], receivedIndex, sentIndex);
    }
  }

  lemma PairsWithout(b: seq<string>, i: nat, receivedIndex: nat, sentIndex: nat)
    requires i < |b|
    ensures var rest := b[..i] + b[i + 1..];
            && multiset(rest) == multiset(b) - multiset{b[i]}
            && multiset(Pairs(b, receivedIndex, sentIndex))
               == multiset(Pairs(rest, receivedIndex, sentIndex)) + multiset(Pairs([b[i]], receivedIndex, sentIndex))
  {
    assert b == b[..i] + ([b[i]] + b[i + 1..]);
    PairsAppend(b[..i], b[i + 1..], receivedIndex, sentIndex);
    PairsAppend(b[..i], [b[i]] + b[i + 1..], receivedIndex, sentIndex);
    PairsAppend([b[i]], b[i + 1..], receivedIndex, sentIndex);
  }

  lemma {:induction false} PairsOfPermutation(a: seq<string>, b: seq<string>, receivedIndex: nat, sentIndex: nat)
    requires multiset(a) == multiset(b)
    ensures multiset(Pairs(a, receivedIndex, sentIndex)) == multiset(Pairs(b, receivedIndex, sentIndex))
  {
    assert |multiset(a)| == |a| && |multiset(b)| == |b|;
    if a == [] {
    } else {
      var x := a[|a| - 1];
      assert x in multiset(b);
      var i :| 0 <= i < |b| && b[i] == x;
      assert a == a[..|a| - 1] + [x];
      PairsWithout(b, i, receivedIndex, sentIndex);
      PairsOfPermutation(a[..|a| - 1], b[..i] + b[i + 1..], receivedIndex, sentIndex);
      PairsAppend(a[..|a| - 1], [x], receivedIndex, sentIndex);
    }
  }

  predicate SameCalls(a: string, b: string, name: string)
    requires name != []
  {
    multiset(FindCalls(name, a)) == multiset(FindCalls(name, b))
  }

  lemma NoCallsEither(a: string, b: string, name: string)
    requires name != [] && SameCalls(a, b, name)
    ensures FindCalls(name, a) == [] <==> FindCalls(name, b) == []
  {
    assert |multiset(FindCalls(name, a))| == |FindCalls(name, a)|
           && |multiset(FindCalls(name, b))| == |FindCalls(name, b)|;
  }

  /** Two pages with the same calls in any order agree in all that `ParseHuaweiWANStats` depends on. */
  lemma OrderDoesNotMatter(a: string, b: string)
    requires SameCalls(a, b, ETH) && SameCalls(a, b, INFO)
    ensures var p, q := AllPairs(a), AllPairs(b);
            (p == [] <==> q == []) && (Fits(p) <==> Fits(q)) && Received(p) == Received(q) && Sent(p) == Sent(q)
    ensures FindCalls(ETH, a) == [] && FindCalls(INFO, a) == [] <==> FindCalls(ETH, b) == [] && FindCalls(INFO, b) == []
  {
    PairsOfPermutation(FindCalls(ETH, a), FindCalls(ETH, b), 1, 3);
    PairsOfPermutation(FindCalls(INFO, a), FindCalls(INFO, b), 2, 1);
    SumsOfPermutation(AllPairs(a), AllPairs(b));
    NoCallsEither(a, b, ETH);
    NoCallsEither(a, b, INFO);
  }

  datatype StatsError = NotFound | Overflowed | Invalid

  datatype CounterRecords = CounterRecords(calls: seq<string>, receivedIndex: nat, sentIndex: nat)

  /** Adding one more record either stays in range or shows that the whole total does not. */
  lemma OneMoreRecord(done: seq<Pair>, p: Pair, more: seq<Pair>)
    ensures Received(done + [p]) == Received(done) + p.received && Sent(done + [p]) == Sent(done) + p.sent
    ensures !Fits(done + [p]) ==> !Fits(done + [p] + more)
  {
    SumsAppend(done, [p]);
    assert [p][..0] == [];
    SumsAppend(done + [p], more);
  }

  lemma {:induction false} PairsSplit(calls: seq<string>, k: nat, receivedIndex: nat, sentIndex: nat)
      returns (more: seq<Pair>)
    requires k <= |calls|
    ensures Pairs(calls, receivedIndex, sentIndex) == Pairs(calls[..k], receivedIndex, sentIndex) + more
    decreases |calls| - k
  {
    if k == |calls| {
      assert calls[..k] == calls;
      more := [];
    } else {
      var n := |calls| - 1;
      var front := calls[..n];
      var rest := PairsSplit(front, k, receivedIndex, sentIndex);
      assert front[..k] == calls[..k];
      var last := ReadPair(calls[n], receivedIndex, sentIndex);
      more := rest + if last.Some? then [last.value] else [];
    }
  }

  lemma NextRecord(records: CounterRecords, k: nat, before: seq<Pair>) returns (more: seq<Pair>)
    requires k < |records.calls|
    ensures var pair := ReadPair(records.calls[k], records.receivedIndex, records.sentIndex);
            var done := before + Pairs(records.calls[..k], records.receivedIndex, records.sentIndex);
            var next := if pair.Some? then done + [pair.value] else done;
            && before + Pairs(records.calls[..k + 1], records.receivedIndex, records.sentIndex) == next
            && before + Pairs(records.calls, records.receivedIndex, records.sentIndex) == next + more
  {
    assert records.calls[..k + 1][..k] == records.calls[..k];
    more := PairsSplit(records.calls, k + 1, records.receivedIndex, records.sentIndex);
  }

  /** The loop over the records of one kind, starting from the totals of `before`. */
  method AddRecords(records: CounterRecords, ghost before: seq<Pair>, start: Pair, parsed: nat)
    returns (total: Option<Pair>, count: nat)
    requires start.received == Received(before) && start.sent == Sent(before)
    ensures var all := before + Pairs(records.calls, records.receivedIndex, records.sentIndex);
            && (total.Some? <==> Fits(all))
            && (total.Some? ==> total.value.received == Received(all) && total.value.sent == Sent(all)
                                && count == parsed + |all| - |before|)
  {
    var download, upload := start.received, start.sent;
    count := parsed;
    ghost var done := before;
    for k := 0 to |records.calls|
      invariant done == before + Pairs(records.calls[..k], records.receivedIndex, records.sentIndex)
      invariant Fits(done) && download == Received(done) && upload == Sent(done) && count == parsed + |done| - |before|
    {
      var pair := ReadPair(records.calls[k], records.receivedIndex, records.sentIndex);
      ghost var more := NextRecord(records, k, before);
      if pair.None? {
        continue;
      }
      OneMoreRecord(done, pair.value, more);
      done := done + [pair.value];
      if MAX_UINT64 - download < pair.value.received || MAX_UINT64 - upload < pair.value.sent {
        return None, count;
      }
      download := download + pair.value.received;
      upload := upload + pair.value.sent;
      count := count + 1;
    }
    assert records.calls[..|records.calls|] == records.calls;
    total := Some(Pair(download, upload));
  }

  /**
   Exact overflow: success means at least one valid record and both mathematical
   totals within 64 bits, and then those totals are returned.
   */
  method ParseHuaweiWANStats(document: string) returns (r: Result<Pair, StatsError>)
    ensures var pairs := AllPairs(document);
            && (r.Ok? <==> pairs != [] && Fits(pairs))
            && (r.Ok? ==> r.value.received == Received(pairs) && r.value.sent == Sent(pairs))
            && (r == Err(NotFound) <==> FindCalls(ETH, document) == [] && FindCalls(INFO, document) == [])
            && (r == Err(Overflowed) <==> !Fits(pairs))
  {
    var eth := CounterRecords(FindCalls(ETH, document), 1, 3);
    var info := CounterRecords(FindCalls(INFO, document), 2, 1);
    if eth.calls == [] && info.calls == [] {
      return Err(NotFound);
    }
    ghost var ethPairs := Pairs(eth.calls, 1, 3);
    assert [] + ethPairs == ethPairs;
    SumsAppend(ethPairs, Pairs(info.calls, 2, 1));
    var total, parsed := AddRecords(eth, [], Pair(0, 0), 0);
    if total.None? {
      return Err(Overflowed);
    }
    total, parsed := AddRecords(info, ethPairs, total.value, parsed);
    if total.None? {
      return Err(Overflowed);
    }
    if parsed == 0 {
      return Err(Invalid);
    }
    r := Ok(total.value);
  }

  function Decimal(n: nat): string {
    if n < 10 then [('0' as int + n) as char] else Decimal(n / 10) + [('0' as int + n % 10) as char]
  }

  const DIGITS: set<char> := {'0', '1', '2', '3', '4', '5', '6', '7', '8', '9'}

  lemma {:induction false} DecimalDigits(n: nat)
    ensures Decimal(n) != [] && (forall i | 0 <= i < |Decimal(n)| :: IsDigit(Decimal(n)[i]) && Decimal(n)[i] in DIGITS)
    ensures Digits(Decimal(n)) == n
  {
    if n >= 10 {
      DecimalDigits(n / 10);
      assert Decimal(n)[..|Decimal(n)| - 1] == Decimal(n / 10);
    } else {
      assert Decimal(n)[..0] == [];
    }
  }

  lemma {:induction false} EscapePlain(s: string, plain: set<char>)
    requires Latin(s) && forall i | 0 <= i < |s| :: s[i] in plain
    ensures Escape(s, plain) == s
  {
    if s == [] {
    } else {
      EscapePlain(s[1..], plain);
      assert s == [s[0]] + s[1..];
    }
  }

  /** A printed counter is read back, and is refused exactly when it needs more than 64 bits. */
  lemma CounterRoundTrip(n: nat)
    ensures Latin(Decimal(n))
    ensures ParseCounter(Quoted(Decimal(n), DIGITS)) == if n <= MAX_UINT64 then Some(n) else None
  {
    var s := Decimal(n);
    DecimalDigits(n);
    EscapePlain(s, DIGITS);
    var inner := ['"'] + s + ['"'];
    assert Quoted(s, DIGITS)[1..] == inner;
    TrimSpaceNothing(inner);
    TrimQuotesAround('"', s);
  }

  /**
   The two kinds of records as the router prints them, with their columns in the order
   its pages document; only the byte counters are read.
   */
  datatype WanRecord =
    | WanEthStats(domain: string, bytesReceived: uint64, packetsReceived: string, bytesSent: uint64,
      packetsSent: string)
    | WaninfoStats(domain: string, bytesSent: uint64, bytesReceived: uint64, others: seq<string>)
  {
    function Columns(): seq<string> {
      match this
      case WanEthStats(domain, received, packetsReceived, sent, packetsSent) =>
        [domain, Decimal(received), packetsReceived, Decimal(sent), packetsSent]
      case WaninfoStats(domain, sent, received, others) =>
        [domain, Decimal(sent), Decimal(received)] + others
    }

    function Counters(): Pair {
      Pair(bytesReceived, bytesSent)
    }

    predicate Printable() {
      forall i | 0 <= i < |Columns()| :: Latin(Columns()[i])
    }
  }

  function Body(r: WanRecord): string
    requires r.Printable()
  {
    Join(PrintRecord(r.Columns(), DIGITS))
  }

  predicate AllPrintable(records: seq<WanRecord>) {
    forall k | 0 <= k < |records| :: records[k].Printable()
  }

  function Prints(records: seq<WanRecord>): seq<Printed>
    requires AllPrintable(records)
  {
    seq(|records|, k requires 0 <= k < |records| => Printed(records[k].WanEthStats?, Body(records[k])))
  }

  /** A page with records of both kinds in any order. */
  function WanPage(records: seq<WanRecord>): string
    requires AllPrintable(records)
  {
    MixedPage("WanEthStats", "WaninfoStats", Prints(records))
  }

  /** The records of one kind, in order. */
  function OfKind(records: seq<WanRecord>, eth: bool): seq<WanRecord> {
    if records == [] then []
    else if records[0].WanEthStats? == eth then [records[0]] + OfKind(records[1..], eth)
    else OfKind(records[1..], eth)
  }

  function Bodies(records: seq<WanRecord>): (bodies: seq<string>)
    requires AllPrintable(records)
    ensures |bodies| == |records| && forall k | 0 <= k < |records| :: bodies[k] == Body(records[k])
  {
    if records == [] then [] else [Body(records[0])] + Bodies(records[1..])
  }

  function CountersOf(records: seq<WanRecord>): seq<Pair> {
    seq(|records|, k requires 0 <= k < |records| => records[k].Counters())
  }

  lemma RecordRead(r: WanRecord)
    requires r.Printable()
    ensures ReadPair(Body(r), if r.WanEthStats? then 1 else 2, if r.WanEthStats? then 3 else 1)
            == Some(Pair(r.bytesReceived, r.bytesSent))
  {
    ColumnsRead(r.Columns(), if r.WanEthStats? then 1 else 2, if r.WanEthStats? then 3 else 1, r.bytesReceived,
      r.bytesSent);
  }

  lemma ColumnsRead(columns: seq<string>, receivedIndex: nat, sentIndex: nat, received: uint64, sent: uint64)
    requires receivedIndex < |columns| && sentIndex < |columns| && forall i | 0 <= i < |columns| :: Latin(columns[i])
    requires columns[receivedIndex] == Decimal(received) && columns[sentIndex] == Decimal(sent)
    ensures ReadPair(Join(PrintRecord(columns, DIGITS)), receivedIndex, sentIndex) == Some(Pair(received, sent))
  {
    SplitPrinted(columns, DIGITS);
    CounterRoundTrip(received);
    CounterRoundTrip(sent);
    var args := PrintRecord(columns, DIGITS);
    assert args[receivedIndex] == Quoted(Decimal(received), DIGITS) && args[sentIndex] == Quoted(Decimal(sent), DIGITS);
  }

  predicate ReadAs(calls: seq<string>, pairs: seq<Pair>, receivedIndex: nat, sentIndex: nat) {
    |calls| == |pairs| && forall k | 0 <= k < |calls| :: ReadPair(calls[k], receivedIndex, sentIndex) == Some(pairs[k])
  }

  lemma ReadAsFront(calls: seq<string>, pairs: seq<Pair>, receivedIndex: nat, sentIndex: nat)
    requires calls != [] && ReadAs(calls, pairs, receivedIndex, sentIndex)
    ensures var n := |calls| - 1;
            ReadAs(calls[..n], pairs[..n], receivedIndex, sentIndex)
            && ReadPair(calls[n], receivedIndex, sentIndex) == Some(pairs[n])
    ensures calls == calls[..|calls| - 1] + [calls[|calls| - 1]] && pairs == pairs[..|calls| - 1] + [pairs[|calls| - 1]]
  {}

  lemma {:induction false} AllRead(calls: seq<string>, pairs: seq<Pair>, receivedIndex: nat, sentIndex: nat)
    requires ReadAs(calls, pairs, receivedIndex, sentIndex)
    ensures Pairs(calls, receivedIndex, sentIndex) == pairs
  {
    if calls == [] {
    } else {
      var n := |calls| - 1;
      ReadAsFront(calls, pairs, receivedIndex, sentIndex);
      AllRead(calls[..n], pairs[..n], receivedIndex, sentIndex);
      PairsSnoc(calls[..n], calls[n], pairs[n], receivedIndex, sentIndex);
    }
  }

  lemma PairsSnoc(calls: seq<string>, call: string, pair: Pair, receivedIndex: nat, sentIndex: nat)
    requires ReadPair(call, receivedIndex, sentIndex) == Some(pair)
    ensures Pairs(calls + [call], receivedIndex, sentIndex) == Pairs(calls, receivedIndex, sentIndex) + [pair]
  {
    assert (calls + [call])[..|calls|] == calls;
  }

  lemma Telltales()
    ensures 'h' in ETH && 'h' !in INFO && ',' !in ETH
    ensures 'i' in INFO && 'i' !in ETH && ',' !in INFO
  {
    assert ETH[5] == 'h' && INFO[3] == 'i';
  }

  /** `h` occurs in no printed `WaninfoStats` call and `i` in no printed `WanEthStats` call. */
  lemma KindsApart(records: seq<WanRecord>, eth: bool)
    requires AllPrintable(records)
    ensures Telltale(NameOf(ETH, INFO, eth), NameOf(ETH, INFO, !eth), if eth then 'h' else 'i', Prints(records), eth)
  {
    Telltales();
    forall k | 0 <= k < |records| ensures PlainBody(Prints(records)[k].body) {
      BodyIsPlain(records[k]);
    }
  }

  predicate PlainBody(body: string) {
    ')' !in body && 'h' !in body && 'i' !in body
  }

  lemma DigitsOnly()
    ensures 'h' !in DIGITS && 'i' !in DIGITS && PlainInert(DIGITS)
  {}

  lemma BodyIsPlain(r: WanRecord)
    requires r.Printable()
    ensures PlainBody(Body(r))
  {
    DigitsOnly();
    BodyLacks(r.Columns(), DIGITS, 'h');
    BodyLacks(r.Columns(), DIGITS, 'i');
    PrintedHasNoParenthesis(r.Columns(), DIGITS);
  }

  lemma BodiesCons(r: WanRecord, rest: seq<WanRecord>)
    requires r.Printable() && AllPrintable(rest)
    ensures AllPrintable([r] + rest) && Bodies([r] + rest) == [Body(r)] + Bodies(rest)
  {
    assert ([r] + rest)[1..] == rest;
  }

  lemma CountersCons(r: WanRecord, rest: seq<WanRecord>)
    ensures CountersOf([r] + rest) == [r.Counters()] + CountersOf(rest)
  {}

  lemma FirstBody(r: WanRecord, calls: seq<Printed>, rest: seq<Printed>, first: bool)
    requires r.Printable() && calls != [] && calls[0] == Printed(r.WanEthStats?, Body(r)) && calls[1..] == rest
    ensures BodiesOf(calls, first) == if r.WanEthStats? == first then [Body(r)] + BodiesOf(rest, first)
            else BodiesOf(rest, first)
  {
    assert [] + BodiesOf(rest, first) == BodiesOf(rest, first);
  }

  lemma FirstOfKind(records: seq<WanRecord>, eth: bool)
    requires records != [] && records[0].Printable() && AllPrintable(OfKind(records[1..], eth))
    ensures AllPrintable(OfKind(records, eth))
    ensures Bodies(OfKind(records, eth))
            == (if records[0].WanEthStats? == eth then [Body(records[0])] else []) + Bodies(OfKind(records[1..], eth))
  {
    if records[0].WanEthStats? == eth {
      BodiesCons(records[0], OfKind(records[1..], eth));
    }
  }

  lemma {:induction false} BodiesOfKind(records: seq<WanRecord>, eth: bool)
    requires AllPrintable(records)
    ensures AllPrintable(OfKind(records, eth))
    ensures BodiesOf(Prints(records), eth) == Bodies(OfKind(records, eth))
  {
    if records == [] {
    } else {
      var r, rest := records[0], records[1..];
      BodiesOfKind(rest, eth);
      assert Prints(records)[1..] == Prints(rest);
      FirstBody(r, Prints(records), Prints(rest), eth);
      FirstOfKind(records, eth);
    }
  }

  lemma KindFound(records: seq<WanRecord>, eth: bool)
    requires AllPrintable(records)
    ensures AllPrintable(OfKind(records, eth))
    ensures FindCalls(NameOf(ETH, INFO, eth), WanPage(records)) == Bodies(OfKind(records, eth))
  {
    BodiesOfKind(records, eth);
    KindsApart(records, eth);
    FoundAmong(ETH, INFO, eth, if eth then 'h' else 'i', Prints(records));
  }

  lemma {:induction false} KindIs(records: seq<WanRecord>, eth: bool)
    ensures forall k | 0 <= k < |OfKind(records, eth)| :: OfKind(records, eth)[k].WanEthStats? == eth
  {
    if records == [] {
    } else {
      KindIs(records[1..], eth);
    }
  }

  lemma {:induction false} KindsPartition(records: seq<WanRecord>)
    ensures multiset(CountersOf(OfKind(records, true)) + CountersOf(OfKind(records, false)))
            == multiset(CountersOf(records))
  {
    if records == [] {
    } else {
      var r, rest := records[0], records[1..];
      KindsPartition(rest);
      assert records == [r] + rest;
      CountersCons(r, rest);
      CountersCons(r, OfKind(rest, r.WanEthStats?));
    }
  }

  lemma KindRead(records: seq<WanRecord>, eth: bool)
    requires AllPrintable(records)
    ensures var of := OfKind(records, eth);
            AllPrintable(of) && Pairs(Bodies(of), if eth then 1 else 2, if eth then 3 else 1) == CountersOf(of)
  {
    var of := OfKind(records, eth);
    KindFound(records, eth);
    KindIs(records, eth);
    forall k | 0 <= k < |of|
      ensures ReadPair(Bodies(of)[k], if eth then 1 else 2, if eth then 3 else 1) == Some(CountersOf(of)[k]) {
      RecordRead(of[k]);
    }
    AllRead(Bodies(of), CountersOf(of), if eth then 1 else 2, if eth then 3 else 1);
  }

  /**
   Page round trip: from a page that mixes both kinds in any order, exactly the received
   and sent bytes of every record are read back, those of `WanEthStats` records first.
   */
  lemma WanPageRead(records: seq<WanRecord>)
    requires AllPrintable(records)
    ensures AllPairs(WanPage(records)) == CountersOf(OfKind(records, true)) + CountersOf(OfKind(records, false))
  {
    KindFound(records, true);
    KindFound(records, false);
    KindRead(records, true);
    KindRead(records, false);
  }

  /** A record with too few columns, or with anything but digits in a counter, is passed over. */
  lemma BadRecordSkipped(call: string, receivedIndex: nat, sentIndex: nat)
    ensures ReadPair(call, receivedIndex, sentIndex).Some? ==>
              |Split(call)| > receivedIndex && |Split(call)| > sentIndex
              && IsNumber(Split(call)[receivedIndex]) && IsNumber(Split(call)[sentIndex])
  {}

  predicate IsNumber(value: string) {
    var digits := TrimQuotes(TrimSpace(value));
    digits != [] && forall i | 0 <= i < |digits| :: '0' <= digits[i] <= '9'
  }
}
