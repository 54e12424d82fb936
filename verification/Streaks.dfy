/** Maximal runs in a sequence of booleans: device sessions and failure streaks. */
module Streaks {

  /** `[i, j)` is all true and cannot be extended on either side. */
  predicate IsStreak(s: seq<bool>, i: int, j: int) {
    && 0 <= i < j <= |s|
    && (forall k | i <= k < j :: s[k])
    && (i == 0 || !s[i - 1])
    && (j == |s| || !s[j])
  }

  /** True now and not true before: `online and not lag(online)`. */
  predicate Rises(s: seq<bool>, i: int)
    requires 0 <= i < |s|
  {
    s[i] && (i == 0 || !s[i - 1])
  }

  function RisingEdges(s: seq<bool>): nat {
    if s == [] then 0 else RisingEdges(s[..|s| - 1]) + if Rises(s, |s| - 1) then 1 else 0
  }

  /** Length of the run at the end. */
  function Trailing(s: seq<bool>): (n: nat)
    ensures n <= |s|
  {
    if s == [] || !s[|s| - 1] then 0 else Trailing(s[..|s| - 1]) + 1
  }

  datatype Streak = Streak(from: int, to: int)

  /** The maximal runs in order. */
  function MaximalRuns(s: seq<bool>): seq<Streak> {
    if s == [] then []
    else
      var n := |s| - 1;
      var before := MaximalRuns(s[..n]);
      if !s[n] then before
      else if n > 0 && s[n - 1] && before != [] then before[..|before| - 1] + [before[|before| - 1].(to := n + 1)]
      else before + [Streak(n, n + 1)]
  }

  predicate Listed(s: seq<bool>, k: Streak) {
    IsStreak(s, k.from, k.to)
  }

  predicate Ordered(ks: seq<Streak>) {
    forall a, b | 0 <= a < b < |ks| :: ks[a].to < ks[b].from
  }

  ghost predicate Exact(s: seq<bool>, ks: seq<Streak>) {
    && (forall k: Streak :: k in ks <==> Listed(s, k))
    && Ordered(ks)
    && |ks| == RisingEdges(s)
    && (s != [] && s[|s| - 1] ==> ks != [] && ks[|ks| - 1].to == |s|)
  }

  lemma ListedSnoc(s: seq<bool>, x: bool, k: Streak)
    ensures var n := |s|;
            Listed(s + [x], k) <==>
            if k.to <= n then Listed(s, k) && !(k.to == n && x)
            else k.to == n + 1 && x && if n > 0 && s[n - 1] then Listed(s, Streak(k.from, n)) else k.from == n
  {
    var t, n := s + [x], |s|;
    assert t[n] == x && forall i | 0 <= i < |s| :: t[i] == s[i];
    if k.to <= n {
      if Listed(t, k) { assert forall i | k.from <= i < k.to :: s[i] == t[i]; }
      if Listed(s, k) { assert forall i | k.from <= i < k.to :: t[i] == s[i]; }
    } else if k.to == n + 1 && 0 <= k.from < n {
      if Listed(t, k) { assert t[n - 1] && forall i | k.from <= i < n :: s[i] == t[i]; }
      if Listed(s, Streak(k.from, n)) && x {
        assert s[n - 1];
        assert forall i | k.from <= i < k.to :: if i < n then t[i] == s[i] else t[i] == x;
      }
    }
  }

  lemma EdgesSnoc(s: seq<bool>, x: bool)
    ensures RisingEdges(s + [x]) == RisingEdges(s) + if x && (s == [] || !s[|s| - 1]) then 1 else 0
  {
    var t := s + [x];
    assert t[..|s|] == s && t[|s|] == x;
    assert s != [] ==> t[|s| - 1] == s[|s| - 1];
  }

  lemma QuietSnoc(s: seq<bool>, ks: seq<Streak>)
    requires Exact(s, ks)
    ensures Exact(s + [false], ks)
  {
    EdgesSnoc(s, false);
    forall k: Streak ensures k in ks <==> Listed(s + [false], k) {
      ListedSnoc(s, false, k);
    }
  }

  lemma OpenSnoc(s: seq<bool>, ks: seq<Streak>)
    requires Exact(s, ks) && (s == [] || !s[|s| - 1])
    ensures Exact(s + [true], ks + [Streak(|s|, |s| + 1)])
  {
    var next := Streak(|s|, |s| + 1);
    EdgesSnoc(s, true);
    forall k: Streak ensures k in ks + [next] <==> Listed(s + [true], k) {
      ListedSnoc(s, true, k);
    }
    forall a | 0 <= a < |ks| ensures ks[a].to < |s| {
      assert ks[a] in ks && Listed(s, ks[a]);
    }
  }

  lemma GrowSnoc(s: seq<bool>, ks: seq<Streak>)
    requires Exact(s, ks) && s != [] && s[|s| - 1]
    ensures ks != [] && Exact(s + [true], ks[..|ks| - 1] + [ks[|ks| - 1].(to := |s| + 1)])
  {
    var m := |ks| - 1;
    var last := ks[m];
    var grown := ks[..m] + [last.(to := |s| + 1)];
    EdgesSnoc(s, true);
    assert last in ks && Listed(s, last);
    forall k: Streak ensures k in grown <==> Listed(s + [true], k) {
      ListedSnoc(s, true, k);
      GrownHas(ks, |s|, k);
      if Listed(s, Streak(k.from, |s|)) {
        OnlyLastEnds(s, ks, Streak(k.from, |s|));
      }
    }
  }

  lemma OnlyLastEnds(s: seq<bool>, ks: seq<Streak>, k: Streak)
    requires Exact(s, ks) && s != [] && s[|s| - 1] && k.to == |s| && k in ks
    ensures k == ks[|ks| - 1]
  {
    var a :| 0 <= a < |ks| && ks[a] == k;
    var last := ks[|ks| - 1];
    assert last in ks && Listed(s, last);
  }

  lemma GrownHas(ks: seq<Streak>, n: int, k: Streak)
    requires ks != [] && Ordered(ks) && ks[|ks| - 1].to == n && ks[|ks| - 1].from < n
    ensures k in ks[..|ks| - 1] + [ks[|ks| - 1].(to := n + 1)]
            <==> (k in ks && k.to < n) || k == ks[|ks| - 1].(to := n + 1)
  {
    var m := |ks| - 1;
    if k in ks && k.to < n {
      var a :| 0 <= a < |ks| && ks[a] == k;
      assert ks[..m][a] == k;
    }
  }

  lemma {:induction false} StreaksAreExact(s: seq<bool>)
    ensures Exact(s, MaximalRuns(s))
  {
    if s == [] {
    } else {
      var n := |s| - 1;
      StreaksAreExact(s[..n]);
      assert s == s[..n] + [s[n]];
      if !s[n] {
        QuietSnoc(s[..n], MaximalRuns(s[..n]));
      } else if n > 0 && s[n - 1] {
        GrowSnoc(s[..n], MaximalRuns(s[..n]));
      } else {
        OpenSnoc(s[..n], MaximalRuns(s[..n]));
      }
    }
  }

  /** The list holds exactly the maximal runs, each once, and there are as many as rising edges. */
  lemma {:induction false} StreaksExact(s: seq<bool>)
    ensures forall k: Streak :: k in MaximalRuns(s) <==> IsStreak(s, k.from, k.to)
    ensures Ordered(MaximalRuns(s)) && |MaximalRuns(s)| == RisingEdges(s)
  {
    StreaksAreExact(s);
    assert forall k: Streak :: Listed(s, k) <==> IsStreak(s, k.from, k.to);
  }

  /** The trailing count is the length of the run that reaches the end. */
  lemma {:induction false} TrailingStreak(s: seq<bool>)
    requires s != [] && s[|s| - 1]
    ensures IsStreak(s, |s| - Trailing(s), |s|)
  {
    var n := |s| - 1;
    if n == 0 || !s[n - 1] {
    } else {
      TrailingStreak(s[..n]);
      ListedSnoc(s[..n], true, Streak(n - Trailing(s[..n]), |s|));
      assert s == s[..n] + [true];
    }
  }
}
