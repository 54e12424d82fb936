/** Result types and units of time shared by the modules, and finite sets of instants put in order. */
module Prelude {

  const SECOND: int := 1_000_000
  const MINUTE: int := 60_000_000
  const HOUR: int := 3_600_000_000
  const DAY: int := 86_400_000_000
  const WEEK: int := 604_800_000_000

  datatype Option<+T> = None | Some(value: T)

  datatype Result<+T, +E> = Ok(value: T) | Err(error: E)

  /** Strictly increasing: the form of a column with a unique index read with `order by`. */
  predicate Increasing(s: seq<int>) {
    forall i, j | 0 <= i < j < |s| :: s[i] < s[j]
  }

  lemma HasElement(s: set<int>)
    ensures s != {} ==> exists x :: x in s
  {
    if forall x :: x !in s { assert s == {}; }
  }

  lemma LeastExists(s: set<int>)
    requires s != {}
    ensures exists m :: m in s && forall x | x in s :: m <= x
    decreases |s|
  {
    HasElement(s);
    var a :| a in s;
    var rest := s - {a};
    if rest == {} {
      forall x | x in s ensures a <= x { assert x !in rest; }
    } else {
      LeastExists(rest);
      var b :| b in rest && forall x | x in rest :: b <= x;
      var m := if a <= b then a else b;
      assert m in s && forall x | x in s :: m <= x by {
        forall x | x in s ensures m <= x { assert x == a || x in rest; }
      }
    }
  }

  function Least(s: set<int>): (m: int)
    requires s != {}
    ensures m in s && forall x | x in s :: m <= x
  {
    LeastExists(s);
    var m :| m in s && forall x | x in s :: m <= x;
    m
  }

  /** The elements of a set in increasing order. */
  function InOrder(s: set<int>): (r: seq<int>)
    ensures Increasing(r)
    ensures forall x :: x in r <==> x in s
    decreases |s|
  {
    if s == {} then []
    else
      var m := Least(s);
      [m] + InOrder(s - {m})
  }
}
