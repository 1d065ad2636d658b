/** The parts of SQL the queries of the service rely on: nullable columns and
    three-valued logic. A `WHERE` clause keeps a row only when it is `Yes`;
    comparing anything with a null column is `Unknown`, never `No`. */
module Sql {

  datatype Option<+T> = None | Some(value: T)

  datatype Truth = Yes | No | Unknown

  function Of(b: bool): Truth {
    if b then Yes else No
  }

  function And(a: Truth, b: Truth): Truth {
    if a == No || b == No then No
    else if a == Yes && b == Yes then Yes
    else Unknown
  }

  function Or(a: Truth, b: Truth): Truth {
    if a == Yes || b == Yes then Yes
    else if a == No && b == No then No
    else Unknown
  }

  function IsNull<T>(x: Option<T>): Truth {
    Of(x.None?)
  }

  function NotEqual<T(==)>(x: Option<T>, y: T): Truth {
    if x.None? then Unknown else Of(x.value != y)
  }

  function AtMost(x: Option<int>, y: int): Truth {
    if x.None? then Unknown else Of(x.value <= y)
  }

  function Below(x: Option<int>, y: int): Truth {
    if x.None? then Unknown else Of(x.value < y)
  }

  /** The numbers below `n`. */
  ghost function Indices(n: nat): (r: set<int>)
    ensures forall i :: i in r <==> 0 <= i < n
    ensures |r| == n
  {
    if n == 0 then {} else Indices(n - 1) + {n - 1}
  }

  lemma SubsetCount<T>(a: set<T>, b: set<T>)
    requires a <= b
    ensures |a| <= |b|
  {
    assert b == a + (b - a);
  }

  function Elements<T>(s: seq<T>): set<T> {
    set x | x in s
  }

  lemma ElementsAppend<T>(s: seq<T>, t: seq<T>)
    ensures Elements(s + t) == Elements(s) + Elements(t)
    ensures Elements<T>([]) == {}
  {
  }

  ghost predicate Distinct<T>(s: seq<T>) {
    forall i, j | 0 <= i < j < |s| :: s[i] != s[j]
  }

  lemma {:induction false} DistinctCount<T>(s: seq<T>)
    requires Distinct(s)
    ensures |Elements(s)| == |s|
  {
    if s != [] {
      var n := |s| - 1;
      DistinctCount(s[..n]);
      assert s[n] !in s[..n];
      assert Elements(s) == Elements(s[..n]) + {s[n]};
    }
  }
}
