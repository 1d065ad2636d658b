/** `ORDER BY`: the rows of a result in a strict total order, named by id. */
module OrderBy {

  import opened Sql

  type Before = (nat, nat) -> bool

  /** `before` orders the rows of `pool` strictly and without ties. */
  ghost predicate StrictTotal(before: Before, pool: set<nat>) {
    && (forall a | a in pool :: !before(a, a))
    && (forall a, b | a in pool && b in pool && a != b :: before(a, b) || before(b, a))
    && (forall a, b, c | a in pool && b in pool && c in pool && before(a, b) && before(b, c) :: before(a, c))
  }

  ghost predicate Sorted(before: Before, s: seq<nat>) {
    forall i, j | 0 <= i < j < |s| :: before(s[i], s[j])
  }

  ghost predicate IsFirst(before: Before, pool: set<nat>, m: nat) {
    m in pool && forall y | y in pool && y != m :: before(m, y)
  }

  method First(before: Before, pool: set<nat>) returns (m: nat)
    requires pool != {} && StrictTotal(before, pool)
    ensures IsFirst(before, pool, m)
  {
    m :| m in pool;
    var rest := pool - {m};
    while rest != {}
      invariant m in pool && rest <= pool
      invariant IsFirst(before, pool - rest, m)
      decreases rest
    {
      var y :| y in rest;
      if before(y, m) {
        m := y;
      }
      rest := rest - {y};
    }
    assert pool - rest == pool;
  }

  lemma SubsetIsOrdered(before: Before, pool: set<nat>, part: set<nat>)
    requires StrictTotal(before, pool) && part <= pool
    ensures StrictTotal(before, part)
  {
  }

  lemma {:induction false} FirstExists(before: Before, pool: set<nat>)
    requires pool != {} && StrictTotal(before, pool)
    ensures exists m :: IsFirst(before, pool, m)
  {
    var x :| x in pool;
    if pool == {x} {
      assert IsFirst(before, pool, x);
    } else {
      SubsetIsOrdered(before, pool, pool - {x});
      FirstExists(before, pool - {x});
      var m :| IsFirst(before, pool - {x}, m);
      assert IsFirst(before, pool, if before(x, m) then x else m);
    }
  }

  lemma Prepend(before: Before, m: nat, rest: seq<nat>)
    requires Sorted(before, rest) && forall y | y in Elements(rest) :: before(m, y)
    ensures Sorted(before, [m] + rest) && Elements([m] + rest) == {m} + Elements(rest)
  {
    forall i | 0 <= i < |rest|
      ensures before(m, rest[i])
    {
      assert rest[i] in Elements(rest);
    }
  }

  ghost function Ordered(before: Before, pool: set<nat>): (s: seq<nat>)
    requires StrictTotal(before, pool)
    ensures Elements(s) == pool && |s| == |pool|
    ensures Sorted(before, s)
    decreases |pool|
  {
    if pool == {} then []
    else
      FirstExists(before, pool);
      var m :| IsFirst(before, pool, m);
      SubsetIsOrdered(before, pool, pool - {m});
      var rest := Ordered(before, pool - {m});
      Prepend(before, m, rest);
      [m] + rest
  }

  lemma SortedIsDistinct(before: Before, s: seq<nat>)
    requires StrictTotal(before, Elements(s)) && Sorted(before, s)
    ensures Distinct(s)
  {
    forall i, j | 0 <= i < j < |s|
      ensures s[i] != s[j]
    {
      assert before(s[i], s[j]) && s[i] in Elements(s);
    }
  }

  /** The order leaves the database no choice. */
  lemma {:induction false} OrderIsUnique(before: Before, s: seq<nat>, t: seq<nat>)
    requires StrictTotal(before, Elements(s)) && Sorted(before, s) && Sorted(before, t)
    requires Elements(s) == Elements(t) && |s| == |t|
    ensures s == t
  {
    if s != [] {
      assert s[0] in Elements(t) && t[0] in Elements(s);
      assert s[0] == t[0];
      SortedIsDistinct(before, s);
      SortedIsDistinct(before, t);
      assert Elements(s[1..]) == Elements(s) - {s[0]};
      assert Elements(t[1..]) == Elements(t) - {t[0]};
      OrderIsUnique(before, s[1..], t[1..]);
    }
  }

  /** `ORDER BY ... LIMIT`. */
  method Select(before: Before, pool: set<nat>, limit: nat) returns (s: seq<nat>)
    requires StrictTotal(before, pool)
    ensures s == Ordered(before, pool)[..if limit < |pool| then limit else |pool|]
  {
    s := [];
    var rest := pool;
    while rest != {} && |s| < limit
      invariant rest <= pool && |s| <= limit && |s| + |rest| == |pool|
      invariant StrictTotal(before, rest)
      invariant s + Ordered(before, rest) == Ordered(before, pool)
      decreases rest
    {
      var m := First(before, rest);
      MoveFirst(before, s, rest, m);
      s := s + [m];
      rest := rest - {m};
    }
    StartOf(s, Ordered(before, rest));
  }

  lemma StartOf(s: seq<nat>, t: seq<nat>)
    ensures (s + t)[..|s|] == s
  {
  }

  lemma MoveFirst(before: Before, s: seq<nat>, rest: set<nat>, m: nat)
    requires StrictTotal(before, rest) && IsFirst(before, rest, m)
    ensures StrictTotal(before, rest - {m})
    ensures (s + [m]) + Ordered(before, rest - {m}) == s + Ordered(before, rest)
  {
    SubsetIsOrdered(before, rest, rest - {m});
    OrderedStartsWith(before, rest, m);
  }

  lemma OrderedStartsWith(before: Before, pool: set<nat>, m: nat)
    requires StrictTotal(before, pool) && StrictTotal(before, pool - {m}) && IsFirst(before, pool, m)
    ensures Ordered(before, pool) == [m] + Ordered(before, pool - {m})
  {
    var rest := Ordered(before, pool - {m});
    Prepend(before, m, rest);
    OrderIsUnique(before, Ordered(before, pool), [m] + rest);
  }

  /** The rows that come before `a`. */
  ghost function Preceding(before: Before, pool: set<nat>, a: nat): set<nat> {
    set x | x in pool && before(x, a)
  }

  /** The row at position `i` is preceded by exactly the first `i` rows. */
  lemma PrecedingAreFirst(before: Before, pool: set<nat>, i: nat)
    requires StrictTotal(before, pool) && i < |Ordered(before, pool)|
    ensures var s := Ordered(before, pool); Preceding(before, pool, s[i]) == Elements(s[..i]) && |Elements(s[..i])| == i
  {
    var s := Ordered(before, pool);
    SortedIsDistinct(before, s);
    assert Distinct(s[..i]);
    DistinctCount(s[..i]);
    forall x
      ensures x in Preceding(before, pool, s[i]) <==> x in Elements(s[..i])
    {
      PrecedesIff(before, pool, i, x);
    }
  }

  lemma PositionsDecide(before: Before, s: seq<nat>, i: nat, j: nat)
    requires StrictTotal(before, Elements(s)) && Sorted(before, s) && i < |s| && j < |s|
    ensures before(s[j], s[i]) <==> j < i
  {
    assert s[i] in Elements(s) && s[j] in Elements(s);
    if i < j {
      assert before(s[i], s[j]);
    }
  }

  lemma PrecedesIff(before: Before, pool: set<nat>, i: nat, x: nat)
    requires StrictTotal(before, pool) && i < |Ordered(before, pool)|
    ensures x in pool && before(x, Ordered(before, pool)[i]) <==> x in Ordered(before, pool)[..i]
  {
    hide StrictTotal, Sorted;
    var s := Ordered(before, pool);
    if x in pool {
      assert x in Elements(s);
      var j :| 0 <= j < |s| && s[j] == x;
      PositionsDecide(before, s, i, j);
      if j < i {
        assert s[..i][j] == x;
      }
    }
    if x in s[..i] {
      var j :| 0 <= j < i && s[j] == x;
      assert s[j] in Elements(s);
      PositionsDecide(before, s, i, j);
    }
  }

  /** A row is among the first `limit` if and only if fewer than that precede it. */
  lemma SelectedIff(before: Before, pool: set<nat>, limit: nat, a: nat)
    requires StrictTotal(before, pool) && a in pool && limit <= |pool|
    ensures a in Ordered(before, pool)[..limit] <==> |Preceding(before, pool, a)| < limit
  {
    var s := Ordered(before, pool);
    assert a in Elements(s);
    var i :| 0 <= i < |s| && s[i] == a;
    PrecedingAreFirst(before, pool, i);
    SortedIsDistinct(before, s);
    if i < limit {
      assert s[..limit][i] == a;
    }
  }
}
