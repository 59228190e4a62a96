/** Sorting a finite set by a total order: the one ascending sequence of its elements. */
module Sorting {
  ghost predicate Orders<T(!new)>(leq: (T, T) -> bool, s: set<T>) {
    && (forall x, y :: x in s && y in s ==> leq(x, y) || leq(y, x))
    && (forall x, y :: x in s && y in s && leq(x, y) && leq(y, x) ==> x == y)
    && (forall x, y, z :: x in s && y in s && z in s && leq(x, y) && leq(y, z) ==> leq(x, z))
  }

  predicate Least<T(==)>(leq: (T, T) -> bool, s: set<T>, m: T) {
    m in s && forall x :: x in s ==> leq(m, x)
  }

  lemma {:induction false} LeastExists<T(!new)>(leq: (T, T) -> bool, s: set<T>)
    requires Orders(leq, s) && s != {}
    ensures exists m :: Least(leq, s, m)
    decreases s
  {
    var m :| m in s;
    if s == {m} {
      assert Least(leq, s, m);
    } else {
      var rest := s - {m};
      assert s == rest + {m};
      LeastExists(leq, rest);
      var other :| Least(leq, rest, other);
      assert leq(m, m) && leq(other, other);
      assert Least(leq, s, if leq(m, other) then m else other);
    }
  }

  ghost predicate Ascending<T(!new)>(leq: (T, T) -> bool, q: seq<T>) {
    forall i, j :: 0 <= i < j < |q| ==> leq(q[i], q[j]) && q[i] != q[j]
  }

  /** The elements of `s`, least first. */
  ghost function Sort<T(!new)>(leq: (T, T) -> bool, s: set<T>): (q: seq<T>)
    requires Orders(leq, s)
    ensures Ascending(leq, q) && forall x :: x in q <==> x in s
    decreases s
  {
    if s == {} then []
    else
      LeastExists(leq, s);
      var m :| Least(leq, s, m);
      [m] + Sort(leq, s - {m})
  }

  /** Nothing else lists the same elements in ascending order. */
  lemma {:induction false} AscendingIsSort<T(!new)>(leq: (T, T) -> bool, s: set<T>, q: seq<T>)
    requires Orders(leq, s) && Ascending(leq, q) && forall x :: x in q <==> x in s
    ensures q == Sort(leq, s)
    decreases s
  {
    if q == [] {
      assert s == {};
    } else {
      FirstIsLeast(leq, s, q);
      FirstIsLeast(leq, s, Sort(leq, s));
      assert Sort(leq, s)[0] == q[0];
      AscendingIsSort(leq, s - {q[0]}, q[1..]);
      assert q == [q[0]] + q[1..];
    }
  }

  lemma FirstIsLeast<T(!new)>(leq: (T, T) -> bool, s: set<T>, q: seq<T>)
    requires Orders(leq, s) && Ascending(leq, q) && (forall x :: x in q <==> x in s) && q != []
    ensures Least(leq, s, q[0]) && Ascending(leq, q[1..]) && forall x :: x in q[1..] <==> x in s - {q[0]}
  {
    assert q[0] in q;
    forall y | y in s ensures leq(q[0], y) && (y != q[0] ==> y in q[1..]) {
      assert leq(y, y);
      var i :| 0 <= i < |q| && q[i] == y;
      assert i > 0 ==> q[1..][i - 1] == y;
    }
    forall x | x in q[1..] ensures x in s && x != q[0] {
      var i :| 0 <= i < |q[1..]| && q[1..][i] == x;
      assert q[i + 1] == x && q[i + 1] in q;
    }
  }

  /** Selection: the least element left, over and over. */
  method SortSet<T(==, !new)>(leq: (T, T) -> bool, s: set<T>) returns (q: seq<T>)
    requires Orders(leq, s)
    ensures q == Sort(leq, s)
  {
    q := [];
    var rest := s;
    while rest != {}
      invariant rest <= s && Ascending(leq, q)
      invariant forall x :: x in q <==> x in s && x !in rest
      invariant forall i, x :: 0 <= i < |q| && x in rest ==> leq(q[i], x)
      decreases rest
    {
      LeastExists(leq, rest);
      var m :| m in rest && Least(leq, rest, m);
      q := q + [m];
      rest := rest - {m};
    }
    AscendingIsSort(leq, s, q);
  }

  lemma Without<T(!new)>(leq: (T, T) -> bool, q: seq<T>, i: nat)
    requires Ascending(leq, q) && i < |q|
    ensures var r := q[..i] + q[i + 1..]; Ascending(leq, r) && forall y :: y in r <==> y in q && y != q[i]
  {
    var r := q[..i] + q[i + 1..];
    assert forall j :: 0 <= j < |r| ==> r[j] == q[if j < i then j else j + 1];
    forall y | y in q && y != q[i] ensures y in r {
      var j :| 0 <= j < |q| && q[j] == y;
      assert r[if j < i then j else j - 1] == y;
    }
  }

  /** Sorting one element more puts it between two parts of the sorted rest. */
  lemma {:induction false} SortInsert<T(!new)>(leq: (T, T) -> bool, s: set<T>, x: T)
    returns (before: seq<T>, after: seq<T>)
    requires Orders(leq, s + {x}) && x !in s
    ensures Orders(leq, s) && Sort(leq, s) == before + after && Sort(leq, s + {x}) == before + [x] + after
  {
    var q := Sort(leq, s + {x});
    assert x in q;
    var i :| 0 <= i < |q| && q[i] == x;
    before, after := q[..i], q[i + 1..];
    assert q == before + [x] + after;
    Without(leq, q, i);
    assert forall y :: y in s <==> y in s + {x} && y != x;
    OrdersPart(leq, s, x);
    AscendingIsSort(leq, s, before + after);
  }

  lemma OrdersPart<T(!new)>(leq: (T, T) -> bool, s: set<T>, x: T)
    requires Orders(leq, s + {x})
    ensures Orders(leq, s)
  {
  }
}
