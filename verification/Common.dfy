/** Small shared vocabulary: optional values, error results, and joining of text. */
module Common {
  datatype Option<+T> = None | Some(value: T)

  datatype Result<+T, +E> = Ok(value: T) | Err(error: E)

  /** The pieces of `pieces` one after another. */
  function Join<T>(pieces: seq<seq<T>>): seq<T> {
    if pieces == [] then [] else Join(pieces[..|pieces| - 1]) + pieces[|pieces| - 1]
  }

  lemma {:induction false} JoinConcat<T>(a: seq<seq<T>>, b: seq<seq<T>>)
    ensures Join(a + b) == Join(a) + Join(b)
  {
    if b == [] {
      assert a + b == a;
    } else {
      var front, last := b[..|b| - 1], b[|b| - 1];
      assert (a + b)[..|a + b| - 1] == a + front;
      JoinConcat(a, front);
      Regroup(Join(a), Join(front), last);
    }
  }

  lemma JoinSnoc<T>(a: seq<seq<T>>, piece: seq<T>)
    ensures Join(a + [piece]) == Join(a) + piece
  {
    assert (a + [piece])[..|a|] == a;
  }

  lemma JoinOne<T>(piece: seq<T>)
    ensures Join([piece]) == piece
  {
    assert [piece][..0] == [];
    assert Join<T>([]) + piece == piece;
  }

  lemma JoinPair<T>(first: seq<T>, second: seq<T>)
    ensures Join([first, second]) == first + second
  {
    assert [first] + [second] == [first, second];
    JoinSnoc([first], second);
    JoinOne(first);
  }

  lemma Regroup<T>(a: seq<T>, b: seq<T>, c: seq<T>)
    ensures a + b + c == a + (b + c)
  {
  }

  /** 0, 1, ..., n - 1. */
  function Iota(n: nat): (s: seq<nat>)
    ensures |s| == n && forall i :: 0 <= i < n ==> s[i] == i
  {
    seq(n, i => i)
  }
}
