/** Query results as sequences: selecting rows, and looking a key up in a dictionary. */
module Tables {
  import opened Domain

  function Lookup<K, V>(m: map<K, V>, k: K): Option<V> {
    if k in m then Some(m[k]) else None
  }

  /** The rows that satisfy p, in table order. */
  function Filter<T>(rows: seq<T>, p: T -> bool): seq<T> {
    if rows == [] then []
    else
      var front := Filter(rows[..|rows| - 1], p);
      var last := rows[|rows| - 1];
      if p(last) then front + [last] else front
  }

  lemma {:induction false} FilterMembers<T>(rows: seq<T>, p: T -> bool)
    ensures forall x :: x in Filter(rows, p) <==> x in rows && p(x)
  {
    if rows != [] {
      FilterMembers(rows[..|rows| - 1], p);
      assert rows == rows[..|rows| - 1] + [rows[|rows| - 1]];
    }
  }

  ghost predicate Ascends<T>(rows: seq<T>, key: T -> int) {
    forall i, j :: 0 <= i < j < |rows| ==> key(rows[i]) < key(rows[j])
  }

  ghost predicate StaysBelow<T>(rows: seq<T>, key: T -> int, bound: int) {
    forall i :: 0 <= i < |rows| ==> key(rows[i]) < bound
  }

  lemma {:induction false} FilterStaysBelow<T>(rows: seq<T>, p: T -> bool, key: T -> int, bound: int)
    requires StaysBelow(rows, key, bound)
    ensures StaysBelow(Filter(rows, p), key, bound)
  {
    if rows != [] {
      var front, last := rows[..|rows| - 1], rows[|rows| - 1];
      assert forall i :: 0 <= i < |front| ==> front[i] == rows[i];
      FilterStaysBelow(front, p, key, bound);
      var kept, kept' := Filter(front, p), Filter(rows, p);
      forall i | 0 <= i < |kept'|
        ensures key(kept'[i]) < bound
      {
        assert i < |kept| ==> kept'[i] == kept[i];
      }
    }
  }

  /** A filter keeps the rows in order. */
  lemma {:induction false} FilterAscends<T>(rows: seq<T>, p: T -> bool, key: T -> int)
    requires Ascends(rows, key)
    ensures Ascends(Filter(rows, p), key)
  {
    if rows != [] {
      var front := rows[..|rows| - 1];
      FilterAscends(front, p, key);
      assert forall i :: 0 <= i < |front| ==> front[i] == rows[i];
      FilterStaysBelow(front, p, key, key(rows[|rows| - 1]));
      var kept := Filter(rows, p);
      forall i, j | 0 <= i < j < |kept|
        ensures key(kept[i]) < key(kept[j])
      {
        assert kept[i] == Filter(front, p)[i];
        assert j < |Filter(front, p)| ==> kept[j] == Filter(front, p)[j];
      }
    }
  }

  lemma {:induction false} FilterTwice<T>(rows: seq<T>, p: T -> bool, q: T -> bool, r: T -> bool)
    requires forall x :: r(x) <==> p(x) && q(x)
    ensures Filter(Filter(rows, p), q) == Filter(rows, r)
  {
    if rows != [] {
      FilterTwice(rows[..|rows| - 1], p, q, r);
    }
  }

  /** The results for all rows, one after the other. */
  function FlatMap<A, B>(rows: seq<A>, f: A -> seq<B>): seq<B> {
    if rows == [] then [] else FlatMap(rows[..|rows| - 1], f) + f(rows[|rows| - 1])
  }

  lemma {:induction false} FlatMapConcat<A, B>(a: seq<A>, b: seq<A>, f: A -> seq<B>)
    ensures FlatMap(a + b, f) == FlatMap(a, f) + FlatMap(b, f)
  {
    if b == [] {
      assert a + b == a;
    } else {
      assert (a + b)[..|a + b| - 1] == a + b[..|b| - 1];
      FlatMapConcat(a, b[..|b| - 1], f);
    }
  }

  lemma {:induction false} FlatMapEmpty<A, B>(rows: seq<A>, f: A -> seq<B>)
    ensures FlatMap(rows, f) == [] <==> forall i :: 0 <= i < |rows| ==> f(rows[i]) == []
  {
    if rows != [] {
      var front := rows[..|rows| - 1];
      FlatMapEmpty(front, f);
      assert |FlatMap(rows, f)| == |FlatMap(front, f)| + |f(rows[|rows| - 1])|;
      assert forall i :: 0 <= i < |front| ==> front[i] == rows[i];
    }
  }
}
