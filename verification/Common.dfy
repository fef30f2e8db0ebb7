/** Types and small facts about sequences and finite sums that every component uses. */
module Common {

  datatype Option<+T> = None | Some(value: T)

  datatype Result<+T, +E> = Ok(value: T) | Err(error: E)

  ghost predicate Distinct<T>(s: seq<T>) {
    forall i, j :: 0 <= i < j < |s| ==> s[i] != s[j]
  }

  function Elems<T>(s: seq<T>): set<T> {
    set x | x in s
  }

  /** The map without the entry of a key, if that entry is the given one. */
  function Without<V(==)>(m: map<string, V>, k: string, v: V): map<string, V> {
    if k in m && m[k] == v then m - {k} else m
  }

  /** The value of a counter map at a key, absent keys counting zero. */
  function Get(m: map<string, nat>, k: string): nat {
    if k in m then m[k] else 0
  }

  /** The sum of a counter map over a list of keys (a key listed twice counts twice). */
  function SumOver(m: map<string, nat>, keys: seq<string>): nat {
    if keys == [] then 0
    else SumOver(m, keys[..|keys| - 1]) + Get(m, keys[|keys| - 1])
  }

  lemma {:induction false} SumOverGrow(m: map<string, nat>, m': map<string, nat>, keys: seq<string>, k: string)
    requires Distinct(keys)
    requires forall x :: x in keys && x != k ==> Get(m', x) == Get(m, x)
    requires Get(m', k) == Get(m, k) + 1
    ensures SumOver(m', keys) == SumOver(m, keys) + (if k in keys then 1 else 0)
  {
    if keys != [] {
      var front, last := keys[..|keys| - 1], keys[|keys| - 1];
      SumOverGrow(m, m', front, k);
      assert forall x :: x in keys <==> x in front || x == last;
      assert last !in front;
    }
  }

  lemma {:induction false} SumOverAgree(m: map<string, nat>, m': map<string, nat>, keys: seq<string>)
    requires forall x :: x in keys ==> Get(m, x) <= Get(m', x)
    ensures SumOver(m, keys) <= SumOver(m', keys)
    ensures (forall x :: x in keys ==> Get(m, x) == Get(m', x)) ==> SumOver(m, keys) == SumOver(m', keys)
  {
    if keys != [] {
      SumOverAgree(m, m', keys[..|keys| - 1]);
    }
  }

  lemma {:induction false} SumOverBoundsEach(m: map<string, nat>, keys: seq<string>, k: string)
    requires k in keys
    ensures Get(m, k) <= SumOver(m, keys)
  {
    if keys[|keys| - 1] != k {
      SumOverBoundsEach(m, keys[..|keys| - 1], k);
    }
  }

  lemma SetOfDistinct<T>(s: seq<T>)
    requires Distinct(s)
    ensures |Elems(s)| == |s|
  {
    if s == [] {
      assert Elems(s) == {};
    } else {
      var front, last := s[..|s| - 1], s[|s| - 1];
      SetOfDistinct(front);
      assert Elems(s) == Elems(front) + {last};
      assert last !in Elems(front);
    }
  }

  lemma {:induction false} SubsetSize(a: set<string>, b: set<string>)
    requires a <= b
    ensures |a| <= |b|
    ensures |a| == |b| ==> a == b
  {
    if a != {} {
      var x :| x in a;
      SubsetSize(a - {x}, b - {x});
    }
  }
}
