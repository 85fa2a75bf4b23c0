/** Result types and the folds over sequences and maps that the other modules share. */
module Prelude {

  datatype Option<+T> = None | Some(value: T)

  /** A computation that the TypeScript code ends with a value or with a thrown error. */
  datatype Result<+T, +E> = Ok(value: T) | Err(error: E) {
    predicate IsFailure() {
      Err?
    }

    function PropagateFailure<U>(): Result<U, E>
      requires Err?
    {
      Err(error)
    }

    function Extract(): T
      requires Ok?
    {
      value
    }
  }

  datatype OutRef = OutRef(txHash: string, index: nat)

  function Max(a: int, b: int): int {
    if a < b then b else a
  }

  function Min(a: int, b: int): int {
    if a < b then a else b
  }

  /** `n` copies of one value. */
  function Copies<T>(x: T, n: nat): (s: seq<T>)
    ensures |s| == n && forall k :: 0 <= k < n ==> s[k] == x
  {
    seq(n, _ => x)
  }

  function RemoveAt<T>(s: seq<T>, i: nat): seq<T>
    requires i < |s|
  {
    s[..i] + s[i + 1..]
  }

  lemma DivUnique(a: int, size: int, q: int, r: int)
    requires 0 <= r < size && a == size * q + r
    ensures a / size == q
  {
    var d := a / size - q;
    assert size * d == r - a % size;
    MulGap(size, d);
  }

  lemma MulGap(size: int, d: int)
    requires 0 < size
    ensures d >= 1 ==> size * d >= size
    ensures d <= -1 ==> size * d <= -size
  {
  }

  lemma MulMonotone(a: int, b: int, c: int)
    requires a <= b && 0 <= c
    ensures a * c <= b * c
  {
  }

  ghost predicate Distinct<T>(s: seq<T>) {
    forall i, j :: 0 <= i < j < |s| ==> s[i] != s[j]
  }

  /** The positions of a list, from those of its tail. */
  lemma OnePositionMore(tail: set<nat>, all: set<nat>)
    requires forall i: nat :: i in tail <==> i + 1 in all
    ensures |all| == |tail| + if 0 in all then 1 else 0
  {
    ShiftedSize(tail, all - {0});
  }

  lemma {:induction false} ShiftedSize(s: set<nat>, t: set<nat>)
    requires 0 !in t && forall i: nat :: i in s <==> i + 1 in t
    ensures |s| == |t|
    decreases |t|
  {
    if t == {} {
      assert forall i: nat :: i in s ==> i + 1 in t;
      assert s == {};
    } else {
      var j :| j in t;
      var i: nat := j - 1;
      assert i in s;
      ShiftedSize(s - {i}, t - {j});
    }
  }
}

/** Sums of a weight over a sequence, and over the values of a map in any order. */
module Folds {
  import opened Prelude

  function Sum<T>(s: seq<T>, f: T -> int): int {
    if s == [] then 0 else f(s[0]) + Sum(s[1..], f)
  }

  lemma {:induction false} SumAppend<T>(s: seq<T>, t: seq<T>, f: T -> int)
    ensures Sum(s + t, f) == Sum(s, f) + Sum(t, f)
  {
    if s == [] {
      assert s + t == t;
    } else {
      assert (s + t)[1..] == s[1..] + t;
      SumAppend(s[1..], t, f);
    }
  }

  lemma SumRemoveAt<T>(s: seq<T>, i: nat, f: T -> int)
    requires i < |s|
    ensures Sum(s, f) == f(s[i]) + Sum(RemoveAt(s, i), f)
  {
    assert s == s[..i] + s[i..] && s[i..][1..] == s[i + 1..];
    SumAppend(s[..i], s[i..], f);
    SumAppend(s[..i], s[i + 1..], f);
  }

  lemma {:induction false} SumCopies<T>(x: T, n: nat, f: T -> int)
    ensures Sum(Copies(x, n), f) == n * f(x)
  {
    if n > 0 {
      assert Copies(x, n)[1..] == Copies(x, n - 1);
      SumCopies(x, n - 1, f);
    }
  }

  lemma {:induction false} SumMonotone<T>(s: seq<T>, f: T -> int, g: T -> int)
    requires forall k :: 0 <= k < |s| ==> f(s[k]) <= g(s[k])
    ensures Sum(s, f) <= Sum(s, g)
  {
    if s != [] {
      SumMonotone(s[1..], f, g);
    }
  }

  /** A sum does not depend on the order in which the elements are listed. */
  lemma {:induction false} SumPermutation<T>(s: seq<T>, t: seq<T>, f: T -> int)
    requires multiset(s) == multiset(t)
    ensures Sum(s, f) == Sum(t, f)
    decreases |s|
  {
    if s == [] {
      assert |multiset(t)| == 0;
      assert t == [];
    } else {
      assert s[0] in multiset(t);
      var i :| 0 <= i < |t| && t[i] == s[0];
      RemoveAtMultiset(t, i);
      assert s == [s[0]] + s[1..];
      assert multiset(s[1..]) == multiset(RemoveAt(t, i));
      SumPermutation(s[1..], RemoveAt(t, i), f);
      SumRemoveAt(t, i, f);
    }
  }

  lemma RemoveAtMultiset<T>(s: seq<T>, i: nat)
    requires i < |s|
    ensures multiset(RemoveAt(s, i)) == multiset(s) - multiset{s[i]}
  {
    assert s == s[..i] + [s[i]] + s[i + 1..];
  }

  ghost function SumMap<K, V>(m: map<K, V>, f: V -> int): int {
    if m == map[] then 0
    else
      var k :| k in m;
      f(m[k]) + SumMap(m - {k}, f)
  }

  /** Any key may be summed first. */
  lemma {:induction false} SumMapRemove<K, V>(m: map<K, V>, k: K, f: V -> int)
    requires k in m
    ensures SumMap(m, f) == f(m[k]) + SumMap(m - {k}, f)
    decreases |m|
  {
    var j :| j in m && SumMap(m, f) == f(m[j]) + SumMap(m - {j}, f);
    if j != k {
      assert (m - {j}) - {k} == (m - {k}) - {j};
      SumMapRemove(m - {j}, k, f);
      SumMapRemove(m - {k}, j, f);
    }
  }

  lemma SumMapUpdate<K, V>(m: map<K, V>, k: K, v: V, f: V -> int)
    ensures SumMap(m[k := v], f) == SumMap(m, f) - (if k in m then f(m[k]) else 0) + f(v)
  {
    SumMapRemove(m[k := v], k, f);
    assert m[k := v] - {k} == m - {k};
    if k in m {
      SumMapRemove(m, k, f);
    } else {
      assert m - {k} == m;
    }
  }
}
