/** Vocabulary shared by the whole model: bytes, optional values, results, and folds over sequences. */
module Basics {

  type Byte = bv8

  type Bytes = seq<Byte>

  datatype Option<+T> = None | Some(value: T)

  datatype Result<+T, +E> = Ok(value: T) | Err(error: E)

  /** The elements of the given sequences, one sequence after the other. */
  function Flatten<T>(ss: seq<seq<T>>): seq<T> {
    if ss == [] then [] else ss[0] + Flatten(ss[1..])
  }

  lemma {:induction false} FlattenAppend<T>(a: seq<seq<T>>, b: seq<seq<T>>)
    ensures Flatten(a + b) == Flatten(a) + Flatten(b)
  {
    if a == [] {
      assert a + b == b;
    } else {
      assert (a + b)[1..] == a[1..] + b;
      FlattenAppend(a[1..], b);
    }
  }

  /** Flattening a prefix and then the next element: the step of every loop that writes piece after piece. */
  lemma FlattenNext<T>(ss: seq<seq<T>>, i: nat)
    requires i < |ss|
    ensures Flatten(ss[..i + 1]) == Flatten(ss[..i]) + ss[i]
  {
    assert ss[..i + 1] == ss[..i] + [ss[i]];
    FlattenAppend(ss[..i], [ss[i]]);
    assert Flatten([ss[i]]) == ss[i] + [];
  }

  lemma FlattenPrefix<T>(ss: seq<seq<T>>, i: nat)
    requires i <= |ss|
    ensures |Flatten(ss[..i])| <= |Flatten(ss)|
    ensures Flatten(ss)[..|Flatten(ss[..i])|] == Flatten(ss[..i])
  {
    FlattenAppend(ss[..i], ss[i..]);
    assert ss[..i] + ss[i..] == ss;
  }

  /** The sum of a weight over the elements of a sequence. */
  function Sum<T>(weight: T -> nat, s: seq<T>): nat {
    if s == [] then 0 else weight(s[0]) + Sum(weight, s[1..])
  }

  lemma {:induction false} SumUpdate<T>(weight: T -> nat, s: seq<T>, i: nat, x: T)
    requires i < |s|
    ensures Sum(weight, s[i := x]) + weight(s[i]) == Sum(weight, s) + weight(x)
  {
    if i == 0 {
      assert s[i := x][1..] == s[1..];
    } else {
      assert s[i := x][1..] == s[1..][i - 1 := x];
      SumUpdate(weight, s[1..], i - 1, x);
    }
  }

  lemma {:induction false} SumAppend<T>(weight: T -> nat, s: seq<T>, x: T)
    ensures Sum(weight, s + [x]) == Sum(weight, s) + weight(x)
  {
    if s == [] {
      assert s + [x] == [x];
    } else {
      assert (s + [x])[1..] == s[1..] + [x];
      SumAppend(weight, s[1..], x);
    }
  }

  lemma {:induction false} SumConcat<T>(weight: T -> nat, a: seq<T>, b: seq<T>)
    ensures Sum(weight, a + b) == Sum(weight, a) + Sum(weight, b)
  {
    if a == [] {
      assert a + b == b;
    } else {
      assert (a + b)[1..] == a[1..] + b;
      SumConcat(weight, a[1..], b);
    }
  }

  lemma {:induction false} SumZero<T>(weight: T -> nat, s: seq<T>)
    ensures Sum(weight, s) == 0 <==> forall i :: 0 <= i < |s| ==> weight(s[i]) == 0
  {
    if s != [] {
      SumZero(weight, s[1..]);
      assert forall i :: 0 <= i < |s[1..]| ==> s[1..][i] == s[i + 1];
      if Sum(weight, s) == 0 {
        forall i | 0 <= i < |s| ensures weight(s[i]) == 0 {
          if i > 0 { assert s[1..][i - 1] == s[i]; }
        }
      }
    }
  }

  lemma {:induction false} SumScaled<T>(weight: T -> nat, unit: T -> nat, n: nat, s: seq<T>)
    requires forall x | x in s :: weight(x) == unit(x) * n
    ensures Sum(weight, s) == Sum(unit, s) * n
  {
    if s != [] {
      SumScaled(weight, unit, n, s[1..]);
      Distribute(unit(s[0]), Sum(unit, s[1..]), n);
    }
  }

  lemma Distribute(a: nat, b: nat, n: nat)
    ensures (a + b) * n == a * n + b * n
  {
  }

  function Elements<T>(s: seq<T>): set<T> { set x | x in s }

  predicate Distinct<T(==)>(s: seq<T>) { forall i, j :: 0 <= i < j < |s| ==> s[i] != s[j] }

  lemma {:induction false} DistinctSize<T>(s: seq<T>)
    requires Distinct(s)
    ensures |Elements(s)| == |s|
  {
    if s != [] {
      var front, last := s[..|s| - 1], s[|s| - 1];
      DistinctSize(front);
      assert forall x :: x in s <==> x in front || x == last;
      assert Elements(s) == Elements(front) + {last};
      assert last !in front;
    }
  }

  lemma SubsetSize<T>(a: set<T>, b: set<T>)
    requires a <= b
    ensures |a| <= |b|
    ensures |a| == |b| ==> a == b
    ensures |a| < |b| ==> exists x :: x in b && x !in a
  {
    assert b == a + (b - a);
    if |a| < |b| {
      var x :| x in b - a;
    }
  }

  /** How often `x` occurs in `s`. */
  function Count<T(==)>(s: seq<T>, x: T): (n: nat)
    ensures n > 0 <==> x in s
  {
    if s == [] then 0
    else Count(s[..|s| - 1], x) + if s[|s| - 1] == x then 1 else 0
  }

  lemma CountNext<T>(s: seq<T>, y: T, x: T)
    ensures Count(s + [y], x) == Count(s, x) + if x == y then 1 else 0
  {
    assert (s + [y])[..|s|] == s;
  }

  lemma SumNext<T>(weight: T -> nat, s: seq<T>, i: nat)
    requires i < |s|
    ensures Sum(weight, s[..i + 1]) == Sum(weight, s[..i]) + weight(s[i])
  {
    assert s[..i + 1] == s[..i] + [s[i]];
    SumAppend(weight, s[..i], s[i]);
  }

  /** The sum of a weight over the elements of a set, in whatever order they are taken. */
  ghost function Total<K(!new)>(weight: K -> nat, keys: set<K>): nat {
    if keys == {} then 0
    else
      var k :| k in keys;
      weight(k) + Total(weight, keys - {k})
  }

  lemma {:induction false} TotalTake<K(!new)>(weight: K -> nat, keys: set<K>, k: K)
    requires k in keys
    ensures Total(weight, keys) == weight(k) + Total(weight, keys - {k})
    decreases keys
  {
    var first :| first in keys && Total(weight, keys) == weight(first) + Total(weight, keys - {first});
    if first != k {
      TotalTake(weight, keys - {first}, k);
      TotalTake(weight, keys - {k}, first);
      assert keys - {first} - {k} == keys - {k} - {first};
    }
  }

  lemma {:induction false} TotalZero<K(!new)>(weight: K -> nat, keys: set<K>)
    ensures Total(weight, keys) == 0 <==> forall k :: k in keys ==> weight(k) == 0
    decreases keys
  {
    if k :| k in keys {
      TotalTake(weight, keys, k);
      TotalZero(weight, keys - {k});
    }
  }
}
