/** Sequences of records with a key: distinctness, and removal by key. */
module Sequences {

  ghost predicate NoDuplicates<T>(s: seq<T>) {
    forall i, j :: 0 <= i < j < |s| ==> s[i] != s[j]
  }

  lemma AppendDistinct<T>(s: seq<T>, x: T)
    requires NoDuplicates(s) && x !in s
    ensures NoDuplicates(s + [x])
  {
  }

  lemma ConcatDistinct<T>(a: seq<T>, b: seq<T>)
    requires NoDuplicates(a) && NoDuplicates(b)
    requires forall i :: 0 <= i < |a| ==> a[i] !in b
    ensures NoDuplicates(a + b)
  {
  }

  /** The elements whose key is not k, in order. */
  function Without<T(!new), K(==)>(s: seq<T>, key: T -> K, k: K): (r: seq<T>)
    ensures forall x :: x in r <==> x in s && key(x) != k
    ensures NoDuplicates(s) ==> NoDuplicates(r)
  {
    if s == [] then [] else
    var rest := Without(s[1..], key, k);
    assert s == [s[0]] + s[1..];
    if key(s[0]) != k then [s[0]] + rest else rest
  }

  /** Removing a key undoes the append of an element with that key, if no other element has it. */
  lemma {:induction false} WithoutUndoesAppend<T(!new), K>(s: seq<T>, x: T, key: T -> K)
    requires forall y :: y in s ==> key(y) != key(x)
    ensures Without(s + [x], key, key(x)) == s
  {
    if s != [] {
      assert s == [s[0]] + s[1..];
      WithoutUndoesAppend(s[1..], x, key);
      assert (s + [x])[1..] == s[1..] + [x];
    }
  }

  function Keys<T, K>(s: seq<T>, key: T -> K): (r: seq<K>)
    ensures |r| == |s| && forall i :: 0 <= i < |s| ==> r[i] == key(s[i])
  {
    seq(|s|, i requires 0 <= i < |s| => key(s[i]))
  }

  /** Removal by key keeps the keys distinct. */
  lemma {:induction false} WithoutKeepsKeysDistinct<T(!new), K>(s: seq<T>, key: T -> K, k: K)
    requires NoDuplicates(Keys(s, key))
    ensures NoDuplicates(Keys(Without(s, key, k), key))
  {
  }

  /** With distinct keys, removal takes out the one element with that key and keeps the order of the rest. */
  lemma {:induction false} WithoutRemovesOne<T(!new), K>(s: seq<T>, key: T -> K, k: K, i: nat)
    requires NoDuplicates(Keys(s, key)) && i < |s| && key(s[i]) == k
    ensures Without(s, key, k) == s[..i] + s[i + 1..]
  {
    forall j | 0 <= j < |s| && j != i ensures key(s[j]) != k {
      assert Keys(s, key)[j] != Keys(s, key)[i];
    }
    var a, b := s[..i], s[i + 1..];
    assert s == a + ([s[i]] + b);
    WithoutConcat(a, [s[i]] + b, key, k);
    WithoutAbsent(a, key, k);
    WithoutAbsent(b, key, k);
    assert ([s[i]] + b)[1..] == b;
  }

  lemma {:induction false} WithoutConcat<T(!new), K>(a: seq<T>, b: seq<T>, key: T -> K, k: K)
    ensures Without(a + b, key, k) == Without(a, key, k) + Without(b, key, k)
    decreases a
  {
    if a == [] {
      assert a + b == b;
    } else {
      assert (a + b)[1..] == a[1..] + b;
      WithoutConcat(a[1..], b, key, k);
    }
  }

  lemma {:induction false} WithoutAbsent<T(!new), K>(s: seq<T>, key: T -> K, k: K)
    requires forall j :: 0 <= j < |s| ==> key(s[j]) != k
    ensures Without(s, key, k) == s
  {
    if s != [] {
      WithoutAbsent(s[1..], key, k);
    }
  }
}
