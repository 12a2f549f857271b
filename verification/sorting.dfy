/** A stable sort by an integer key, the behaviour of `Array.prototype.sort`
    with a comparator `(a, b) => key(a) - key(b)`: ascending keys, and
    elements with equal keys keep their original relative order. */
module Sorting {

  predicate SortedByKey<T>(s: seq<T>, key: T -> int) {
    forall i, j :: 0 <= i < j < |s| ==> key(s[i]) <= key(s[j])
  }

  /** Places `x` in front of the first element whose key is not smaller. */
  function Insert<T>(x: T, s: seq<T>, key: T -> int): (r: seq<T>)
    ensures |r| == |s| + 1
  {
    if s == [] || key(x) <= key(s[0]) then [x] + s
    else [s[0]] + Insert(x, s[1..], key)
  }

  function SortByKey<T>(s: seq<T>, key: T -> int): (r: seq<T>)
    ensures |r| == |s|
  {
    if s == [] then [] else Insert(s[0], SortByKey(s[1..], key), key)
  }

  /** The elements of `s` whose key is `v`, in order. */
  function WithKey<T>(s: seq<T>, key: T -> int, v: int): seq<T> {
    if s == [] then []
    else (if key(s[0]) == v then [s[0]] else []) + WithKey(s[1..], key, v)
  }

  /** The position of the first element with the smallest key. */
  function FirstMinIndex<T>(s: seq<T>, key: T -> int): (k: nat)
    requires |s| > 0
    ensures k < |s|
    ensures forall i :: 0 <= i < |s| ==> key(s[k]) <= key(s[i])
    ensures forall i :: 0 <= i < k ==> key(s[i]) > key(s[k])
  {
    if |s| == 1 then 0
    else
      var j := 1 + FirstMinIndex(s[1..], key);
      if key(s[0]) <= key(s[j]) then 0 else j
  }

  lemma {:induction false} InsertPermutes<T>(x: T, s: seq<T>, key: T -> int)
    ensures multiset(Insert(x, s, key)) == multiset{x} + multiset(s)
  {
    if s != [] && key(x) > key(s[0]) {
      InsertPermutes(x, s[1..], key);
      assert s == [s[0]] + s[1..];
    }
  }

  /** Sorting only reorders: the result is a permutation of the input. */
  lemma {:induction false} SortPermutes<T>(s: seq<T>, key: T -> int)
    ensures multiset(SortByKey(s, key)) == multiset(s)
  {
    if s != [] {
      SortPermutes(s[1..], key);
      InsertPermutes(s[0], SortByKey(s[1..], key), key);
      assert s == [s[0]] + s[1..];
    }
  }

  lemma {:induction false} InsertSorted<T>(x: T, s: seq<T>, key: T -> int)
    requires SortedByKey(s, key)
    ensures SortedByKey(Insert(x, s, key), key)
  {
    if s != [] && key(x) > key(s[0]) {
      InsertSorted(x, s[1..], key);
      var r := Insert(x, s[1..], key);
      InsertPermutes(x, s[1..], key);
      forall i | 0 <= i < |r| ensures key(s[0]) <= key(r[i]) {
        assert r[i] in multiset(r);
        assert r[i] == x || r[i] in multiset(s[1..]);
      }
    }
  }

  /** The result is in ascending key order. */
  lemma {:induction false} SortSorted<T>(s: seq<T>, key: T -> int)
    ensures SortedByKey(SortByKey(s, key), key)
  {
    if s != [] {
      SortSorted(s[1..], key);
      InsertSorted(s[0], SortByKey(s[1..], key), key);
    }
  }

  /** The head of the sorted sequence is the earliest element with the
      smallest key: ties go to the element that came first. */
  lemma {:induction false} SortHead<T>(s: seq<T>, key: T -> int)
    requires |s| > 0
    ensures SortByKey(s, key)[0] == s[FirstMinIndex(s, key)]
  {
    if |s| > 1 {
      SortHead(s[1..], key);
    }
  }

  /** A position is the first minimum exactly when no element has a smaller
      key and every earlier one has a larger key. */
  lemma FirstMinAt<T>(s: seq<T>, key: T -> int, p: int)
    requires 0 <= p < |s|
    ensures FirstMinIndex(s, key) == p <==>
              && (forall i :: 0 <= i < |s| ==> key(s[p]) <= key(s[i]))
              && (forall i :: 0 <= i < p ==> key(s[i]) > key(s[p]))
  {
  }

  lemma {:induction false} InsertStable<T>(x: T, s: seq<T>, key: T -> int, v: int)
    ensures WithKey(Insert(x, s, key), key, v) == (if key(x) == v then [x] else []) + WithKey(s, key, v)
  {
    if s == [] || key(x) <= key(s[0]) {
      assert ([x] + s)[1..] == s;
    } else {
      var t := Insert(x, s[1..], key);
      InsertStable(x, s[1..], key, v);
      var r := [s[0]] + t;
      assert Insert(x, s, key) == r;
      assert r[0] == s[0] && r[1..] == t;
      var head := if key(s[0]) == v then [s[0]] else [];
      var mid := if key(x) == v then [x] else [];
      assert WithKey(r, key, v) == head + WithKey(t, key, v);
      assert WithKey(s, key, v) == head + WithKey(s[1..], key, v);
      assert head == [] || mid == [];
    }
  }

  /** Stability: for every key value, the elements carrying it appear in the
      sorted sequence in exactly their original order. */
  lemma {:induction false} SortStable<T>(s: seq<T>, key: T -> int, v: int)
    ensures WithKey(SortByKey(s, key), key, v) == WithKey(s, key, v)
  {
    if s != [] {
      SortStable(s[1..], key, v);
      InsertStable(s[0], SortByKey(s[1..], key), key, v);
    }
  }
}
