// The JavaScript engine's Array.prototype.sort, used by the source with a
// numeric comparator (`(a, b) => key(b) - key(a)`), is a stable sort
// (ECMAScript 2019 and later). It is modelled here as a functional stable
// insertion sort into non-increasing key order. Ascending sorts are the same
// sort on the negated key.
module StableSort {

  /** Keys never increase from left to right. */
  ghost predicate NonIncreasing<T>(s: seq<T>, key: T -> int) {
    forall i, j :: 0 <= i < j < |s| ==> key(s[i]) >= key(s[j])
  }

  /** The elements of `s` whose key is `k`, in their order in `s`. */
  function WithKey<T>(s: seq<T>, key: T -> int, k: int): (r: seq<T>)
    ensures |r| <= |s|
  {
    if s == [] then []
    else (if key(s[0]) == k then [s[0]] else []) + WithKey(s[1..], key, k)
  }

  /** Inserts `x` before the first element whose key is not larger. */
  function Insert<T>(x: T, s: seq<T>, key: T -> int): (r: seq<T>)
    ensures |r| == |s| + 1
  {
    if s == [] || key(x) >= key(s[0]) then [x] + s
    else [s[0]] + Insert(x, s[1..], key)
  }

  /** Stable sort into non-increasing key order. */
  function SortDesc<T>(s: seq<T>, key: T -> int): (r: seq<T>)
    ensures |r| == |s|
  {
    if s == [] then [] else Insert(s[0], SortDesc(s[1..], key), key)
  }

  function Negate(x: int): int { -x }

  /** Ascending sort of integers, `timestamps.sort((a, b) => a - b)`. */
  function SortAscending(s: seq<int>): seq<int> {
    SortDesc(s, Negate)
  }

  lemma {:induction false} InsertKeepsOrder<T>(x: T, s: seq<T>, key: T -> int)
    requires NonIncreasing(s, key)
    ensures NonIncreasing(Insert(x, s, key), key)
  {
    if s == [] || key(x) >= key(s[0]) {
    } else {
      var rest := Insert(x, s[1..], key);
      InsertKeepsOrder(x, s[1..], key);
      assert rest[0] == x || rest[0] == s[1] by {
        if |s| > 1 && key(x) < key(s[1]) {
        }
      }
      assert [s[0]] + rest == Insert(x, s, key);
    }
  }

  /** The sort's output is in non-increasing key order. */
  lemma {:induction false} SortDescOrdered<T>(s: seq<T>, key: T -> int)
    ensures NonIncreasing(SortDesc(s, key), key)
  {
    if s != [] {
      SortDescOrdered(s[1..], key);
      InsertKeepsOrder(s[0], SortDesc(s[1..], key), key);
    }
  }

  lemma WithKeyCons<T>(x: T, s: seq<T>, key: T -> int, k: int)
    ensures WithKey([x] + s, key, k) == (if key(x) == k then [x] else []) + WithKey(s, key, k)
  {
    assert ([x] + s)[1..] == s;
  }

  lemma {:induction false} WithKeyInsert<T>(x: T, s: seq<T>, key: T -> int, k: int)
    ensures WithKey(Insert(x, s, key), key, k)
         == (if key(x) == k then [x] else []) + WithKey(s, key, k)
  {
    if s == [] || key(x) >= key(s[0]) {
      WithKeyCons(x, s, key, k);
    } else {
      var rest := Insert(x, s[1..], key);
      var own := if key(x) == k then [x] else [];
      var head := if key(s[0]) == k then [s[0]] else [];
      assert Insert(x, s, key) == [s[0]] + rest;
      WithKeyInsert(x, s[1..], key, k);
      WithKeyCons(s[0], rest, key, k);
      WithKeyCons(s[0], s[1..], key, k);
      assert s == [s[0]] + s[1..];
      // x's key is below s[0]'s, so at most one of the two is kept
      assert own == [] || head == [];
      calc {
        WithKey(Insert(x, s, key), key, k);
        head + (own + WithKey(s[1..], key, k));
        own + (head + WithKey(s[1..], key, k));
        own + WithKey(s, key, k);
      }
    }
  }

  /** Stability: elements of equal key keep their relative order. */
  lemma {:induction false} SortDescStable<T>(s: seq<T>, key: T -> int, k: int)
    ensures WithKey(SortDesc(s, key), key, k) == WithKey(s, key, k)
  {
    if s != [] {
      SortDescStable(s[1..], key, k);
      WithKeyInsert(s[0], SortDesc(s[1..], key), key, k);
    }
  }

  lemma {:induction false} InsertPermutes<T>(x: T, s: seq<T>, key: T -> int)
    ensures multiset(Insert(x, s, key)) == multiset(s) + multiset{x}
  {
    if s != [] && key(x) < key(s[0]) {
      InsertPermutes(x, s[1..], key);
      assert s == [s[0]] + s[1..];
    }
  }

  /** The sort's output is a permutation of its input. */
  lemma {:induction false} SortDescPermutes<T>(s: seq<T>, key: T -> int)
    ensures multiset(SortDesc(s, key)) == multiset(s)
  {
    if s != [] {
      SortDescPermutes(s[1..], key);
      InsertPermutes(s[0], SortDesc(s[1..], key), key);
      assert s == [s[0]] + s[1..];
    }
  }

  /** The ascending sort is ordered and a permutation of its input. */
  lemma SortAscendingOrdered(s: seq<int>)
    ensures multiset(SortAscending(s)) == multiset(s)
    ensures forall i, j :: 0 <= i < j < |s| ==> SortAscending(s)[i] <= SortAscending(s)[j]
  {
    SortDescOrdered(s, Negate);
    SortDescPermutes(s, Negate);
    var r := SortAscending(s);
    forall i, j | 0 <= i < j < |s| ensures r[i] <= r[j] {
      assert Negate(r[i]) >= Negate(r[j]);
    }
  }
}
