/**
 * `Array.prototype.sort` with a comparator `(a, b) => key(b) - key(a)`:
 * a stable sort into descending order of a real-valued key, written as
 * insertion of each element after every earlier element with a key at
 * least as large.
 */
module Sorting {

  predicate SortedDesc<T>(s: seq<T>, key: T -> real) {
    forall a, b :: 0 <= a < b < |s| ==> key(s[a]) >= key(s[b])
  }

  /** Inserts `x` after the leading elements whose key is at least `key(x)`. */
  function Insert<T>(x: T, s: seq<T>, key: T -> real): seq<T> {
    if s == [] then [x]
    else if key(x) > key(s[0]) then [x] + s
    else [s[0]] + Insert(x, s[1..], key)
  }

  function SortDesc<T>(s: seq<T>, key: T -> real): seq<T> {
    if s == [] then [] else Insert(s[|s| - 1], SortDesc(s[..|s| - 1], key), key)
  }

  lemma {:induction false} InsertPermutes<T>(x: T, s: seq<T>, key: T -> real)
    ensures multiset(Insert(x, s, key)) == multiset(s) + multiset{x}
    ensures |Insert(x, s, key)| == |s| + 1
  {
    if s != [] && key(x) <= key(s[0]) {
      InsertPermutes(x, s[1..], key);
      assert s == [s[0]] + s[1..];
    }
  }

  lemma {:induction false} InsertSorted<T>(x: T, s: seq<T>, key: T -> real)
    requires SortedDesc(s, key)
    ensures SortedDesc(Insert(x, s, key), key)
  {
    if s != [] && key(x) <= key(s[0]) {
      InsertSorted(x, s[1..], key);
      InsertPermutes(x, s[1..], key);
      var r := Insert(x, s[1..], key);
      forall b | 0 <= b < |r| ensures key(s[0]) >= key(r[b]) {
        assert r[b] in multiset(r);
        assert r[b] == x || r[b] in multiset(s[1..]);
        if r[b] != x {
          var c :| 0 <= c < |s[1..]| && s[1..][c] == r[b];
          assert s[c + 1] == r[b];
        }
      }
    }
  }

  /** The result is in descending key order and is a permutation of the input. */
  lemma {:induction false} SortDescCorrect<T>(s: seq<T>, key: T -> real)
    ensures SortedDesc(SortDesc(s, key), key)
    ensures multiset(SortDesc(s, key)) == multiset(s)
    ensures |SortDesc(s, key)| == |s|
  {
    if s != [] {
      var init := s[..|s| - 1];
      SortDescCorrect(init, key);
      InsertSorted(s[|s| - 1], SortDesc(init, key), key);
      InsertPermutes(s[|s| - 1], SortDesc(init, key), key);
      assert s == init + [s[|s| - 1]];
    }
  }

  /** The elements whose key is `v`, in their order in `s`. */
  function Keep<T>(s: seq<T>, key: T -> real, v: real): seq<T> {
    if s == [] then [] else (if key(s[0]) == v then [s[0]] else []) + Keep(s[1..], key, v)
  }

  lemma {:induction false} KeepAppend<T>(a: seq<T>, b: seq<T>, key: T -> real, v: real)
    ensures Keep(a + b, key, v) == Keep(a, key, v) + Keep(b, key, v)
  {
    if a == [] {
      assert a + b == b;
    } else {
      var h := if key(a[0]) == v then [a[0]] else [];
      assert (a + b)[0] == a[0];
      assert (a + b)[1..] == a[1..] + b;
      calc {
        Keep(a + b, key, v);
        h + Keep(a[1..] + b, key, v);
        { KeepAppend(a[1..], b, key, v); }
        h + (Keep(a[1..], key, v) + Keep(b, key, v));
        (h + Keep(a[1..], key, v)) + Keep(b, key, v);
      }
    }
  }

  lemma {:induction false} KeepNone<T>(s: seq<T>, key: T -> real, v: real)
    requires forall i :: 0 <= i < |s| ==> key(s[i]) < v
    ensures Keep(s, key, v) == []
  {
    if s != [] {
      assert forall i :: 0 <= i < |s[1..]| ==> s[1..][i] == s[i + 1];
      KeepNone(s[1..], key, v);
    }
  }

  /** Inserting into sorted order puts `x` after every element with the same key. */
  lemma {:induction false} InsertKeep<T>(x: T, t: seq<T>, key: T -> real, v: real)
    requires SortedDesc(t, key)
    ensures Keep(Insert(x, t, key), key, v) == Keep(t, key, v) + (if key(x) == v then [x] else [])
  {
    if t == [] {
    } else if key(x) > key(t[0]) {
      if key(x) == v {
        KeepNone(t, key, v);
      }
    } else {
      assert SortedDesc(t[1..], key) by {
        forall a, b | 0 <= a < b < |t[1..]| ensures key(t[1..][a]) >= key(t[1..][b]) {
          assert t[1..][a] == t[a + 1] && t[1..][b] == t[b + 1];
        }
      }
      InsertKeep(x, t[1..], key, v);
    }
  }

  /**
   * The sort is stable: the elements with any one key keep their input
   * order.
   */
  lemma {:induction false} SortDescStable<T>(s: seq<T>, key: T -> real, v: real)
    ensures Keep(SortDesc(s, key), key, v) == Keep(s, key, v)
  {
    if s != [] {
      var init, last := s[..|s| - 1], s[|s| - 1];
      SortDescStable(init, key, v);
      SortDescCorrect(init, key);
      InsertKeep(last, SortDesc(init, key), key, v);
      assert s == init + [last];
      KeepAppend(init, [last], key, v);
    }
  }

  /** The sum of the keys. */
  function Total<T>(s: seq<T>, key: T -> real): real {
    if s == [] then 0.0 else key(s[0]) + Total(s[1..], key)
  }

  /** No two elements carry the same tag. */
  predicate DistinctBy<T, U(==)>(s: seq<T>, tag: T -> U) {
    forall a, b :: 0 <= a < b < |s| ==> tag(s[a]) != tag(s[b])
  }

  lemma {:induction false} InsertDistinctBy<T, U>(x: T, s: seq<T>, key: T -> real, tag: T -> U)
    requires DistinctBy(s, tag)
    requires forall k :: 0 <= k < |s| ==> tag(s[k]) != tag(x)
    ensures DistinctBy(Insert(x, s, key), tag)
  {
    if s != [] && key(x) <= key(s[0]) {
      InsertDistinctBy(x, s[1..], key, tag);
      InsertPermutes(x, s[1..], key);
      var r := Insert(x, s[1..], key);
      forall b | 0 <= b < |r| ensures tag(s[0]) != tag(r[b]) {
        assert r[b] in multiset(r);
        if r[b] != x {
          assert r[b] in multiset(s[1..]);
          var c :| 0 <= c < |s[1..]| && s[1..][c] == r[b];
          assert s[c + 1] == r[b];
        }
      }
    }
  }

  /** Sorting keeps the sum of the keys and the distinctness of any tagging. */
  lemma SortDescKeeps<T, U>(s: seq<T>, key: T -> real, tag: T -> U)
    ensures Total(SortDesc(s, key), key) == Total(s, key)
    ensures DistinctBy(s, tag) ==> DistinctBy(SortDesc(s, key), tag)
  {
    SortDescCorrect(s, key);
    TotalPermutation(SortDesc(s, key), s, key);
    if DistinctBy(s, tag) {
      SortDescDistinct(s, key, tag);
    }
  }

  lemma {:induction false} SortDescDistinct<T, U>(s: seq<T>, key: T -> real, tag: T -> U)
    requires DistinctBy(s, tag)
    ensures DistinctBy(SortDesc(s, key), tag)
  {
    if s != [] {
      var init, last := s[..|s| - 1], s[|s| - 1];
      assert DistinctBy(init, tag) by {
        forall a, b | 0 <= a < b < |init| ensures tag(init[a]) != tag(init[b]) {
          assert init[a] == s[a] && init[b] == s[b];
        }
      }
      SortDescDistinct(init, key, tag);
      SortDescCorrect(init, key);
      var r := SortDesc(init, key);
      forall k | 0 <= k < |r| ensures tag(r[k]) != tag(last) {
        assert r[k] in multiset(init);
        var c :| 0 <= c < |init| && init[c] == r[k];
        assert s[c] == r[k];
      }
      InsertDistinctBy(last, r, key, tag);
    }
  }

  lemma {:induction false} TotalSnoc<T>(s: seq<T>, x: T, key: T -> real)
    ensures Total(s + [x], key) == Total(s, key) + key(x)
  {
    if s != [] {
      assert (s + [x])[1..] == s[1..] + [x];
      TotalSnoc(s[1..], x, key);
    }
  }

  lemma {:induction false} TotalAppend<T>(a: seq<T>, b: seq<T>, key: T -> real)
    ensures Total(a + b, key) == Total(a, key) + Total(b, key)
  {
    if a == [] {
      assert a + b == b;
    } else {
      assert (a + b)[1..] == a[1..] + b;
      TotalAppend(a[1..], b, key);
    }
  }

  /** The sum of any key is the same for two orderings of the same elements. */
  lemma {:induction false} TotalPermutation<T>(a: seq<T>, b: seq<T>, key: T -> real)
    requires multiset(a) == multiset(b)
    ensures Total(a, key) == Total(b, key)
    decreases |a|
  {
    if a == [] {
      assert |b| == |multiset(b)| == 0;
    } else {
      var x := a[0];
      assert x in multiset(b);
      var i :| 0 <= i < |b| && b[i] == x;
      var rest := b[..i] + b[i + 1..];
      TotalWithout(b, i, key);
      MultisetTail(a);
      TotalPermutation(a[1..], rest, key);
    }
  }

  /** Taking out the element at `i` takes its key out of the sum and it out of the multiset. */
  lemma TotalWithout<T>(b: seq<T>, i: nat, key: T -> real)
    requires i < |b|
    ensures multiset(b[..i] + b[i + 1..]) == multiset(b) - multiset{b[i]}
    ensures Total(b, key) == key(b[i]) + Total(b[..i] + b[i + 1..], key)
  {
    MultisetWithout(b, i);
    var pre, post := b[..i], b[i + 1..];
    SplitAt(b, i);
    TotalAppend(pre, [b[i]] + post, key);
    TotalAppend(pre, post, key);
    TotalCons(b[i], post, key);
  }

  lemma SplitAt<T>(b: seq<T>, i: nat)
    requires i < |b|
    ensures b == b[..i] + ([b[i]] + b[i + 1..])
  {
    assert [b[i]] + b[i + 1..] == b[i..];
  }

  lemma TotalCons<T>(x: T, s: seq<T>, key: T -> real)
    ensures Total([x] + s, key) == key(x) + Total(s, key)
  {
    assert ([x] + s)[1..] == s;
  }

  lemma MultisetTail<T>(a: seq<T>)
    requires a != []
    ensures multiset(a[1..]) == multiset(a) - multiset{a[0]}
  {
    assert a == [a[0]] + a[1..];
  }

  lemma MultisetWithout<T>(b: seq<T>, i: nat)
    requires i < |b|
    ensures multiset(b[..i] + b[i + 1..]) == multiset(b) - multiset{b[i]}
  {
    assert b == b[..i] + [b[i]] + b[i + 1..];
  }
}
