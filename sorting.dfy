/**
 * The stable sort by a real-valued key that Python's `list.sort(key=...)`
 * performs, written as an insertion sort, and slicing of the first `n` items.
 */
module Sorting {
  predicate SortedBy<T>(s: seq<T>, key: T -> real)
  {
    forall i, j :: 0 <= i < j < |s| ==> key(s[i]) <= key(s[j])
  }

  /** Insert `x` after every item whose key is at most `key(x)`. */
  function Insert<T>(x: T, s: seq<T>, key: T -> real): (r: seq<T>)
    ensures |r| == |s| + 1
    ensures multiset(r) == multiset(s) + multiset{x}
  {
    if s == [] then [x]
    else if key(s[|s| - 1]) <= key(x) then s + [x]
    else
      assert s == s[..|s| - 1] + [s[|s| - 1]];
      Insert(x, s[..|s| - 1], key) + [s[|s| - 1]]
  }

  lemma {:induction false} InsertSorted<T>(x: T, s: seq<T>, key: T -> real)
    requires SortedBy(s, key)
    ensures SortedBy(Insert(x, s, key), key)
    decreases |s|
  {
    if s != [] && key(s[|s| - 1]) > key(x) {
      var init, last := s[..|s| - 1], s[|s| - 1];
      InsertSorted(x, init, key);
      var r' := Insert(x, init, key);
      forall i | 0 <= i < |r'|
        ensures key(r'[i]) <= key(last)
      {
        assert r'[i] in multiset(r');
        assert r'[i] == x || r'[i] in multiset(init);
        if r'[i] != x {
          var k :| 0 <= k < |init| && init[k] == r'[i];
          assert s[k] == init[k];
        }
      }
    }
  }

  /** The items of `s` whose key is `v`, in their order in `s`. */
  function WithKey<T>(s: seq<T>, key: T -> real, v: real): (r: seq<T>)
    ensures |r| <= |s|
  {
    if s == [] then []
    else WithKey(s[..|s| - 1], key, v) + if key(s[|s| - 1]) == v then [s[|s| - 1]] else []
  }

  /** Inserting `x` puts it after every item with its key: the items of each key keep their order. */
  lemma {:induction false} InsertKeepsOrder<T>(x: T, s: seq<T>, key: T -> real, v: real)
    ensures WithKey(Insert(x, s, key), key, v) ==
      WithKey(s, key, v) + if key(x) == v then [x] else []
    decreases |s|
  {
    if s == [] {
      assert [x][..0] == [];
    } else if key(s[|s| - 1]) <= key(x) {
      assert (s + [x])[..|s|] == s;
    } else {
      var init, last := s[..|s| - 1], s[|s| - 1];
      InsertKeepsOrder(x, init, key, v);
      var r' := Insert(x, init, key);
      assert (r' + [last])[..|r'|] == r';
    }
  }

  /**
   * `sorted(s, key=key)`: ascending by key, the same items, and stable: the
   * items that share a key keep their input order.
   */
  function SortBy<T>(s: seq<T>, key: T -> real): (r: seq<T>)
    ensures |r| == |s|
    ensures multiset(r) == multiset(s)
    ensures SortedBy(r, key)
    ensures forall v :: WithKey(r, key, v) == WithKey(s, key, v)
  {
    if s == [] then []
    else
      assert s == s[..|s| - 1] + [s[|s| - 1]];
      InsertSorted(s[|s| - 1], SortBy(s[..|s| - 1], key), key);
      var r := Insert(s[|s| - 1], SortBy(s[..|s| - 1], key), key);
      assert forall v :: WithKey(r, key, v) == WithKey(s, key, v) by {
        forall v ensures WithKey(r, key, v) == WithKey(s, key, v) {
          InsertKeepsOrder(s[|s| - 1], SortBy(s[..|s| - 1], key), key, v);
        }
      }
      r
  }

  /** Negating the key and the value selects the same items. */
  lemma {:induction false} WithNegatedKey<T>(s: seq<T>, key: T -> real, v: real)
    ensures WithKey(s, x => -key(x), -v) == WithKey(s, key, v)
    decreases |s|
  {
    if s != [] {
      WithNegatedKey(s[..|s| - 1], key, v);
    }
  }

  /**
   * `sorted(s, key=key, reverse=True)`: descending by key, the same items, and
   * stable as Python's reverse sort is: items that share a key keep their
   * input order.
   */
  function SortByDescending<T>(s: seq<T>, key: T -> real): (r: seq<T>)
    ensures |r| == |s|
    ensures multiset(r) == multiset(s)
    ensures forall i, j :: 0 <= i < j < |r| ==> key(r[i]) >= key(r[j])
    ensures forall v :: WithKey(r, key, v) == WithKey(s, key, v)
  {
    var r := SortBy(s, x => -key(x));
    assert forall i, j :: 0 <= i < j < |r| ==> -key(r[i]) <= -key(r[j]);
    assert forall v :: WithKey(r, key, v) == WithKey(s, key, v) by {
      forall v ensures WithKey(r, key, v) == WithKey(s, key, v) {
        WithNegatedKey(r, key, v);
        WithNegatedKey(s, key, v);
        assert WithKey(r, x => -key(x), -v) == WithKey(s, x => -key(x), -v);
      }
    }
    r
  }

  /** `s[:n]`. */
  function TakeFirst<T>(s: seq<T>, n: nat): (r: seq<T>)
    ensures |r| == if |s| <= n then |s| else n
    ensures r == s[..|r|]
  {
    if |s| <= n then s else s[..n]
  }

  /**
   * The first `n` items of a descending sort are the top `n`: an item of `s`
   * is among them or has a key no larger than any of theirs.
   */
  lemma TopRanked<T>(s: seq<T>, key: T -> real, n: nat, x: T)
    requires x in s
    ensures var t := TakeFirst(SortByDescending(s, key), n);
      x in t || forall y :: y in t ==> key(x) <= key(y)
  {
    var r := SortByDescending(s, key);
    var t := TakeFirst(r, n);
    assert x in multiset(r);
    var i :| 0 <= i < |r| && r[i] == x;
    if i < |t| {
      assert t[i] == x;
    } else {
      forall y | y in t
        ensures key(x) <= key(y)
      {
        var j :| 0 <= j < |t| && t[j] == y;
        assert r[j] == y;
      }
    }
  }
}
