/**
 * Python's sorted(pairs, key=itemgetter(1)): a stable sort of (item, key) pairs by key.
 * The model is an insertion sort that puts each new pair after every pair whose key is not
 * larger, which is what makes it stable.
 */
module Sorting {
  import opened Seqs

  /** Keys in non-decreasing order. */
  predicate SortedByKey<T>(s: seq<(T, real)>)
  {
    forall i, j :: 0 <= i < j < |s| ==> s[i].1 <= s[j].1
  }

  /** The pairs of s whose key is k, in their order in s. */
  function WithKey<T>(s: seq<(T, real)>, k: real): seq<(T, real)>
  {
    if |s| == 0 then [] else (if s[0].1 == k then [s[0]] else []) + WithKey(s[1..], k)
  }

  function Insert<T>(x: (T, real), s: seq<(T, real)>): seq<(T, real)>
  {
    if |s| == 0 || x.1 < s[0].1 then [x] + s else [s[0]] + Insert(x, s[1..])
  }

  function SortByKey<T>(s: seq<(T, real)>): seq<(T, real)>
  {
    if |s| == 0 then [] else Insert(s[|s| - 1], SortByKey(s[..|s| - 1]))
  }

  lemma {:induction false} WithKeyAppend<T>(a: seq<(T, real)>, b: seq<(T, real)>, k: real)
    ensures WithKey(a + b, k) == WithKey(a, k) + WithKey(b, k)
  {
    if |a| > 0 {
      assert (a + b)[1..] == a[1..] + b;
      WithKeyAppend(a[1..], b, k);
    } else {
      assert a + b == b;
    }
  }

  lemma {:induction false} InsertPermutes<T>(x: (T, real), s: seq<(T, real)>)
    ensures multiset(Insert(x, s)) == multiset(s) + multiset{x}
  {
    if |s| > 0 && !(x.1 < s[0].1) {
      assert s == [s[0]] + s[1..];
      InsertPermutes(x, s[1..]);
    }
  }

  lemma {:induction false} InsertSorted<T>(x: (T, real), s: seq<(T, real)>)
    requires SortedByKey(s)
    ensures SortedByKey(Insert(x, s))
  {
    if |s| > 0 && !(x.1 < s[0].1) {
      var t := s[1..];
      InsertSorted(x, t);
      InsertPermutes(x, t);
      var r := [s[0]] + Insert(x, t);
      forall j | 0 < j < |r| ensures s[0].1 <= r[j].1 {
        assert r[j] in multiset(Insert(x, t));
      }
    }
  }

  lemma {:induction false} InsertWithKey<T>(x: (T, real), s: seq<(T, real)>, k: real)
    requires SortedByKey(s)
    ensures WithKey(Insert(x, s), k) == WithKey(s, k) + (if x.1 == k then [x] else [])
  {
    if |s| == 0 || x.1 < s[0].1 {
      assert ([x] + s)[1..] == s;
      if x.1 == k {
        NoKeyAbove(s, k);
      }
    } else {
      var r := [s[0]] + Insert(x, s[1..]);
      assert r[1..] == Insert(x, s[1..]);
      InsertWithKey(x, s[1..], k);
    }
  }

  lemma {:induction false} NoKeyAbove<T>(s: seq<(T, real)>, k: real)
    requires SortedByKey(s) && (|s| > 0 ==> k < s[0].1)
    ensures WithKey(s, k) == []
  {
    if |s| > 0 {
      NoKeyAbove(s[1..], k);
    }
  }

  /** The sort is ordered by key, a permutation of its input, and stable. */
  lemma {:induction false} SortByKeyCorrect<T>(s: seq<(T, real)>)
    ensures SortedByKey(SortByKey(s))
    ensures multiset(SortByKey(s)) == multiset(s)
    ensures forall k :: WithKey(SortByKey(s), k) == WithKey(s, k)
  {
    if |s| > 0 {
      var front, x := s[..|s| - 1], s[|s| - 1];
      assert s == front + [x];
      SortByKeyCorrect(front);
      forall k ensures WithKey(SortByKey(s), k) == WithKey(s, k) {
        InsertWithKey(x, SortByKey(front), k);
        WithKeyAppend(front, [x], k);
      }
      InsertSorted(x, SortByKey(front));
      InsertPermutes(x, SortByKey(front));
    }
  }

  lemma FirstsAppend<T>(a: seq<(T, real)>, b: seq<(T, real)>)
    ensures Firsts(a + b) == Firsts(a) + Firsts(b)
  {
  }

  lemma {:induction false} InsertFirsts<T>(x: (T, real), s: seq<(T, real)>)
    ensures multiset(Firsts(Insert(x, s))) == multiset(Firsts(s)) + multiset{x.0}
  {
    if |s| > 0 && !(x.1 < s[0].1) {
      assert s == [s[0]] + s[1..];
      InsertFirsts(x, s[1..]);
      FirstsAppend([s[0]], Insert(x, s[1..]));
      FirstsAppend([s[0]], s[1..]);
    } else {
      FirstsAppend([x], s);
    }
  }

  /** Sorting the pairs reorders their items: the items are the same, as a multiset. */
  lemma {:induction false} SortByKeyItems<T>(s: seq<(T, real)>)
    ensures multiset(Firsts(SortByKey(s))) == multiset(Firsts(s))
  {
    if |s| > 0 {
      var front, x := s[..|s| - 1], s[|s| - 1];
      assert s == front + [x];
      var sorted := SortByKey(front);
      assert SortByKey(s) == Insert(x, sorted);
      SortByKeyItems(front);
      InsertFirsts(x, sorted);
      FirstsAppend(front, [x]);
      assert Firsts([x]) == [x.0];
      calc {
        multiset(Firsts(SortByKey(s)));
        multiset(Firsts(sorted)) + multiset{x.0};
        multiset(Firsts(front)) + multiset([x.0]);
        multiset(Firsts(front) + [x.0]);
        multiset(Firsts(s));
      }
    }
  }
}
