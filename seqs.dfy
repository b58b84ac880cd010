/** Facts about Python lists, modelled as Dafny sequences. */
module Seqs {
  import opened Wrappers

  /** No element occurs twice (objects are compared by identity, as Python does by default). */
  predicate NoDup<T(==)>(s: seq<T>)
  {
    forall i, j :: 0 <= i < j < |s| ==> s[i] != s[j]
  }

  /** No element occurs twice in a multiset. */
  ghost predicate Distinct<T>(m: multiset<T>)
  {
    forall x | x in m :: m[x] <= 1
  }

  lemma {:induction false} NoDupIsDistinct<T>(s: seq<T>)
    ensures NoDup(s) <==> Distinct(multiset(s))
  {
    if |s| > 0 {
      var t := s[..|s| - 1];
      var x := s[|s| - 1];
      assert s == t + [x];
      NoDupIsDistinct(t);
      if NoDup(s) {
        assert NoDup(t);
        assert x !in t;
        forall y | y in multiset(s) ensures multiset(s)[y] <= 1 {
          assert multiset(s)[y] == multiset(t)[y] + multiset([x])[y];
        }
      }
      if Distinct(multiset(s)) {
        forall y | y in multiset(t) ensures multiset(t)[y] <= 1 {
          assert multiset(s)[y] == multiset(t)[y] + multiset([x])[y];
        }
        assert x !in t by {
          assert multiset(s)[x] == multiset(t)[x] + 1;
        }
        forall i, j | 0 <= i < j < |s| ensures s[i] != s[j] {
          if j == |s| - 1 {
            assert s[i] == t[i];
          } else {
            assert s[i] == t[i] && s[j] == t[j];
          }
        }
      }
    }
  }

  /** A permutation of a duplicate-free list is duplicate-free. */
  lemma PermutationKeepsNoDup<T>(s: seq<T>, t: seq<T>)
    requires multiset(s) == multiset(t) && NoDup(s)
    ensures NoDup(t)
  {
    NoDupIsDistinct(s);
    NoDupIsDistinct(t);
  }

  /** The elements of s whose flag is set, in their original order. */
  function Select<T>(s: seq<T>, keep: seq<bool>): (r: seq<T>)
    requires |keep| == |s|
    ensures |r| <= |s|
  {
    if |s| == 0 then []
    else Select(s[..|s| - 1], keep[..|s| - 1]) + (if keep[|s| - 1] then [s[|s| - 1]] else [])
  }

  /** The lists of ss one after another. */
  function Concat<T>(ss: seq<seq<T>>): (r: seq<T>)
  {
    if |ss| == 0 then [] else Concat(ss[..|ss| - 1]) + ss[|ss| - 1]
  }

  /** Selecting over one more element appends it exactly when it is kept. */
  lemma SelectSnoc<T>(s: seq<T>, keep: seq<bool>, x: T, b: bool)
    requires |keep| == |s|
    ensures Select(s + [x], keep + [b]) == Select(s, keep) + (if b then [x] else [])
  {
    assert (s + [x])[..|s|] == s;
    assert (keep + [b])[..|s|] == keep;
  }

  /** Selecting over a prefix one element longer appends that element exactly when it is kept. */
  lemma SelectPrefixStep<T>(s: seq<T>, keep: seq<bool>, i: nat, b: bool)
    requires i < |s| && |keep| == i
    ensures b ==> Select(s[..i + 1], keep + [b]) == Select(s[..i], keep) + [s[i]]
    ensures !b ==> Select(s[..i + 1], keep + [b]) == Select(s[..i], keep)
  {
    assert s[..i + 1] == s[..i] + [s[i]];
    SelectSnoc(s[..i], keep, s[i], b);
    assert Select(s[..i], keep) + [] == Select(s[..i], keep);
  }

  /** Selecting over prefixes of both lists one element longer appends that element exactly when it is kept. */
  lemma SelectTakeStep<T>(s: seq<T>, keep: seq<bool>, i: nat)
    requires i < |s| && |keep| == |s|
    ensures Select(s[..i + 1], keep[..i + 1]) == Select(s[..i], keep[..i]) + (if keep[i] then [s[i]] else [])
  {
    assert keep[..i + 1] == keep[..i] + [keep[i]];
    SelectPrefixStep(s, keep[..i], i, keep[i]);
  }

  /** The selected elements are some of the elements. */
  lemma {:induction false} SelectSubMultiset<T>(s: seq<T>, keep: seq<bool>)
    requires |keep| == |s|
    ensures multiset(Select(s, keep)) <= multiset(s)
  {
    if |s| > 0 {
      SelectSubMultiset(s[..|s| - 1], keep[..|s| - 1]);
      assert s == s[..|s| - 1] + [s[|s| - 1]];
    }
  }

  /** Every flagged element is selected. */
  lemma {:induction false} SelectContains<T>(s: seq<T>, keep: seq<bool>, i: nat)
    requires |keep| == |s| && i < |s| && keep[i]
    ensures s[i] in Select(s, keep)
  {
    var n := |s| - 1;
    if i < n {
      SelectContains(s[..n], keep[..n], i);
    }
  }

  /** Every selected element is a flagged element. */
  lemma {:induction false} SelectKept<T>(s: seq<T>, keep: seq<bool>, k: nat)
    requires |keep| == |s| && k < |Select(s, keep)|
    ensures exists j :: 0 <= j < |s| && keep[j] && s[j] == Select(s, keep)[k]
  {
    var n := |s| - 1;
    var r0 := Select(s[..n], keep[..n]);
    if k < |r0| {
      SelectKept(s[..n], keep[..n], k);
      var j :| 0 <= j < n && keep[..n][j] && s[..n][j] == r0[k];
      assert s[j] == Select(s, keep)[k];
    } else {
      assert keep[n] && s[n] == Select(s, keep)[k];
    }
  }

  /** In a list without duplicates, an element whose flag is clear is not selected. */
  lemma SelectSkips<T>(s: seq<T>, keep: seq<bool>, i: nat)
    requires |keep| == |s| && NoDup(s) && i < |s| && !keep[i]
    ensures s[i] !in Select(s, keep)
  {
    if s[i] in Select(s, keep) {
      var k :| 0 <= k < |Select(s, keep)| && Select(s, keep)[k] == s[i];
      SelectKept(s, keep, k);
    }
  }

  /** Lists with the same elements, counted with repeats, have the same members. */
  lemma SameMembers<T>(s: seq<T>, t: seq<T>)
    requires multiset(s) == multiset(t)
    ensures forall x :: x in s <==> x in t
  {
    forall x ensures x in s <==> x in t {
      assert x in s <==> x in multiset(s);
      assert x in t <==> x in multiset(t);
    }
  }

  /** A reordering of t, whose elements all lie in s, has its elements in s too. */
  lemma ReorderedWithin<T>(r: seq<T>, t: seq<T>, s: seq<T>)
    requires multiset(r) == multiset(t) && forall i :: 0 <= i < |t| ==> t[i] in s
    ensures forall i :: 0 <= i < |r| ==> r[i] in s
  {
    forall i | 0 <= i < |r| ensures r[i] in s {
      assert r[i] in multiset(t);
      var k :| 0 <= k < |t| && t[k] == r[i];
    }
  }

  /** A sub-multiset of a multiset without repeats has no repeats. */
  lemma SubDistinct<T>(a: multiset<T>, b: multiset<T>)
    requires a <= b && Distinct(b)
    ensures Distinct(a)
  {
    forall x | x in a ensures a[x] <= 1 {
      assert a[x] <= b[x];
    }
  }

  /** A list whose elements are some of a duplicate-free list's is duplicate-free. */
  lemma SubNoDup<T>(s: seq<T>, t: seq<T>)
    requires multiset(s) <= multiset(t) && NoDup(t)
    ensures NoDup(s)
  {
    NoDupIsDistinct(s);
    NoDupIsDistinct(t);
    SubDistinct(multiset(s), multiset(t));
  }

  /** Two multisets without repeats and without common elements add up to one without repeats. */
  lemma DistinctSum<T>(a: multiset<T>, b: multiset<T>)
    requires Distinct(a) && Distinct(b)
    requires forall x :: x in b ==> x !in a
    ensures Distinct(a + b)
  {
    forall x | x in a + b ensures (a + b)[x] <= 1 {
      assert (a + b)[x] == a[x] + b[x];
    }
  }

  /** Two duplicate-free lists without common elements make a duplicate-free list. */
  lemma NoDupAppend<T>(a: seq<T>, b: seq<T>)
    requires NoDup(a) && NoDup(b)
    requires forall i :: 0 <= i < |b| ==> b[i] !in a
    ensures NoDup(a + b)
  {
    forall i, j | 0 <= i < j < |a + b| ensures (a + b)[i] != (a + b)[j] {
      if j >= |a| && i < |a| {
        assert (a + b)[j] == b[j - |a|] && (a + b)[i] == a[i];
      }
    }
  }

  /** The elements that satisfy left and those that do not, each in their original order. */
  function Partition<T>(s: seq<T>, left: T -> bool): (r: (seq<T>, seq<T>))
    ensures forall i :: 0 <= i < |r.0| ==> left(r.0[i])
    ensures forall i :: 0 <= i < |r.1| ==> !left(r.1[i])
    ensures multiset(r.0) + multiset(r.1) == multiset(s)
  {
    if |s| == 0 then ([], [])
    else
      var rest := Partition(s[..|s| - 1], left);
      var x := s[|s| - 1];
      assert s == s[..|s| - 1] + [x];
      if left(x) then (rest.0 + [x], rest.1) else (rest.0, rest.1 + [x])
  }

  /** The elements of s that satisfy keep, in their order in s. */
  function Filter<T(==)>(s: seq<T>, keep: T -> bool): (r: seq<T>)
    ensures forall i :: 0 <= i < |r| ==> keep(r[i])
    ensures forall i :: 0 <= i < |r| ==> r[i] in s
    ensures forall i :: 0 <= i < |s| && keep(s[i]) ==> s[i] in r
    ensures NoDup(s) ==> NoDup(r)
  {
    if |s| == 0 then []
    else
      var front := Filter(s[..|s| - 1], keep);
      var x := s[|s| - 1];
      assert s == s[..|s| - 1] + [x];
      assert NoDup(s) ==> NoDup(s[..|s| - 1]) && x !in s[..|s| - 1];
      if keep(x) then front + [x] else front
  }

  /** The first components of a list of pairs: the items of dict.items(), or the rows of keys. */
  function Firsts<A, B>(s: seq<(A, B)>): (r: seq<A>)
    ensures |r| == |s| && forall i :: 0 <= i < |s| ==> r[i] == s[i].0
  {
    seq(|s|, i requires 0 <= i < |s| => s[i].0)
  }

  /** The second components of a list of pairs. */
  function Seconds<A, B>(s: seq<(A, B)>): (r: seq<B>)
    ensures |r| == |s| && forall i :: 0 <= i < |s| ==> r[i] == s[i].1
  {
    seq(|s|, i requires 0 <= i < |s| => s[i].1)
  }

  /** Python's list.remove(x): drop the first occurrence of x, or fail (ValueError) when x is absent. */
  function RemoveFirst<T(==)>(s: seq<T>, x: T): (r: Option<seq<T>>)
    ensures r.Some? <==> x in s
    ensures r.Some? ==> multiset(r.value) + multiset{x} == multiset(s)
  {
    if |s| == 0 then None
    else if s[0] == x then
      assert s == [s[0]] + s[1..];
      Some(s[1..])
    else
      match RemoveFirst(s[1..], x)
      case None => None
      case Some(rest) =>
        assert s == [s[0]] + s[1..];
        Some([s[0]] + rest)
  }

  /** Cutting position k out of s[1..] and putting s[0] back in front cuts position k + 1 out of s. */
  lemma CutAfterHead<T>(s: seq<T>, k: nat)
    requires k + 1 < |s|
    ensures [s[0]] + (s[1..][..k] + s[1..][k + 1..]) == s[..k + 1] + s[k + 2..]
  {
    assert s[..k + 1] == [s[0]] + s[1..][..k];
    assert s[k + 2..] == s[1..][k + 1..];
  }

  /** list.remove(x) drops the element at the position of the first x and keeps the rest in order. */
  lemma {:induction false} RemoveFirstAt<T>(s: seq<T>, x: T)
    requires x in s
    ensures IndexOf(s, x) < |s|
    ensures RemoveFirst(s, x) == Some(s[..IndexOf(s, x)] + s[IndexOf(s, x) + 1..])
  {
    IndexOfFound(s, x);
    if s[0] == x {
      assert s[..0] + s[1..] == s[1..];
    } else {
      var t := s[1..];
      assert x in t;
      RemoveFirstAt(t, x);
      var k := IndexOf(t, x);
      assert RemoveFirst(s, x) == Some([s[0]] + (t[..k] + t[k + 1..]));
      CutAfterHead(s, k);
    }
  }

  /** Sum of a list of reals. */
  function SumReal(s: seq<real>): real
  {
    if |s| == 0 then 0.0 else SumReal(s[..|s| - 1]) + s[|s| - 1]
  }

  lemma SumRealSnoc(s: seq<real>, x: real)
    ensures SumReal(s + [x]) == SumReal(s) + x
  {
    assert (s + [x])[..|s|] == s;
  }

  lemma {:induction false} SumRealUpdate(s: seq<real>, i: nat, v: real)
    requires i < |s|
    ensures SumReal(s[i := v]) == SumReal(s) - s[i] + v
  {
    var n := |s| - 1;
    if i < n {
      SumRealUpdate(s[..n], i, v);
      assert s[i := v][..n] == s[..n][i := v];
    } else {
      assert s[i := v][..n] == s[..n];
    }
  }

  /** Multiset union of a list of multisets. */
  function Union<T>(ms: seq<multiset<T>>): multiset<T>
  {
    if |ms| == 0 then multiset{} else Union(ms[..|ms| - 1]) + ms[|ms| - 1]
  }

  lemma {:induction false} UnionUpdate<T>(ms: seq<multiset<T>>, i: nat, m: multiset<T>)
    requires i < |ms|
    ensures Union(ms[i := m]) + ms[i] == Union(ms) + m
  {
    var n := |ms| - 1;
    if i < n {
      var front := ms[..n];
      UnionUpdate(front, i, m);
      assert ms[i := m][..n] == front[i := m];
      assert ms[i := m][n] == ms[n];
      calc {
        Union(ms[i := m]) + ms[i];
        Union(front[i := m]) + ms[n] + ms[i];
        Union(front[i := m]) + front[i] + ms[n];
        Union(front) + m + ms[n];
        Union(ms) + m;
      }
    } else {
      assert ms[i := m][..n] == ms[..n];
    }
  }

  /** Adding one element to one member adds it once to the union. */
  lemma UnionAddOne<T>(ms: seq<multiset<T>>, j: nat, x: T, ms': seq<multiset<T>>)
    requires j < |ms| && ms' == ms[j := ms[j] + multiset{x}]
    ensures Union(ms') == Union(ms) + multiset{x}
  {
    UnionUpdate(ms, j, ms[j] + multiset{x});
  }

  /** Adding to one member of a list of multisets adds to their union. */
  lemma UnionGrow<T>(ms: seq<multiset<T>>, j: nat, born: multiset<T>)
    requires j < |ms|
    ensures Union(ms[j := ms[j] + born]) == Union(ms) + born
  {
    var grown := ms[j := ms[j] + born];
    UnionUpdate(ms, j, ms[j] + born);
    assert Union(grown) + ms[j] == Union(ms) + born + ms[j];
    MinusOfSum(Union(grown), ms[j], Union(ms) + born + ms[j]);
    MinusOfSum(Union(ms) + born, ms[j], Union(ms) + born + ms[j]);
  }

  /** Parts of a multiset without repeats have no common elements. */
  lemma DistinctParts<T>(a: multiset<T>, b: multiset<T>)
    requires Distinct(a + b)
    ensures forall x :: x in b ==> x !in a
  {
    forall x | x in b ensures x !in a {
      assert (a + b)[x] == a[x] + b[x];
    }
  }

  /** What is left after taking xs out of a list without repeats: its own elements, none of xs. */
  lemma TakenOut<T>(s: seq<T>, t: seq<T>, xs: seq<T>)
    requires multiset(s) + multiset(xs) == multiset(t) && NoDup(t)
    ensures forall i :: 0 <= i < |s| ==> s[i] in t
    ensures forall k :: 0 <= k < |xs| ==> xs[k] !in s
  {
    NoDupIsDistinct(t);
    DistinctParts(multiset(s), multiset(xs));
    forall i | 0 <= i < |s| ensures s[i] in t {
      assert s[i] in multiset(t);
    }
    forall k | 0 <= k < |xs| ensures xs[k] !in s {
      assert xs[k] in multiset(xs);
    }
  }

  lemma MinusOfSum<T>(a: multiset<T>, m: multiset<T>, b: multiset<T>)
    requires a + m == b
    ensures a == b - m && m <= b
  {
    forall x ensures a[x] == (b - m)[x] {
      assert (a + m)[x] == b[x];
    }
  }

  /** Taking some elements out of one member takes them out of the union. */
  lemma UnionTakeOut<T>(ms: seq<multiset<T>>, j: nat, m: multiset<T>, ms': seq<multiset<T>>)
    requires j < |ms| && m <= ms[j] && ms' == ms[j := ms[j] - m]
    ensures Union(ms') + m == Union(ms)
  {
    var rest := ms[j] - m;
    UnionUpdate(ms, j, rest);
    assert ms[j] == rest + m;
    forall x ensures (Union(ms') + m)[x] == Union(ms)[x] {
      assert (Union(ms') + ms[j])[x] == (Union(ms) + rest)[x];
    }
  }

  lemma {:induction false} UnionContains<T>(ms: seq<multiset<T>>, i: nat)
    requires i < |ms|
    ensures ms[i] <= Union(ms)
  {
    var n := |ms| - 1;
    if i < n {
      UnionContains(ms[..n], i);
    }
  }

  /** Two different entries are both part of the union. */
  lemma {:induction false} UnionContainsTwo<T>(ms: seq<multiset<T>>, i: nat, j: nat)
    requires i < j < |ms|
    ensures ms[i] + ms[j] <= Union(ms)
  {
    var n := |ms| - 1;
    if j < n {
      UnionContainsTwo(ms[..n], i, j);
    } else {
      UnionContains(ms[..n], i);
    }
  }

  /** Whatever is in the union is in one of its entries. */
  lemma {:induction false} UnionMember<T>(ms: seq<multiset<T>>, x: T)
    requires x in Union(ms)
    ensures exists j :: 0 <= j < |ms| && x in ms[j]
  {
    var n := |ms| - 1;
    if x !in ms[n] {
      UnionMember(ms[..n], x);
      var j :| 0 <= j < n && x in ms[..n][j];
      assert x in ms[j];
    }
  }

  /** The list without repeated elements, each kept at its first occurrence (building a dict from it). */
  function Dedup<T(==)>(s: seq<T>): (r: seq<T>)
    ensures forall i :: 0 <= i < |r| ==> r[i] in s
    ensures forall i :: 0 <= i < |s| ==> s[i] in r
    ensures NoDup(r)
  {
    if |s| == 0 then []
    else
      var front := Dedup(s[..|s| - 1]);
      assert forall i :: 0 <= i < |s| - 1 ==> s[i] == s[..|s| - 1][i];
      if s[|s| - 1] in front then front else front + [s[|s| - 1]]
  }

  lemma {:induction false} DedupOfDistinct<T>(s: seq<T>)
    requires NoDup(s)
    ensures Dedup(s) == s
  {
    if |s| > 0 {
      var front := s[..|s| - 1];
      DedupOfDistinct(front);
      assert s[|s| - 1] !in front;
      assert s == front + [s[|s| - 1]];
    }
  }

  /** Exchange two positions (x[i], x[j] = x[j], x[i]). */
  function Swap<T>(s: seq<T>, i: nat, j: nat): (r: seq<T>)
    requires i < |s| && j < |s|
    ensures |r| == |s| && multiset(r) == multiset(s)
  {
    var t := s[i := s[j]][j := s[i]];
    assert multiset(t) == multiset(s) by {
      if i != j {
        assert multiset(s[i := s[j]]) == multiset(s) - multiset{s[i]} + multiset{s[j]};
      }
    }
    t
  }

  /** The position of the first x in s, or |s| when s has none. */
  function IndexOf<T(==)>(s: seq<T>, x: T): (i: nat)
    ensures i <= |s| && (i < |s| ==> s[i] == x)
  {
    if |s| == 0 then 0 else if s[0] == x then 0 else 1 + IndexOf(s[1..], x)
  }

  /** Looking x up in a prefix of s that holds it finds the same position. */
  lemma {:induction false} IndexOfPrefix<T>(s: seq<T>, m: nat, x: T)
    requires m <= |s| && x in s[..m]
    ensures IndexOf(s[..m], x) == IndexOf(s, x)
  {
    if s[0] != x {
      assert s[..m][1..] == s[1..][..m - 1];
      IndexOfPrefix(s[1..], m - 1, x);
    }
  }

  /** In a list without repeats, the element at i is found at i. */
  lemma IndexOfAt<T>(s: seq<T>, i: nat)
    requires NoDup(s) && i < |s|
    ensures IndexOf(s, s[i]) == i
  {
    IndexOfFound(s, s[i]);
  }

  /** Filter on a non-empty list: the filtered front, then the last element if it is kept. */
  lemma FilterSnoc<T>(s: seq<T>, keep: T -> bool)
    requires |s| > 0
    ensures Filter(s, keep) ==
      Filter(s[..|s| - 1], keep) + (if keep(s[|s| - 1]) then [s[|s| - 1]] else [])
  {
  }

  /** Positions found in a prefix of s are those found in s. */
  lemma PrefixPositions<T>(s: seq<T>, n: nat, front: seq<T>)
    requires n <= |s| && forall a :: 0 <= a < |front| ==> front[a] in s[..n]
    ensures forall a :: 0 <= a < |front| ==> IndexOf(s, front[a]) == IndexOf(s[..n], front[a]) < n
  {
    forall a | 0 <= a < |front| ensures IndexOf(s, front[a]) == IndexOf(s[..n], front[a]) < n {
      IndexOfPrefix(s, n, front[a]);
      IndexOfFound(s[..n], front[a]);
    }
  }

  /** The elements of r occur in s in the order they have in r. */
  ghost predicate InOrderOf<T>(r: seq<T>, s: seq<T>)
  {
    forall i, j :: 0 <= i < j < |r| ==> IndexOf(s, r[i]) < IndexOf(s, r[j])
  }

  /** Filter keeps the order of s: a kept element comes before every later kept one in s. */
  lemma {:induction false} FilterKeepsOrder<T>(s: seq<T>, keep: T -> bool)
    ensures NoDup(s) ==> InOrderOf(Filter(s, keep), s)
  {
    if |s| > 0 && NoDup(s) {
      var n := |s| - 1;
      var front := Filter(s[..n], keep);
      assert NoDup(s[..n]);
      FilterKeepsOrder(s[..n], keep);
      PrefixPositions(s, n, front);
      IndexOfAt(s, n);
      FilterSnoc(s, keep);
      var r := Filter(s, keep);
      forall i, j | 0 <= i < j < |r| ensures IndexOf(s, r[i]) < IndexOf(s, r[j]) {
        assert r[i] == front[i];
        if j < |front| {
          assert r[j] == front[j];
        } else {
          assert r[j] == s[n];
        }
      }
    }
  }

  /** An element of s is found. */
  lemma {:induction false} IndexOfFound<T>(s: seq<T>, x: T)
    requires x in s
    ensures IndexOf(s, x) < |s|
  {
    if s[0] != x {
      assert x in s[1..];
      IndexOfFound(s[1..], x);
    }
  }
}
