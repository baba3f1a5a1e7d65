/**
 * The array operations the dashboard builds every view and every update
 * from: `filter`, summing `reduce` and a stable `sort` with a comparator.
 * Key and comparator arguments are named functions of the entity modules.
 */
module Seqs {

  /** `s.filter(x => key(x) === v)`: the elements whose key is v, in their original order. */
  function Where<T, K(==)>(s: seq<T>, key: T -> K, v: K): (r: seq<T>)
    ensures |r| <= |s|
    ensures forall i :: 0 <= i < |r| ==> r[i] in s && key(r[i]) == v
    ensures forall i :: 0 <= i < |s| && key(s[i]) == v ==> s[i] in r
  {
    if s == [] then []
    else (if key(s[0]) == v then [s[0]] else []) + Where(s[1..], key, v)
  }

  /** `s.filter(x => key(x) !== v)`: the elements whose key is not v, in their original order. */
  function Without<T, K(==)>(s: seq<T>, key: T -> K, v: K): (r: seq<T>)
    ensures |r| <= |s|
    ensures forall i :: 0 <= i < |r| ==> r[i] in s && key(r[i]) != v
    ensures forall i :: 0 <= i < |s| && key(s[i]) != v ==> s[i] in r
  {
    if s == [] then []
    else (if key(s[0]) != v then [s[0]] else []) + Without(s[1..], key, v)
  }

  /** A sequence is its part before k, its element k and its part after k. */
  lemma SplitAt<T>(s: seq<T>, k: nat)
    requires k < |s|
    ensures s == s[..k] + [s[k]] + s[k + 1..]
  {
  }

  /** A prefix one longer is the prefix followed by the next element. */
  lemma TakeOneMore<T>(s: seq<T>, i: nat)
    requires i < |s|
    ensures s[..i + 1] == s[..i] + [s[i]]
  {
  }

  /** Filtering a single element keeps it exactly when its key matches. */
  lemma WhereSingle<T, K>(x: T, key: T -> K, v: K)
    ensures Where([x], key, v) == if key(x) == v then [x] else []
  {
    assert [x][1..] == [];
  }

  /** No two elements share a key (the dashboard's "ids are unique" invariant). */
  ghost predicate UniqueBy<T, K>(s: seq<T>, key: T -> K)
  {
    forall i, j :: 0 <= i < j < |s| ==> key(s[i]) != key(s[j])
  }

  /** Filtering a concatenation filters each part and keeps them in order. */
  lemma {:induction false} WhereConcat<T, K>(a: seq<T>, b: seq<T>, key: T -> K, v: K)
    ensures Where(a + b, key, v) == Where(a, key, v) + Where(b, key, v)
  {
    if a != [] {
      assert (a + b)[0] == a[0] && (a + b)[1..] == a[1..] + b;
      WhereConcat(a[1..], b, key, v);
    } else {
      assert a + b == b;
    }
  }

  lemma {:induction false} WithoutConcat<T, K>(a: seq<T>, b: seq<T>, key: T -> K, v: K)
    ensures Without(a + b, key, v) == Without(a, key, v) + Without(b, key, v)
  {
    if a != [] {
      assert (a + b)[0] == a[0] && (a + b)[1..] == a[1..] + b;
      WithoutConcat(a[1..], b, key, v);
    } else {
      assert a + b == b;
    }
  }

  /** A filter every element passes returns its input unchanged. */
  lemma {:induction false} WhereEverything<T, K>(s: seq<T>, key: T -> K, v: K)
    requires forall i :: 0 <= i < |s| ==> key(s[i]) == v
    ensures Where(s, key, v) == s
  {
    if s != [] {
      WhereEverything(s[1..], key, v);
    }
  }

  lemma {:induction false} WithoutNothing<T, K>(s: seq<T>, key: T -> K, v: K)
    requires forall i :: 0 <= i < |s| ==> key(s[i]) != v
    ensures Without(s, key, v) == s
  {
    if s != [] {
      WithoutNothing(s[1..], key, v);
    }
  }

  /** Every element is kept by exactly one of the two complementary filters. */
  lemma {:induction false} WhereWithoutSplit<T, K>(s: seq<T>, key: T -> K, v: K)
    ensures |Where(s, key, v)| + |Without(s, key, v)| == |s|
  {
    if s != [] {
      WhereWithoutSplit(s[1..], key, v);
    }
  }

  /** Removing x's key from front + [x] + back removes x alone when no other element has that key. */
  lemma WithoutSplit<T, K>(front: seq<T>, x: T, back: seq<T>, key: T -> K)
    requires forall i :: 0 <= i < |front| ==> key(front[i]) != key(x)
    requires forall i :: 0 <= i < |back| ==> key(back[i]) != key(x)
    ensures Without(front + [x] + back, key, key(x)) == front + back
  {
    var v := key(x);
    WithoutConcat(front + [x], back, key, v);
    WithoutConcat(front, [x], key, v);
    WithoutNothing(front, key, v);
    WithoutNothing(back, key, v);
    assert Without([x], key, v) == [] by {
      assert [x][1..] == [];
    }
    assert front + [] == front;
  }

  /** With unique keys, removing the key of element k removes exactly that element. */
  lemma WithoutRemovesOne<T, K>(s: seq<T>, key: T -> K, k: nat)
    requires UniqueBy(s, key) && k < |s|
    ensures Without(s, key, key(s[k])) == s[..k] + s[k + 1..]
  {
    var front, back := s[..k], s[k + 1..];
    forall i | 0 <= i < |front| ensures key(front[i]) != key(s[k]) {
      assert front[i] == s[i];
    }
    forall i | 0 <= i < |back| ensures key(back[i]) != key(s[k]) {
      assert back[i] == s[k + 1 + i];
    }
    SplitAt(s, k);
    WithoutSplit(front, s[k], back, key);
  }

  /** Removing a key leaves no element with it and keeps the other keys unique. */
  lemma {:induction false} WithoutKeepsUnique<T, K>(s: seq<T>, key: T -> K, v: K)
    requires UniqueBy(s, key)
    ensures UniqueBy(Without(s, key, v), key)
  {
    if s != [] {
      WithoutKeepsUnique(s[1..], key, v);
      var rest := Without(s[1..], key, v);
      forall x | x in rest ensures key(x) != key(s[0]) {
        var j :| 0 <= j < |s[1..]| && s[1..][j] == x;
        assert s[j + 1] == x;
      }
    }
  }

  /** Appending an element with a new key keeps the keys unique. */
  lemma AppendKeepsUnique<T, K>(s: seq<T>, x: T, key: T -> K)
    requires UniqueBy(s, key)
    requires forall i :: 0 <= i < |s| ==> key(s[i]) != key(x)
    ensures UniqueBy(s + [x], key)
  {
    var r := s + [x];
    forall i, j | 0 <= i < j < |r| ensures key(r[i]) != key(r[j]) {
      assert r[i] == s[i];
    }
  }

  /** Prepending an element with a new key keeps the keys unique. */
  lemma PrependKeepsUnique<T, K>(x: T, s: seq<T>, key: T -> K)
    requires UniqueBy(s, key)
    requires forall i :: 0 <= i < |s| ==> key(s[i]) != key(x)
    ensures UniqueBy([x] + s, key)
  {
    var r := [x] + s;
    forall i, j | 0 <= i < j < |r| ensures key(r[i]) != key(r[j]) {
      assert r[j] == s[j - 1];
      if i > 0 {
        assert r[i] == s[i - 1];
      }
    }
  }

  /** `s.reduce((sum, x) => sum + f(x), 0)`. */
  function SumOf<T>(s: seq<T>, f: T -> int): int
  {
    if s == [] then 0 else f(s[0]) + SumOf(s[1..], f)
  }

  lemma {:induction false} SumOfConcat<T>(a: seq<T>, b: seq<T>, f: T -> int)
    ensures SumOf(a + b, f) == SumOf(a, f) + SumOf(b, f)
  {
    if a != [] {
      assert (a + b)[0] == a[0] && (a + b)[1..] == a[1..] + b;
      SumOfConcat(a[1..], b, f);
    } else {
      assert a + b == b;
    }
  }

  lemma {:induction false} SumOfNonNegative<T>(s: seq<T>, f: T -> int)
    requires forall i :: 0 <= i < |s| ==> f(s[i]) >= 0
    ensures SumOf(s, f) >= 0
  {
    if s != [] {
      SumOfNonNegative(s[1..], f);
    }
  }

  /** Taking one element out of a sequence takes it out of the multiset. */
  lemma MultisetWithoutAt<T>(b: seq<T>, k: nat)
    requires k < |b|
    ensures multiset(b[..k] + b[k + 1..]) == multiset(b) - multiset{b[k]}
  {
    SplitAt(b, k);
    assert multiset(b) == multiset(b[..k]) + multiset{b[k]} + multiset(b[k + 1..]);
  }

  /** Taking one element out of a sequence takes its value out of the sum. */
  lemma SumOfWithoutAt<T>(b: seq<T>, k: nat, f: T -> int)
    requires k < |b|
    ensures SumOf(b, f) == f(b[k]) + SumOf(b[..k] + b[k + 1..], f)
  {
    var front, back := b[..k], b[k + 1..];
    SplitAt(b, k);
    SumOfConcat(front + [b[k]], back, f);
    SumOfConcat(front, [b[k]], f);
    SumOfConcat(front, back, f);
    assert SumOf([b[k]], f) == f(b[k]) by {
      assert [b[k]][1..] == [];
    }
  }

  /** Reordering does not change a sum. */
  lemma {:induction false} SumOfPermutation<T>(a: seq<T>, b: seq<T>, f: T -> int)
    requires multiset(a) == multiset(b)
    ensures SumOf(a, f) == SumOf(b, f)
    decreases |a|
  {
    if a == [] {
      assert |b| == |multiset(b)| == 0;
    } else {
      assert a[0] in multiset(b);
      var k :| 0 <= k < |b| && b[k] == a[0];
      assert a == [a[0]] + a[1..];
      assert multiset(a[1..]) == multiset(a) - multiset{a[0]};
      MultisetWithoutAt(b, k);
      SumOfPermutation(a[1..], b[..k] + b[k + 1..], f);
      SumOfWithoutAt(b, k, f);
    }
  }

  /**
   * One step of a stable insertion sort: x moves left past every element the
   * comparator puts after it (`after(a, b)` stands for `compare(a, b) > 0`).
   */
  function Insert<T>(r: seq<T>, x: T, after: (T, T) -> bool): (o: seq<T>)
    ensures |o| == |r| + 1
    ensures multiset(o) == multiset(r) + multiset{x}
  {
    if r == [] then [x]
    else if after(r[|r| - 1], x) then
      assert r == r[..|r| - 1] + [r[|r| - 1]];
      Insert(r[..|r| - 1], x, after) + [r[|r| - 1]]
    else r + [x]
  }

  /**
   * `[...s].sort(compare)`: a sorted copy. ECMAScript requires the sort to be
   * stable; for a consistent comparator this is the only stable outcome.
   */
  function SortWith<T>(s: seq<T>, after: (T, T) -> bool): (o: seq<T>)
    ensures |o| == |s|
    ensures multiset(o) == multiset(s)
  {
    if s == [] then []
    else
      assert s == s[..|s| - 1] + [s[|s| - 1]];
      Insert(SortWith(s[..|s| - 1], after), s[|s| - 1], after)
  }

  /** Every element is related by le to every later one. */
  ghost predicate SortedBy<T>(s: seq<T>, le: (T, T) -> bool)
  {
    forall i, j :: 0 <= i < j < |s| ==> le(s[i], s[j])
  }

  /**
   * The comparator agrees with the order le on the elements of s: whatever it
   * moves later is le-before, whatever it leaves in place is le-after.
   */
  ghost predicate Compatible<T>(s: seq<T>, after: (T, T) -> bool, le: (T, T) -> bool)
  {
    forall a, b :: a in s && b in s ==> (after(a, b) ==> le(b, a)) && (!after(a, b) ==> le(a, b))
  }

  ghost predicate TransitiveOn<T>(s: seq<T>, le: (T, T) -> bool)
  {
    forall a, b, c :: a in s && b in s && c in s && le(a, b) && le(b, c) ==> le(a, c)
  }

  /** An element le-after every element of a sorted sequence can follow them. */
  lemma AppendGreatest<T>(o: seq<T>, z: T, le: (T, T) -> bool)
    requires SortedBy(o, le) && forall y :: y in o ==> le(y, z)
    ensures SortedBy(o + [z], le)
  {
    forall i, j | 0 <= i < j < |o + [z]| ensures le((o + [z])[i], (o + [z])[j]) {
      if j == |o| {
        assert (o + [z])[i] in o;
      }
    }
  }

  /** With le transitive, an element le-after the last of a sorted sequence is le-after all of it. */
  lemma AfterLastAfterAll<T>(r: seq<T>, x: T, le: (T, T) -> bool)
    requires r != [] && SortedBy(r, le) && le(r[|r| - 1], x) && TransitiveOn(r + [x], le)
    ensures forall y :: y in r ==> le(y, x)
  {
    forall y | y in r ensures le(y, x) {
      var i :| 0 <= i < |r| && r[i] == y;
      if i < |r| - 1 {
        assert le(r[i], r[|r| - 1]);
        assert r[i] in r + [x] && r[|r| - 1] in r + [x] && x in r + [x];
      }
    }
  }

  lemma {:induction false} InsertSorted<T>(r: seq<T>, x: T, after: (T, T) -> bool, le: (T, T) -> bool)
    requires SortedBy(r, le)
    requires Compatible(r + [x], after, le) && TransitiveOn(r + [x], le)
    ensures SortedBy(Insert(r, x, after), le)
    decreases |r|
  {
    if r != [] {
      var init, last := r[..|r| - 1], r[|r| - 1];
      assert r == init + [last];
      assert last in r + [x] && x in r + [x];
      if after(last, x) {
        assert le(x, last);
        assert forall y :: y in init + [x] ==> y in r + [x];
        InsertSorted(init, x, after, le);
        var o := Insert(init, x, after);
        forall y | y in o ensures le(y, last) {
          assert y in multiset(o);
          if y != x {
            assert y in multiset(init);
            var i :| 0 <= i < |init| && init[i] == y;
            assert r[i] == y;
          }
        }
        AppendGreatest(o, last, le);
      } else {
        AfterLastAfterAll(r, x, le);
        AppendGreatest(r, x, le);
      }
    }
  }

  /** Sorting with a comparator compatible with a transitive le yields an le-sorted sequence. */
  lemma {:induction false} SortWithSorted<T>(s: seq<T>, after: (T, T) -> bool, le: (T, T) -> bool)
    requires Compatible(s, after, le) && TransitiveOn(s, le)
    ensures SortedBy(SortWith(s, after), le)
  {
    if s != [] {
      var init, x := s[..|s| - 1], s[|s| - 1];
      assert s == init + [x];
      assert forall y :: y in init ==> y in s;
      SortWithSorted(init, after, le);
      var r := SortWith(init, after);
      forall y | y in r + [x] ensures y in s {
        if y != x {
          assert y in multiset(r);
          assert y in multiset(init);
        }
      }
      InsertSorted(r, x, after, le);
    }
  }

  /** No element occurs twice. */
  ghost predicate Distinct<T>(s: seq<T>)
  {
    forall i, j :: 0 <= i < j < |s| ==> s[i] != s[j]
  }

  lemma {:induction false} DistinctCountsOnce<T>(s: seq<T>, x: T)
    requires Distinct(s)
    ensures multiset(s)[x] <= 1
  {
    if s != [] {
      assert s == [s[0]] + s[1..];
      DistinctCountsOnce(s[1..], x);
      if x == s[0] {
        assert x !in s[1..];
      }
    }
  }

  /** A permutation of a sequence without repetitions has no repetitions either. */
  lemma DistinctPermutation<T>(a: seq<T>, b: seq<T>)
    requires Distinct(a) && multiset(a) == multiset(b)
    ensures Distinct(b)
  {
    forall i, j | 0 <= i < j < |b| ensures b[i] != b[j] {
      if b[i] == b[j] {
        assert b == b[..i] + [b[i]] + b[i + 1..j] + [b[j]] + b[j + 1..];
        assert multiset(b)[b[i]] >= 2;
        DistinctCountsOnce(a, b[i]);
        assert false;
      }
    }
  }

  /** A permutation of a sequence with unique keys has unique keys. */
  lemma UniqueByPermutation<T, K>(a: seq<T>, b: seq<T>, key: T -> K)
    requires UniqueBy(a, key) && multiset(a) == multiset(b)
    ensures UniqueBy(b, key)
  {
    assert Distinct(a) by {
      forall i, j | 0 <= i < j < |a| ensures a[i] != a[j] {
        assert key(a[i]) != key(a[j]);
      }
    }
    DistinctPermutation(a, b);
    forall i, j | 0 <= i < j < |b| ensures key(b[i]) != key(b[j]) {
      assert b[i] in multiset(a) && b[j] in multiset(a);
      var p :| 0 <= p < |a| && a[p] == b[i];
      var q :| 0 <= q < |a| && a[q] == b[j];
      assert p != q;
      if p < q {
        assert key(a[p]) != key(a[q]);
      } else {
        assert key(a[q]) != key(a[p]);
      }
    }
  }
}
