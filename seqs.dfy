/** List comprehensions `[x for x in s if p(x)]`, as a filter that keeps
    the order of `s`, and Python's stable `sorted(s, key=key)` for keys
    that are pairs of integers compared lexicographically. */
module Seqs {

  function Filter<T>(p: T -> bool, s: seq<T>): (r: seq<T>)
    ensures |r| <= |s|
  {
    if s == [] then []
    else Filter(p, s[..|s| - 1]) + (if p(s[|s| - 1]) then [s[|s| - 1]] else [])
  }

  /** The filter keeps exactly the elements that satisfy `p`. */
  lemma {:induction false} FilterMembers<T>(p: T -> bool, s: seq<T>)
    ensures forall x :: x in Filter(p, s) <==> x in s && p(x)
  {
    if s != [] {
      FilterMembers(p, s[..|s| - 1]);
      assert s == s[..|s| - 1] + [s[|s| - 1]];
    }
  }

  /** Filtering distributes over concatenation, so the kept elements stay
      in their original order. */
  lemma {:induction false} FilterAppend<T>(p: T -> bool, a: seq<T>, b: seq<T>)
    ensures Filter(p, a + b) == Filter(p, a) + Filter(p, b)
    decreases |b|
  {
    if b == [] {
      assert a + b == a;
    } else {
      var b' := b[..|b| - 1];
      assert (a + b)[..|a + b| - 1] == a + b';
      FilterAppend(p, a, b');
    }
  }

  lemma {:induction false} FilterCons<T>(p: T -> bool, x: T, s: seq<T>)
    ensures Filter(p, [x] + s) == (if p(x) then [x] else []) + Filter(p, s)
  {
    FilterAppend(p, [x], s);
    assert [x][..0] == [];
    assert Filter(p, [x]) == (if p(x) then [x] else []);
  }

  /** `f` takes a different value on every element of `s`. */
  predicate DistinctBy<T, K(==)>(f: T -> K, s: seq<T>) {
    forall i, j :: 0 <= i < j < |s| ==> f(s[i]) != f(s[j])
  }

  /** An element at two indices is counted at least twice. */
  lemma TwiceCounted<T>(s: seq<T>, i: nat, j: nat)
    requires i < j < |s| && s[i] == s[j]
    ensures multiset(s)[s[i]] >= 2
  {
    assert s == s[..j] + [s[j]] + s[j + 1..];
    assert s[i] in s[..j];
  }

  /** An element counted at least twice sits at two indices. */
  lemma TwiceFound<T>(s: seq<T>, x: T)
    requires multiset(s)[x] >= 2
    ensures exists p, q :: 0 <= p < q < |s| && s[p] == x && s[q] == x
  {
    assert x in multiset(s);
    var p :| 0 <= p < |s| && s[p] == x;
    assert s == s[..p] + [x] + s[p + 1..];
    assert multiset(s)[x] == multiset(s[..p])[x] + 1 + multiset(s[p + 1..])[x];
    if x in s[..p] {
      var q :| 0 <= q < p && s[..p][q] == x;
      assert s[q] == x;
    } else {
      assert x in multiset(s[p + 1..]);
      var q :| 0 <= q < |s[p + 1..]| && s[p + 1..][q] == x;
      assert s[p + 1 + q] == x;
    }
  }

  /** A permutation keeps the values of `f` pairwise distinct. */
  lemma DistinctByPermutation<T, K>(f: T -> K, a: seq<T>, b: seq<T>)
    requires multiset(a) == multiset(b) && DistinctBy(f, a)
    ensures DistinctBy(f, b)
  {
    forall i, j | 0 <= i < j < |b| ensures f(b[i]) != f(b[j]) {
      if b[i] == b[j] {
        TwiceCounted(b, i, j);
        TwiceFound(a, b[i]);
      } else {
        assert b[i] in multiset(a) && b[j] in multiset(a);
        var p :| 0 <= p < |a| && a[p] == b[i];
        var q :| 0 <= q < |a| && a[q] == b[j];
      }
    }
  }

  /** Sequences holding the same multiset have the same members. */
  lemma SameMembers<T>(a: seq<T>, b: seq<T>)
    requires multiset(a) == multiset(b)
    ensures forall x :: x in a <==> x in b
  {
    forall x ensures x in a <==> x in b {
      assert x in a <==> x in multiset(a);
      assert x in b <==> x in multiset(b);
    }
  }

  /** Python's tuple comparison `p <= q` on pairs. */
  predicate PairLe(p: (int, int), q: (int, int)) {
    p.0 < q.0 || (p.0 == q.0 && p.1 <= q.1)
  }

  predicate SortedBy<T>(key: T -> (int, int), s: seq<T>) {
    forall i, j :: 0 <= i < j < |s| ==> PairLe(key(s[i]), key(s[j]))
  }

  /** Inserts `x` before the first element whose key is not smaller, so
      `x` goes ahead of the elements with an equal key. */
  function InsertBy<T>(key: T -> (int, int), x: T, s: seq<T>): (r: seq<T>)
    ensures multiset(r) == multiset(s) + multiset{x}
  {
    if s == [] then [x]
    else if PairLe(key(x), key(s[0])) then [x] + s
    else
      assert s == [s[0]] + s[1..];
      [s[0]] + InsertBy(key, x, s[1..])
  }

  /** Insertion keeps a sorted sequence sorted. */
  lemma {:induction false} InsertSorted<T>(key: T -> (int, int), x: T, s: seq<T>)
    requires SortedBy(key, s)
    ensures SortedBy(key, InsertBy(key, x, s))
  {
    if s != [] && !PairLe(key(x), key(s[0])) {
      var rest := InsertBy(key, x, s[1..]);
      InsertSorted(key, x, s[1..]);
      var r := [s[0]] + rest;
      forall i, j | 0 <= i < j < |r| ensures PairLe(key(r[i]), key(r[j])) {
        if i == 0 {
          var y := r[j];
          assert y in multiset(rest);
          if y != x {
            assert y in s[1..];
            var m :| 0 <= m < |s[1..]| && s[1..][m] == y;
            assert s[m + 1] == y;
          }
        } else {
          assert r[i] == rest[i - 1] && r[j] == rest[j - 1];
        }
      }
    }
  }

  /** Python's `sorted(s, key=key)`: an insertion sort, which is stable. */
  function SortBy<T>(key: T -> (int, int), s: seq<T>): (r: seq<T>)
    ensures multiset(r) == multiset(s)
  {
    if s == [] then []
    else
      assert s == [s[0]] + s[1..];
      InsertBy(key, s[0], SortBy(key, s[1..]))
  }

  lemma {:induction false} SortSorted<T>(key: T -> (int, int), s: seq<T>)
    ensures SortedBy(key, SortBy(key, s))
  {
    if s != [] {
      SortSorted(key, s[1..]);
      InsertSorted(key, s[0], SortBy(key, s[1..]));
    }
  }

  /** The elements whose key is `k`. */
  function HasKey<T>(key: T -> (int, int), k: (int, int)): T -> bool {
    x => key(x) == k
  }

  lemma {:induction false} InsertStable<T>(key: T -> (int, int), x: T, s: seq<T>, k: (int, int))
    ensures Filter(HasKey(key, k), InsertBy(key, x, s)) == Filter(HasKey(key, k), [x] + s)
  {
    if s != [] && !PairLe(key(x), key(s[0])) {
      InsertStable(key, x, s[1..], k);
      InsertStableStep(key, x, s, k);
    }
  }

  /** The step of InsertStable where `x` passes over `s[0]`: the two have
      different keys, so they cannot both be kept. */
  lemma InsertStableStep<T>(key: T -> (int, int), x: T, s: seq<T>, k: (int, int))
    requires s != [] && !PairLe(key(x), key(s[0]))
    requires Filter(HasKey(key, k), InsertBy(key, x, s[1..])) == Filter(HasKey(key, k), [x] + s[1..])
    ensures Filter(HasKey(key, k), InsertBy(key, x, s)) == Filter(HasKey(key, k), [x] + s)
  {
    var p := HasKey(key, k);
    var rest := s[1..];
    var inserted := InsertBy(key, x, rest);
    var a := if p(s[0]) then [s[0]] else [];
    var b := if p(x) then [x] else [];
    var f := Filter(p, rest);
    assert InsertBy(key, x, s) == [s[0]] + inserted;
    calc {
      Filter(p, InsertBy(key, x, s));
      Filter(p, [s[0]] + inserted);
      { FilterCons(p, s[0], inserted); }
      a + Filter(p, inserted);
      { FilterCons(p, x, rest); }
      a + (b + f);
      { assert !(p(x) && p(s[0])); SwapAroundEmpty(a, b, f); }
      b + (a + f);
      { FilterCons(p, s[0], rest); HeadTail(s); }
      b + Filter(p, s);
      { FilterCons(p, x, s); }
      Filter(p, [x] + s);
    }
  }

  /** Two pieces of which one is empty can be swapped. */
  lemma SwapAroundEmpty<T>(a: seq<T>, b: seq<T>, f: seq<T>)
    requires a == [] || b == []
    ensures a + (b + f) == b + (a + f)
  {
  }

  /** A non-empty sequence is its head before its tail. */
  lemma HeadTail<T>(s: seq<T>)
    requires s != []
    ensures s == [s[0]] + s[1..]
  {
  }

  /** The sort is stable: the elements sharing any one key appear in the
      same order before and after sorting. */
  lemma {:induction false} SortStable<T>(key: T -> (int, int), s: seq<T>, k: (int, int))
    ensures Filter(HasKey(key, k), SortBy(key, s)) == Filter(HasKey(key, k), s)
  {
    if s != [] {
      var p := HasKey(key, k);
      var rest := s[1..];
      SortStable(key, rest, k);
      InsertStable(key, s[0], SortBy(key, rest), k);
      FilterCons(p, s[0], SortBy(key, rest));
      FilterCons(p, s[0], rest);
      assert s == [s[0]] + rest;
    }
  }
}
