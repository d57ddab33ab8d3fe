/**
 * Sequence operations that the application uses through JavaScript's array
 * library: `filter`, `map` and the stable `sort` (ECMAScript 2019 and later
 * require `Array.prototype.sort` to be stable).
 */
module Seqs {

  /** `a` can be obtained from `b` by deleting elements: same elements, same relative order. */
  ghost predicate IsSubsequence<T>(a: seq<T>, b: seq<T>)
    decreases |b|
  {
    if a == [] then true
    else if b == [] then false
    else (a[0] == b[0] && IsSubsequence(a[1..], b[1..])) || IsSubsequence(a, b[1..])
  }

  /** `Array.prototype.filter`: the elements of `s` satisfying `p`, in their order. */
  function Filter<T>(s: seq<T>, p: T -> bool): (r: seq<T>)
    ensures |r| <= |s|
  {
    if s == [] then []
    else if p(s[0]) then [s[0]] + Filter(s[1..], p)
    else Filter(s[1..], p)
  }

  /**
   * What `Filter` keeps: every element satisfying `p` as often as it occurs in
   * `s`, and nothing else.
   */
  lemma {:induction false} FilterMultiset<T>(s: seq<T>, p: T -> bool, x: T)
    ensures multiset(Filter(s, p))[x] == if p(x) then multiset(s)[x] else 0
  {
    if s != [] {
      assert s == [s[0]] + s[1..];
      FilterMultiset(s[1..], p, x);
    }
  }

  /** The members of a filtered sequence are the members of `s` that satisfy `p`. */
  lemma FilterMembers<T>(s: seq<T>, p: T -> bool, x: T)
    ensures x in Filter(s, p) <==> x in s && p(x)
  {
    FilterMultiset(s, p, x);
    assert x in Filter(s, p) <==> multiset(Filter(s, p))[x] > 0;
    assert x in s <==> multiset(s)[x] > 0;
  }

  /** `Filter` keeps the relative order of what it keeps. */
  lemma {:induction false} FilterSubsequence<T>(s: seq<T>, p: T -> bool)
    ensures IsSubsequence(Filter(s, p), s)
  {
    if s != [] {
      FilterSubsequence(s[1..], p);
    }
  }

  /** Filtering distributes over concatenation. */
  lemma {:induction false} FilterConcat<T>(a: seq<T>, b: seq<T>, p: T -> bool)
    ensures Filter(a + b, p) == Filter(a, p) + Filter(b, p)
  {
    if a == [] {
      assert a + b == b;
    } else {
      assert (a + b)[0] == a[0];
      assert (a + b)[1..] == a[1..] + b;
      FilterConcat(a[1..], b, p);
    }
  }

  /** A filter that every element passes keeps the whole sequence. */
  lemma {:induction false} FilterKeepsAll<T>(s: seq<T>, p: T -> bool)
    requires forall i :: 0 <= i < |s| ==> p(s[i])
    ensures Filter(s, p) == s
  {
    if s != [] {
      FilterKeepsAll(s[1..], p);
    }
  }

  /** Two tests that agree on every element of `s` keep the same elements. */
  lemma {:induction false} FilterSame<T>(s: seq<T>, p: T -> bool, q: T -> bool)
    requires forall i :: 0 <= i < |s| ==> p(s[i]) == q(s[i])
    ensures Filter(s, p) == Filter(s, q)
  {
    if s != [] {
      FilterSame(s[1..], p, q);
    }
  }

  /**
   * When every element passing `p` passes exactly one of `q` and `r`, the
   * elements passing `p` split into those passing `q` and those passing `r`.
   */
  lemma {:induction false} FilterPartition<T>(s: seq<T>, p: T -> bool, q: T -> bool, r: T -> bool)
    requires forall i :: 0 <= i < |s| ==> (p(s[i]) <==> q(s[i]) || r(s[i]))
    requires forall i :: 0 <= i < |s| ==> !(q(s[i]) && r(s[i]))
    ensures |Filter(s, p)| == |Filter(s, q)| + |Filter(s, r)|
  {
    if s != [] {
      FilterPartition(s[1..], p, q, r);
    }
  }

  /** `Array.prototype.map`. */
  function MapSeq<A, B>(s: seq<A>, f: A -> B): (r: seq<B>)
    ensures |r| == |s|
  {
    if s == [] then [] else [f(s[0])] + MapSeq(s[1..], f)
  }

  /** The `i`-th element of a mapped sequence is the image of the `i`-th element. */
  lemma {:induction false} MapAt<A, B>(s: seq<A>, f: A -> B, i: nat)
    requires i < |s|
    ensures MapSeq(s, f)[i] == f(s[i])
  {
    if i > 0 {
      MapAt(s[1..], f, i - 1);
    }
  }

  lemma {:induction false} MapConcat<A, B>(a: seq<A>, b: seq<A>, f: A -> B)
    ensures MapSeq(a + b, f) == MapSeq(a, f) + MapSeq(b, f)
  {
    if a == [] {
      assert a + b == b;
    } else {
      assert (a + b)[1..] == a[1..] + b;
      MapConcat(a[1..], b, f);
    }
  }

  lemma {:induction false} MultisetRemove<A>(b: seq<A>, k: nat)
    requires k < |b|
    ensures multiset(b[..k] + b[k + 1..]) == multiset(b) - multiset{b[k]}
  {
    assert b == b[..k] + [b[k]] + b[k + 1..];
  }

  /** Mapping `b` with its `k`-th element removed loses exactly that element's image. */
  lemma {:induction false} MapRemove<A, B>(b: seq<A>, k: nat, f: A -> B)
    requires k < |b|
    ensures multiset(MapSeq(b, f)) == multiset(MapSeq(b[..k] + b[k + 1..], f)) + multiset{f(b[k])}
  {
    var left, right := MapSeq(b[..k], f), MapSeq(b[k + 1..], f);
    assert b == b[..k] + ([b[k]] + b[k + 1..]);
    MapConcat(b[..k], [b[k]] + b[k + 1..], f);
    assert MapSeq([b[k]] + b[k + 1..], f) == [f(b[k])] + right;
    MapConcat(b[..k], b[k + 1..], f);
  }

  lemma IndexOf<A>(b: seq<A>, x: A) returns (k: nat)
    requires x in multiset(b)
    ensures k < |b| && b[k] == x
  {
    assert x in b;
    k :| 0 <= k < |b| && b[k] == x;
  }

  lemma {:induction false} MapCons<A, B>(a: seq<A>, f: A -> B)
    requires a != []
    ensures multiset(MapSeq(a, f)) == multiset(MapSeq(a[1..], f)) + multiset{f(a[0])}
  {
  }

  /** Mapping two permutations of each other gives two permutations of each other. */
  lemma {:induction false} MapPermutation<A, B>(a: seq<A>, b: seq<A>, f: A -> B)
    requires multiset(a) == multiset(b)
    ensures multiset(MapSeq(a, f)) == multiset(MapSeq(b, f))
    decreases |a|
  {
    if a == [] {
      assert |multiset(b)| == 0;
    } else {
      assert a[0] in multiset(a);
      var k := IndexOf(b, a[0]);
      var rest := b[..k] + b[k + 1..];
      MultisetRemove(b, k);
      MultisetRemove(a, 0);
      assert a[..0] + a[1..] == a[1..];
      MapPermutation(a[1..], rest, f);
      MapCons(a, f);
      MapRemove(b, k, f);
    }
  }

  /** `le` is a total preorder: total (hence reflexive) and transitive. */
  ghost predicate TotalPreorder<T(!new)>(le: (T, T) -> bool) {
    && (forall a, b :: le(a, b) || le(b, a))
    && (forall a, b, c :: le(a, b) && le(b, c) ==> le(a, c))
  }

  ghost predicate SortedBy<T>(s: seq<T>, le: (T, T) -> bool) {
    forall i, j :: 0 <= i < j < |s| ==> le(s[i], s[j])
  }

  /** The elements equivalent to `k` under `le`: one equivalence class of the preorder. */
  function EquivTo<T>(le: (T, T) -> bool, k: T): T -> bool {
    z => le(z, k) && le(k, z)
  }

  /**
   * Inserts `x` before the first element it is not greater than, so that `x`
   * precedes the elements equivalent to it.
   */
  function Insert<T>(x: T, s: seq<T>, le: (T, T) -> bool): (r: seq<T>)
    ensures |r| == |s| + 1
    ensures multiset(r) == multiset(s) + multiset{x}
  {
    if s == [] then [x]
    else if le(x, s[0]) then [x] + s
    else
      assert s == [s[0]] + s[1..];
      [s[0]] + Insert(x, s[1..], le)
  }

  /**
   * A stable sort by the comparator `le`, where `le(a, b)` stands for the
   * JavaScript comparator's `compare(a, b) <= 0`: insertion sort from the back,
   * each element placed before the elements equivalent to it.
   */
  function SortBy<T>(s: seq<T>, le: (T, T) -> bool): (r: seq<T>)
    ensures |r| == |s|
    ensures multiset(r) == multiset(s)
  {
    if s == [] then []
    else
      assert s == [s[0]] + s[1..];
      assert multiset(s) == multiset(s[1..]) + multiset{s[0]};
      Insert(s[0], SortBy(s[1..], le), le)
  }

  lemma {:induction false} InsertSorted<T(!new)>(x: T, s: seq<T>, le: (T, T) -> bool)
    requires TotalPreorder(le)
    requires SortedBy(s, le)
    ensures SortedBy(Insert(x, s, le), le)
  {
    if s == [] {
    } else if le(x, s[0]) {
    } else {
      var tail := Insert(x, s[1..], le);
      InsertSorted(x, s[1..], le);
      assert le(s[0], x);
      forall j | 0 <= j < |tail|
        ensures le(s[0], tail[j])
      {
        assert tail[j] in multiset(tail);
        if tail[j] != x {
          assert tail[j] in multiset(s[1..]);
          var m :| 0 <= m < |s[1..]| && s[1..][m] == tail[j];
          assert s[m + 1] == tail[j];
        }
      }
      var r := [s[0]] + tail;
      assert forall j :: 1 <= j < |r| ==> r[j] == tail[j - 1];
    }
  }

  /** The result of `SortBy` is ordered by `le` whenever `le` is a total preorder. */
  lemma {:induction false} SortBySorted<T(!new)>(s: seq<T>, le: (T, T) -> bool)
    requires TotalPreorder(le)
    ensures SortedBy(SortBy(s, le), le)
  {
    if s != [] {
      SortBySorted(s[1..], le);
      InsertSorted(s[0], SortBy(s[1..], le), le);
    }
  }

  lemma FilterSingleton<T(!new)>(x: T, p: T -> bool)
    ensures Filter([x], p) == if p(x) then [x] else []
  {
    assert [x][1..] == [];
  }

  /** Any two members of `k`'s equivalence class are ordered by `le`. */
  ghost predicate ClassOrdered<T(!new)>(le: (T, T) -> bool, k: T) {
    forall x, y :: EquivTo(le, k)(x) && EquivTo(le, k)(y) ==> le(x, y)
  }

  lemma PreorderClassOrdered<T(!new)>(le: (T, T) -> bool, k: T)
    requires TotalPreorder(le)
    ensures ClassOrdered(le, k)
  {
    forall x, y | EquivTo(le, k)(x) && EquivTo(le, k)(y) ensures le(x, y) {
      assert le(x, k) && le(k, y);
    }
  }

  /**
   * Inserting `x` keeps the order within `k`'s class: `x` is only moved past
   * elements it is not below, and those are outside its class.
   */
  lemma {:induction false} InsertStable<T(!new)>(x: T, s: seq<T>, le: (T, T) -> bool, k: T)
    requires ClassOrdered(le, k)
    ensures Filter(Insert(x, s, le), EquivTo(le, k)) == Filter([x] + s, EquivTo(le, k))
  {
    var p := EquivTo(le, k);
    if s == [] || le(x, s[0]) {
    } else {
      var y := s[0];
      var tail := Insert(x, s[1..], le);
      assert Insert(x, s, le) == [y] + tail;
      InsertStable(x, s[1..], le, k);
      assert !(p(x) && p(y));
      var fx, fy := Filter([x], p), Filter([y], p);
      FilterSingleton(x, p);
      FilterSingleton(y, p);
      assert fy + fx == fx + fy;
      FilterConcat([y], tail, p);
      FilterConcat([x], s[1..], p);
      FilterConcat([y], s[1..], p);
      FilterConcat([x], s, p);
      assert [y] + s[1..] == s;
      calc {
        Filter([y] + tail, p);
        fy + Filter(tail, p);
        fy + (fx + Filter(s[1..], p));
        fx + (fy + Filter(s[1..], p));
        fx + Filter(s, p);
        Filter([x] + s, p);
      }
    }
  }

  lemma {:induction false} SortByClassStable<T(!new)>(s: seq<T>, le: (T, T) -> bool, k: T)
    requires ClassOrdered(le, k)
    ensures Filter(SortBy(s, le), EquivTo(le, k)) == Filter(s, EquivTo(le, k))
  {
    if s != [] {
      var p := EquivTo(le, k);
      var x, rest := s[0], s[1..];
      var sorted := SortBy(rest, le);
      assert SortBy(s, le) == Insert(x, sorted, le);
      assert [x] + rest == s;
      calc {
        Filter(Insert(x, sorted, le), p);
        { InsertStable(x, sorted, le, k); }
        Filter([x] + sorted, p);
        { FilterConcat([x], sorted, p); }
        Filter([x], p) + Filter(sorted, p);
        { SortByClassStable(rest, le, k); }
        Filter([x], p) + Filter(rest, p);
        { FilterConcat([x], rest, p); }
        Filter(s, p);
      }
    }
  }

  /**
   * Stability: within each equivalence class of `le`, the sorted sequence keeps
   * the order the elements had in the input.
   */
  lemma SortByStable<T(!new)>(s: seq<T>, le: (T, T) -> bool, k: T)
    requires TotalPreorder(le)
    ensures Filter(SortBy(s, le), EquivTo(le, k)) == Filter(s, EquivTo(le, k))
  {
    PreorderClassOrdered(le, k);
    SortByClassStable(s, le, k);
  }

  /** A comparator that calls every pair equal leaves the order unchanged. */
  lemma {:induction false} SortByAllEqual<T(!new)>(s: seq<T>, le: (T, T) -> bool)
    requires forall a, b :: le(a, b)
    ensures SortBy(s, le) == s
  {
    if s != [] {
      var p := EquivTo(le, s[0]);
      assert TotalPreorder(le);
      assert forall i :: 0 <= i < |s| ==> p(s[i]);
      assert forall i :: 0 <= i < |SortBy(s, le)| ==> p(SortBy(s, le)[i]);
      SortByStable(s, le, s[0]);
      FilterKeepsAll(s, p);
      FilterKeepsAll(SortBy(s, le), p);
    }
  }
}
