/** Facts about sequences that several components share: keys that occur once,
    inclusion with multiplicity, and a stable insertion sort. */
module Sequences {

  datatype Option<+T> = None | Some(value: T)

  /** No value occurs twice. */
  ghost predicate NoDup<T(!new)>(xs: seq<T>) {
    forall x :: multiset(xs)[x] <= 1
  }

  ghost predicate Distinct<T>(xs: seq<T>) {
    forall i, j :: 0 <= i < j < |xs| ==> xs[i] != xs[j]
  }

  function Elements<T>(xs: seq<T>): set<T> { set x | x in xs }

  /** new Set(xs).size === xs.length says that nothing repeats. */
  lemma {:induction false} DistinctCount<T(!new)>(xs: seq<T>)
    ensures |Elements(xs)| <= |xs|
    ensures |Elements(xs)| == |xs| <==> NoDup(xs)
  {
    if xs != [] {
      var x, rest := xs[0], xs[1..];
      DistinctCount(rest);
      assert xs == [x] + rest;
      assert Elements(xs) == {x} + Elements(rest);
      if x in rest {
        assert Elements(xs) == Elements(rest);
        assert multiset(xs)[x] > 1;
      } else {
        assert x !in Elements(rest);
        if !NoDup(rest) {
          var y :| multiset(rest)[y] > 1;
          assert multiset(xs)[y] > 1;
        }
      }
    }
  }

  function Map<T, K>(xs: seq<T>, f: T -> K): (ys: seq<K>)
    ensures |ys| == |xs| && forall i :: 0 <= i < |xs| ==> ys[i] == f(xs[i])
  {
    seq(|xs|, i requires 0 <= i < |xs| => f(xs[i]))
  }

  /** No value occurs twice exactly when no value occurs at two positions. */
  lemma {:induction false} NoDupPositions<T(!new)>(xs: seq<T>)
    ensures NoDup(xs) <==> Distinct(xs)
  {
    if xs != [] {
      var x, rest := xs[0], xs[1..];
      assert xs == [x] + rest;
      NoDupPositions(rest);
      if Distinct(xs) {
        assert forall i :: 0 <= i < |rest| ==> rest[i] == xs[i + 1];
        assert x !in rest;
        assert Distinct(rest);
      } else {
        var i, j :| 0 <= i < j < |xs| && xs[i] == xs[j];
        if i == 0 {
          assert rest[j - 1] == x;
          assert multiset(xs)[x] >= 2;
        } else {
          assert rest[i - 1] == rest[j - 1];
          assert !Distinct(rest);
          var y :| multiset(rest)[y] > 1;
          assert multiset(xs)[y] > 1;
        }
      }
    }
  }

  function Filter<T>(xs: seq<T>, p: T -> bool): seq<T> {
    if xs == [] then []
    else if p(xs[0]) then [xs[0]] + Filter(xs[1..], p)
    else Filter(xs[1..], p)
  }

  lemma {:induction false} FilterCounts<T>(xs: seq<T>, p: T -> bool, x: T)
    ensures multiset(Filter(xs, p))[x] == if p(x) then multiset(xs)[x] else 0
  {
    if xs != [] {
      FilterCounts(xs[1..], p, x);
      assert xs == [xs[0]] + xs[1..];
    }
  }

  lemma FilterMembers<T(!new)>(xs: seq<T>, p: T -> bool)
    ensures forall x :: x in Filter(xs, p) <==> x in xs && p(x)
  {
    forall x ensures x in Filter(xs, p) <==> x in xs && p(x) {
      FilterCounts(xs, p, x);
      assert x in multiset(Filter(xs, p)) <==> x in Filter(xs, p);
    }
  }

  /** ys are the elements of xs at these positions, from left to right. */
  ghost predicate Sublist<T>(xs: seq<T>, at: seq<nat>, ys: seq<T>) {
    && |at| == |ys| && (forall k :: 0 <= k < |at| ==> at[k] < |xs| && ys[k] == xs[at[k]])
    && (forall i, j :: 0 <= i < j < |at| ==> at[i] < at[j])
  }

  /** Filtering goes from left to right, element by element. */
  lemma {:induction false} FilterSplits<T>(xs: seq<T>, ys: seq<T>, p: T -> bool)
    ensures Filter(xs + ys, p) == Filter(xs, p) + Filter(ys, p)
  {
    if xs == [] {
      assert xs + ys == ys;
    } else {
      FilterSplits(xs[1..], ys, p);
      assert (xs + ys)[1..] == xs[1..] + ys;
    }
  }

  lemma FilterLast<T>(xs: seq<T>, p: T -> bool)
    requires xs != []
    ensures var init, x := xs[..|xs| - 1], xs[|xs| - 1];
      xs == init + [x] && Filter(xs, p) == if p(x) then Filter(init, p) + [x] else Filter(init, p)
  {
    var init, x := xs[..|xs| - 1], xs[|xs| - 1];
    FilterSplits(init, [x], p);
    assert xs == init + [x];
  }

  /** What is kept, as often as it was there by FilterCounts, is kept in order. */
  lemma {:induction false} FilterSublist<T>(xs: seq<T>, p: T -> bool) returns (at: seq<nat>)
    ensures Sublist(xs, at, Filter(xs, p))
    decreases |xs|
  {
    at := [];
    if xs != [] {
      at := FilterSublist(xs[..|xs| - 1], p);
      FilterLast(xs, p);
      if p(xs[|xs| - 1]) { at := at + [|xs| - 1]; }
    }
  }

  function Without<T>(xs: seq<T>, k: nat): seq<T>
    requires k < |xs|
  {
    xs[..k] + xs[k + 1..]
  }

  lemma WithoutIncludes<T>(x: T, xs: seq<T>, ys: seq<T>) returns (k: nat)
    requires multiset([x] + xs) <= multiset(ys)
    ensures k < |ys| && ys[k] == x && multiset(xs) <= multiset(Without(ys, k))
    ensures ys == ys[..k] + ([x] + ys[k + 1..])
  {
    assert multiset([x] + xs) == multiset{x} + multiset(xs);
    assert x in multiset(ys);
    k :| 0 <= k < |ys| && ys[k] == x;
    assert ys == ys[..k] + ([x] + ys[k + 1..]);
    assert multiset(ys) == multiset(Without(ys, k)) + multiset{x} by {
      assert multiset(ys) == multiset(ys[..k]) + (multiset{x} + multiset(ys[k + 1..]));
    }
    forall y ensures multiset(xs)[y] <= multiset(Without(ys, k))[y] {
      assert (multiset{x} + multiset(xs))[y] <= multiset(ys)[y];
    }
  }

  lemma MapAround<T, K>(xs: seq<T>, x: T, ys: seq<T>, f: T -> K)
    ensures multiset(Map(xs + ([x] + ys), f)) == multiset(Map(xs + ys, f)) + multiset{f(x)}
  {
    assert Map(xs + ([x] + ys), f) == Map(xs, f) + ([f(x)] + Map(ys, f));
    assert Map(xs + ys, f) == Map(xs, f) + Map(ys, f);
  }

  lemma {:induction false} MapIncluded<T, K>(xs: seq<T>, ys: seq<T>, f: T -> K)
    requires multiset(xs) <= multiset(ys)
    ensures multiset(Map(xs, f)) <= multiset(Map(ys, f))
    decreases |xs|
  {
    if xs != [] {
      assert xs == [xs[0]] + xs[1..];
      var k := WithoutIncludes(xs[0], xs[1..], ys);
      MapIncluded(xs[1..], Without(ys, k), f);
      MapAround(ys[..k], xs[0], ys[k + 1..], f);
      MapHead(xs, f);
    }
  }

  lemma MapHead<T, K>(xs: seq<T>, f: T -> K)
    requires xs != []
    ensures multiset(Map(xs, f)) == multiset(Map(xs[1..], f)) + multiset{f(xs[0])}
  {
    assert Map(xs, f) == [f(xs[0])] + Map(xs[1..], f);
  }

  lemma IncludedNoDup<T(!new), K(!new)>(xs: seq<T>, ys: seq<T>, f: T -> K)
    requires multiset(xs) <= multiset(ys) && NoDup(Map(ys, f))
    ensures NoDup(Map(xs, f))
  {
    MapIncluded(xs, ys, f);
  }

  lemma IncludedLength<T>(xs: seq<T>, ys: seq<T>)
    requires multiset(xs) <= multiset(ys)
    ensures |xs| <= |ys|
  {
    assert |multiset(xs)| == |xs| && |multiset(ys)| == |ys|;
    assert multiset(ys) == multiset(xs) + (multiset(ys) - multiset(xs));
  }

  /** Distinct keys make set inclusion an inclusion with multiplicity. */
  lemma SubsetIncluded<T(!new), K(!new)>(xs: seq<T>, ys: seq<T>, f: T -> K)
    requires NoDup(Map(xs, f)) && forall x :: x in xs ==> x in ys
    ensures multiset(xs) <= multiset(ys)
  {
    NoDupPositions(Map(xs, f));
    assert Distinct(xs) by {
      assert forall i, j :: 0 <= i < j < |xs| ==> Map(xs, f)[i] != Map(xs, f)[j];
    }
    NoDupPositions(xs);
    forall x | x in multiset(xs) ensures multiset(xs)[x] <= multiset(ys)[x] {
      assert x in ys;
    }
  }

  lemma KeyIsUnique<T, K(!new)>(xs: seq<T>, f: T -> K, a: T, b: T)
    requires NoDup(Map(xs, f)) && a in xs && b in xs && f(a) == f(b)
    ensures a == b
  {
    NoDupPositions(Map(xs, f));
    var i :| 0 <= i < |xs| && xs[i] == a;
    var j :| 0 <= j < |xs| && xs[j] == b;
    assert Map(xs, f)[i] == Map(xs, f)[j];
  }

  function Sum(xs: seq<int>): int {
    if xs == [] then 0 else xs[0] + Sum(xs[1..])
  }

  lemma {:induction false} SumAppend(xs: seq<int>, ys: seq<int>)
    ensures Sum(xs + ys) == Sum(xs) + Sum(ys)
  {
    if xs == [] {
      assert xs + ys == ys;
    } else {
      SumAppend(xs[1..], ys);
      assert xs + ys == [xs[0]] + (xs[1..] + ys);
    }
  }

  lemma {:induction false} SumIncluded(xs: seq<int>, ys: seq<int>)
    requires multiset(xs) <= multiset(ys) && forall i :: 0 <= i < |ys| ==> 0 <= ys[i]
    ensures Sum(xs) <= Sum(ys)
    decreases |xs|
  {
    if xs == [] {
      SumNonNegative(ys);
    } else {
      assert xs == [xs[0]] + xs[1..];
      var k := WithoutIncludes(xs[0], xs[1..], ys);
      SumIncluded(xs[1..], Without(ys, k));
      SumAppend(ys[..k], ys[k + 1..]);
      SumAppend(ys[..k], [ys[k]] + ys[k + 1..]);
      assert ([ys[k]] + ys[k + 1..])[1..] == ys[k + 1..];
    }
  }

  lemma {:induction false} SumNonNegative(xs: seq<int>)
    requires forall i :: 0 <= i < |xs| ==> 0 <= xs[i]
    ensures 0 <= Sum(xs)
  {
    if xs != [] {
      SumNonNegative(xs[1..]);
    }
  }

  // ---- Sorting -------------------------------------------------------------

  ghost predicate TotalPreorder<T(!new)>(le: (T, T) -> bool) {
    && (forall a, b :: le(a, b) || le(b, a))
    && (forall a, b, c :: le(a, b) && le(b, c) ==> le(a, c))
  }

  ghost predicate Sorted<T>(xs: seq<T>, le: (T, T) -> bool) {
    forall i, j :: 0 <= i < j < |xs| ==> le(xs[i], xs[j])
  }

  function Insert<T>(x: T, xs: seq<T>, le: (T, T) -> bool): seq<T> {
    if xs == [] || le(x, xs[0]) then [x] + xs else [xs[0]] + Insert(x, xs[1..], le)
  }

  /** Array.prototype.sort: stable, so elements that compare equal keep their order. */
  function Sort<T>(xs: seq<T>, le: (T, T) -> bool): seq<T> {
    if xs == [] then [] else Insert(xs[0], Sort(xs[1..], le), le)
  }

  lemma {:induction false} InsertKeeps<T>(x: T, xs: seq<T>, le: (T, T) -> bool)
    ensures multiset(Insert(x, xs, le)) == multiset(xs) + multiset{x}
  {
    if xs != [] && !le(x, xs[0]) {
      InsertKeeps(x, xs[1..], le);
      assert xs == [xs[0]] + xs[1..];
    }
  }

  lemma {:induction false} InsertSorted<T(!new)>(x: T, xs: seq<T>, le: (T, T) -> bool)
    requires TotalPreorder(le) && Sorted(xs, le)
    ensures Sorted(Insert(x, xs, le), le)
  {
    if xs != [] && !le(x, xs[0]) {
      InsertSorted(x, xs[1..], le);
      var tail := Insert(x, xs[1..], le);
      InsertKeeps(x, xs[1..], le);
      forall y | y in tail ensures le(xs[0], y) {
        assert y in multiset(tail);
        if y != x {
          assert y in xs[1..];
          var k :| 0 <= k < |xs[1..]| && xs[1..][k] == y;
          assert xs[k + 1] == y;
        }
      }
    } else if xs != [] {
      forall j | 0 < j < |xs| ensures le(x, xs[j]) {
        assert le(xs[0], xs[j]);
      }
    }
  }

  /** Sorting is a sorted permutation of its input. */
  lemma {:induction false} SortCorrect<T(!new)>(xs: seq<T>, le: (T, T) -> bool)
    requires TotalPreorder(le)
    ensures Sorted(Sort(xs, le), le) && multiset(Sort(xs, le)) == multiset(xs)
  {
    if xs != [] {
      SortCorrect(xs[1..], le);
      InsertSorted(xs[0], Sort(xs[1..], le), le);
      InsertKeeps(xs[0], Sort(xs[1..], le), le);
      assert xs == [xs[0]] + xs[1..];
    }
  }

  /** The elements that compare equal to x. */
  function Tied<T>(xs: seq<T>, le: (T, T) -> bool, x: T): seq<T> { Filter(xs, y => le(x, y) && le(y, x)) }

  lemma TiedAfter<T>(x: T, xs: seq<T>, le: (T, T) -> bool, y: T)
    ensures Tied([x] + xs, le, y) == (if le(y, x) && le(x, y) then [x] else []) + Tied(xs, le, y)
  {
    assert ([x] + xs)[1..] == xs;
  }

  lemma {:induction false} InsertStable<T(!new)>(x: T, xs: seq<T>, le: (T, T) -> bool, y: T)
    requires TotalPreorder(le)
    ensures Tied(Insert(x, xs, le), le, y) == Tied([x] + xs, le, y)
  {
    if xs != [] && !le(x, xs[0]) {
      InsertStable(x, xs[1..], le, y);
      assert xs == [xs[0]] + xs[1..];
      TiedAfter(x, xs, le, y);
      TiedAfter(xs[0], xs[1..], le, y);
      TiedAfter(x, xs[1..], le, y);
      TiedAfter(xs[0], Insert(x, xs[1..], le), le, y);
    }
  }

  /** Sorting is stable: elements that compare equal keep their order. */
  lemma {:induction false} SortStable<T(!new)>(xs: seq<T>, le: (T, T) -> bool, x: T)
    requires TotalPreorder(le)
    ensures Tied(Sort(xs, le), le, x) == Tied(xs, le, x)
  {
    if xs != [] {
      SortStable(xs[1..], le, x);
      InsertStable(xs[0], Sort(xs[1..], le), le, x);
      TiedAfter(xs[0], Sort(xs[1..], le), le, x);
      TiedAfter(xs[0], xs[1..], le, x);
      assert xs == [xs[0]] + xs[1..];
    }
  }

  lemma SortMembers<T(!new)>(xs: seq<T>, le: (T, T) -> bool)
    requires TotalPreorder(le)
    ensures forall x :: x in Sort(xs, le) <==> x in xs
  {
    SortCorrect(xs, le);
    forall x ensures x in Sort(xs, le) <==> x in xs {
      assert x in multiset(Sort(xs, le)) <==> x in multiset(xs);
    }
  }

  ghost predicate TiesAreEqual<T>(xs: seq<T>, le: (T, T) -> bool) {
    forall i, j :: 0 <= i < |xs| && 0 <= j < |xs| && le(xs[i], xs[j]) && le(xs[j], xs[i]) ==> xs[i] == xs[j]
  }

  lemma SortedHeads<T>(xs: seq<T>, ys: seq<T>, le: (T, T) -> bool)
    requires Sorted(xs, le) && Sorted(ys, le) && multiset(xs) == multiset(ys) && TiesAreEqual(xs, le)
    requires xs != [] && ys != []
    ensures xs[0] == ys[0]
  {
    assert xs[0] in multiset(ys) && ys[0] in multiset(xs);
    var i :| 0 <= i < |ys| && ys[i] == xs[0];
    var j :| 0 <= j < |xs| && xs[j] == ys[0];
  }

  /** Two sorted sequences with the same elements are equal when ties are identities. */
  lemma {:induction false} SortedUnique<T>(xs: seq<T>, ys: seq<T>, le: (T, T) -> bool)
    requires Sorted(xs, le) && Sorted(ys, le) && multiset(xs) == multiset(ys) && TiesAreEqual(xs, le)
    ensures xs == ys
    decreases |xs|
  {
    assert |xs| == |multiset(xs)| == |multiset(ys)| == |ys|;
    if xs != [] {
      SortedHeads(xs, ys, le);
      MultisetTail(xs);
      MultisetTail(ys);
      SortedUnique(xs[1..], ys[1..], le);
      assert xs == [xs[0]] + xs[1..] == [ys[0]] + ys[1..] == ys;
    }
  }

  lemma MultisetTail<T>(xs: seq<T>)
    requires xs != []
    ensures multiset(xs[1..]) == multiset(xs) - multiset{xs[0]}
  {
    assert xs == [xs[0]] + xs[1..];
  }

  /** The result of sorting does not depend on the order of the input. */
  lemma SortCanonical<T(!new)>(xs: seq<T>, ys: seq<T>, le: (T, T) -> bool)
    requires TotalPreorder(le) && multiset(xs) == multiset(ys)
    requires forall a, b :: a in xs && b in xs && le(a, b) && le(b, a) ==> a == b
    ensures Sort(xs, le) == Sort(ys, le)
  {
    SortCorrect(xs, le);
    SortCorrect(ys, le);
    SortMembers(xs, le);
    var s := Sort(xs, le);
    assert forall i :: 0 <= i < |s| ==> s[i] in xs;
    SortedUnique(s, Sort(ys, le), le);
  }

  // ---- Strings -------------------------------------------------------------

  /** a <= b in the code-unit order that < gives on strings. */
  predicate StrLe(a: string, b: string) {
    a == [] || (b != [] && (a[0] < b[0] || (a[0] == b[0] && StrLe(a[1..], b[1..]))))
  }

  lemma {:induction false} StrLeTotal(a: string, b: string)
    ensures StrLe(a, b) || StrLe(b, a)
    ensures StrLe(a, b) && StrLe(b, a) ==> a == b
  {
    if a != [] && b != [] && a[0] == b[0] {
      StrLeTotal(a[1..], b[1..]);
      assert a == [a[0]] + a[1..] && b == [b[0]] + b[1..];
    }
  }

  /** The first difference decides; a prefix comes first. */
  lemma {:induction false} StrLeExactly(a: string, b: string)
    ensures StrLe(a, b) <==> a <= b || exists i :: 0 <= i < |a| && i < |b| && a[..i] == b[..i] && a[i] < b[i]
    decreases |a|
  {
    if a != [] && b != [] {
      assert a == [a[0]] + a[1..] && b == [b[0]] + b[1..];
      if a[0] == b[0] {
        StrLeExactly(a[1..], b[1..]);
        if i :| 0 <= i < |a[1..]| && i < |b[1..]| && a[1..][..i] == b[1..][..i] && a[1..][i] < b[1..][i] {
          assert a[..i + 1] == [a[0]] + a[1..][..i] && b[..i + 1] == [b[0]] + b[1..][..i];
          assert a[i + 1] < b[i + 1];
        }
        if i :| 0 <= i < |a| && i < |b| && a[..i] == b[..i] && a[i] < b[i] {
          assert a[1..][..i - 1] == a[..i][1..] && b[1..][..i - 1] == b[..i][1..];
          assert a[1..][i - 1] < b[1..][i - 1];
        }
      } else if a[0] < b[0] {
        assert a[..0] == b[..0];
      }
    }
  }

  lemma {:induction false} StrLeTransitive(a: string, b: string, c: string)
    requires StrLe(a, b) && StrLe(b, c)
    ensures StrLe(a, c)
  {
    if a != [] && a[0] == b[0] && b[0] == c[0] {
      StrLeTransitive(a[1..], b[1..], c[1..]);
    }
  }
}
