/**
 * The LINQ operators the services apply to table rows: Where, Count, Sum,
 * Skip/Take, OrderBy and Distinct, written as functions over sequences.
 */
module Seqs {

  /** Where: keeps, in order, the elements that satisfy p, each as often as it occurs. */
  function Filter<T(!new)>(s: seq<T>, p: T -> bool): (r: seq<T>)
    ensures |r| <= |s|
    ensures forall x :: x in r <==> x in s && p(x)
  {
    if s == [] then []
    else if p(s[0]) then [s[0]] + Filter(s[1..], p)
    else Filter(s[1..], p)
  }

  /** Where keeps every element that satisfies p as often as it occurs, and no other. */
  lemma {:induction false} FilterCounts<T(!new)>(s: seq<T>, p: T -> bool)
    ensures forall x :: multiset(Filter(s, p))[x] == if p(x) then multiset(s)[x] else 0
  {
    if s != [] {
      FilterCounts(s[1..], p);
      SplitFirst(s, []);
      FilterCons(s[0], s[1..], p);
    }
  }

  /** Where keeps the order: filtering a concatenation concatenates the filtered parts. */
  lemma {:induction false} FilterAppend<T(!new)>(a: seq<T>, b: seq<T>, p: T -> bool)
    ensures Filter(a + b, p) == Filter(a, p) + Filter(b, p)
  {
    if a == [] {
      assert a + b == b;
    } else {
      var x, rest := a[0], a[1..];
      SplitFirst(a, b);
      FilterCons(x, rest, p);
      FilterCons(x, rest + b, p);
      FilterAppend(rest, b, p);
      Associative(if p(x) then [x] else [], Filter(rest, p), Filter(b, p));
    }
  }

  /** A non-empty sequence is its first element and the rest, also under concatenation. */
  lemma SplitFirst<T>(a: seq<T>, b: seq<T>)
    requires a != []
    ensures a == [a[0]] + a[1..] && a + b == [a[0]] + (a[1..] + b)
  {
  }

  lemma Associative<T>(a: seq<T>, b: seq<T>, c: seq<T>)
    ensures a + (b + c) == (a + b) + c
  {
  }

  /** Filtering one more element in front. */
  lemma FilterCons<T(!new)>(x: T, s: seq<T>, p: T -> bool)
    ensures Filter([x] + s, p) == (if p(x) then [x] else []) + Filter(s, p)
  {
    assert ([x] + s)[0] == x && ([x] + s)[1..] == s;
  }

  /** Count with a predicate: the number of elements Where keeps. */
  function Count<T(!new)>(s: seq<T>, p: T -> bool): (n: nat)
    ensures n == |Filter(s, p)|
    ensures n == 0 <==> forall x :: x in s ==> !p(x)
  {
    if s == [] then 0
    else (if p(s[0]) then 1 else 0) + Count(s[1..], p)
  }

  /** Sum of f over the elements. */
  function Sum<T>(s: seq<T>, f: T -> int): int
  {
    if s == [] then 0 else f(s[0]) + Sum(s[1..], f)
  }

  lemma SumCons<T>(x: T, s: seq<T>, f: T -> int)
    ensures Sum([x] + s, f) == f(x) + Sum(s, f)
  {
    assert ([x] + s)[0] == x && ([x] + s)[1..] == s;
  }

  lemma {:induction false} SumNonNegative<T>(s: seq<T>, f: T -> int)
    requires forall x :: x in s ==> f(x) >= 0
    ensures Sum(s, f) >= 0
  {
    if s != [] {
      SumNonNegative(s[1..], f);
    }
  }

  /** Skip: a non-positive count skips nothing (LINQ semantics). */
  function Skip<T>(s: seq<T>, n: int): (r: seq<T>)
    ensures |r| == if n <= 0 then |s| else if n >= |s| then 0 else |s| - n
    ensures forall i :: 0 <= i < |r| ==> r[i] == s[i + (if n <= 0 then 0 else n)]
  {
    if n <= 0 then s else if n >= |s| then [] else s[n..]
  }

  /** Take: a non-positive count takes nothing (LINQ semantics). */
  function Take<T>(s: seq<T>, n: int): (r: seq<T>)
    ensures |r| == if n <= 0 then 0 else if n >= |s| then |s| else n
    ensures forall i :: 0 <= i < |r| ==> r[i] == s[i]
  {
    if n <= 0 then [] else if n >= |s| then s else s[..n]
  }

  /** What Take keeps is part of the sequence, as a multiset. */
  lemma TakeSubMultiset<T>(s: seq<T>, n: int)
    ensures multiset(Take(s, n)) <= multiset(s)
  {
    var r := Take(s, n);
    assert s == r + s[|r|..];
    assert multiset(s) == multiset(r) + multiset(s[|r|..]);
  }

  /** The rows before page number page: (page - 1) * pageSize. */
  function Offset(page: int, pageSize: int): (n: int)
    ensures page >= 1 && pageSize >= 1 ==> n >= 0
  {
    (page - 1) * pageSize
  }

  /** Skip((page - 1) * pageSize).Take(pageSize). */
  function Page<T>(s: seq<T>, page: int, pageSize: int): seq<T>
  {
    Take(Skip(s, Offset(page, pageSize)), pageSize)
  }

  /**
   * For page >= 1 and pageSize >= 1 a page holds at most pageSize rows, and
   * its i-th row is the row at position (page - 1) * pageSize + i.
   */
  lemma PageContents<T>(s: seq<T>, page: int, pageSize: int)
    requires page >= 1 && pageSize >= 1
    ensures |Page(s, page, pageSize)| <= pageSize
    ensures |Page(s, page, pageSize)| == if Offset(page, pageSize) >= |s| then 0
                                         else Min(pageSize, |s| - Offset(page, pageSize))
    ensures forall i :: 0 <= i < |Page(s, page, pageSize)| ==>
              Page(s, page, pageSize)[i] == s[Offset(page, pageSize) + i]
  {
  }

  /** A page of a sorted sequence is sorted. */
  lemma PageOfSorted<T>(s: seq<T>, page: int, pageSize: int, le: (T, T) -> bool)
    requires page >= 1 && pageSize >= 1
    requires SortedBy(s, le)
    ensures SortedBy(Page(s, page, pageSize), le)
  {
    PageContents(s, page, pageSize);
    var p := Page(s, page, pageSize);
    var n := Offset(page, pageSize);
    forall i, j | 0 <= i < j < |p| ensures le(p[i], p[j]) {
      assert p[i] == s[n + i] && p[j] == s[n + j];
    }
  }

  /** Every row on a page is a row of the sequence. */
  lemma PageMembers<T>(s: seq<T>, page: int, pageSize: int)
    requires page >= 1 && pageSize >= 1
    ensures forall x :: x in Page(s, page, pageSize) ==> x in s
  {
    PageContents(s, page, pageSize);
    var p := Page(s, page, pageSize);
    var n := Offset(page, pageSize);
    forall x | x in p ensures x in s {
      var i :| 0 <= i < |p| && p[i] == x;
      assert s[n + i] == x;
    }
  }

  function Min(a: int, b: int): int { if a <= b then a else b }

  // ---------------------------------------------------------------------
  // Ordering

  ghost predicate TotalPreorder<T(!new)>(le: (T, T) -> bool)
  {
    && (forall a, b :: le(a, b) || le(b, a))
    && (forall a, b, c :: le(a, b) && le(b, c) ==> le(a, c))
  }

  ghost predicate SortedBy<T>(s: seq<T>, le: (T, T) -> bool)
  {
    forall i, j :: 0 <= i < j < |s| ==> le(s[i], s[j])
  }

  /** Inserts x before the first element it is not above. */
  function Insert<T>(x: T, s: seq<T>, le: (T, T) -> bool): (r: seq<T>)
    ensures multiset(r) == multiset(s) + multiset{x}
    ensures |r| == |s| + 1
  {
    if s == [] then [x]
    else if le(x, s[0]) then [x] + s
    else
      assert s == [s[0]] + s[1..];
      [s[0]] + Insert(x, s[1..], le)
  }

  lemma {:induction false} InsertSorted<T(!new)>(x: T, s: seq<T>, le: (T, T) -> bool)
    requires TotalPreorder(le)
    requires SortedBy(s, le)
    ensures SortedBy(Insert(x, s, le), le)
  {
    if s != [] && !le(x, s[0]) {
      InsertSorted(x, s[1..], le);
      var r := Insert(x, s, le);
      forall y | y in r[1..] ensures le(s[0], y) {
        assert multiset(r[1..]) == multiset(s[1..]) + multiset{x};
        assert y in multiset(r[1..]);
        if y != x {
          assert y in multiset(s[1..]);
          var j :| 0 <= j < |s[1..]| && s[1..][j] == y;
          assert s[j + 1] == y;
        }
      }
      forall i, j | 0 <= i < j < |r| ensures le(r[i], r[j]) {
        if i == 0 {
          assert r[j] in r[1..];
        } else {
          assert r[i] == r[1..][i - 1] && r[j] == r[1..][j - 1];
        }
      }
    }
  }

  /** OrderBy with the comparison le: a sorted permutation of s. */
  function SortBy<T(!new)>(s: seq<T>, le: (T, T) -> bool): (r: seq<T>)
    requires TotalPreorder(le)
    ensures SortedBy(r, le)
    ensures multiset(r) == multiset(s)
    ensures |r| == |s|
  {
    if s == [] then []
    else
      assert s == [s[0]] + s[1..];
      var rest := SortBy(s[1..], le);
      InsertSorted(s[0], rest, le);
      Insert(s[0], rest, le)
  }

  // ---------------------------------------------------------------------
  // Distinct

  ghost predicate NoDuplicates<T>(s: seq<T>)
  {
    forall i, j :: 0 <= i < j < |s| ==> s[i] != s[j]
  }

  /** A sequence without repeats holds each value at most once. */
  lemma {:induction false} NoDuplicatesOnce<T>(s: seq<T>)
    requires NoDuplicates(s)
    ensures forall x :: multiset(s)[x] <= 1
  {
    if s != [] {
      assert s == [s[0]] + s[1..];
      NoDuplicatesOnce(s[1..]);
      assert s[0] !in s[1..];
    }
  }

  /** A permutation has the same elements. */
  lemma SameMembers<T>(s: seq<T>, r: seq<T>)
    requires multiset(r) == multiset(s)
    ensures forall x :: x in r <==> x in s
  {
    forall x ensures x in r <==> x in s {
      assert x in r <==> x in multiset(r);
      assert x in s <==> x in multiset(s);
    }
  }

  /** A permutation of a sequence without repeats has none either. */
  lemma PermutationKeepsNoDuplicates<T>(s: seq<T>, r: seq<T>)
    requires multiset(r) == multiset(s)
    requires NoDuplicates(s)
    ensures NoDuplicates(r)
  {
    NoDuplicatesOnce(s);
    forall i, j | 0 <= i < j < |r| ensures r[i] != r[j] {
      assert r == r[..j] + r[j..];
      assert multiset(r) == multiset(r[..j]) + multiset(r[j..]);
      assert r[i] in multiset(r[..j]) && r[j] in multiset(r[j..]);
      assert multiset(r)[r[j]] <= 1;
    }
  }

  /** Distinct: every value of s exactly once. */
  function Distinct<T(==,!new)>(s: seq<T>): (r: seq<T>)
    ensures NoDuplicates(r)
    ensures forall x :: x in r <==> x in s
  {
    if s == [] then []
    else
      var rest := Distinct(s[1..]);
      if s[0] in rest then
        assert forall x :: x in s <==> x == s[0] || x in s[1..];
        rest
      else
        [s[0]] + rest
  }
}
