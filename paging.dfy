/** The list-query building blocks every filtered repository query uses:
    keep the rows a conjunction of predicates accepts, order them, cut an
    offset/limit window out of them and count the matches separately. */
module Paging {

  /** Spring's `Pageable`, reduced to what the queries read from it. */
  datatype Pageable = Pageable(offset: nat, pageSize: nat)

  /** Spring's `PageImpl`: the window's rows and the count query's result. */
  datatype Page<T> = Page(content: seq<T>, total: nat)

  /** The rows of `s` that `p` accepts, in their original order. */
  function Filter<T(!new)>(s: seq<T>, p: T -> bool): (r: seq<T>)
    ensures |r| <= |s|
    ensures forall x :: x in r <==> x in s && p(x)
  {
    if s == [] then []
    else if p(s[0]) then [s[0]] + Filter(s[1..], p)
    else Filter(s[1..], p)
  }

  /** `SELECT count(...)` under predicate `p`. */
  function Count<T>(s: seq<T>, p: T -> bool): (n: nat)
    ensures n <= |s|
    ensures n == |s| <==> forall i :: 0 <= i < |s| ==> p(s[i])
  {
    if s == [] then 0 else (if p(s[0]) then 1 else 0) + Count(s[1..], p)
  }

  /** The count query and the page query agree on the number of matches. */
  lemma {:induction false} CountIsFilterLength<T(!new)>(s: seq<T>, p: T -> bool)
    ensures Count(s, p) == |Filter(s, p)|
  {
    if s != [] {
      CountIsFilterLength(s[1..], p);
    }
  }

  /** Each accepted row is kept as many times as it occurs, each rejected
      row not at all. */
  lemma {:induction false} FilterMultiplicity<T(!new)>(s: seq<T>, p: T -> bool, x: T)
    ensures multiset(Filter(s, p))[x] == if p(x) then multiset(s)[x] else 0
  {
    if s != [] {
      FilterMultiplicity(s[1..], p, x);
      assert s == [s[0]] + s[1..];
    }
  }

  /** A predicate that accepts everything keeps every row. */
  lemma {:induction false} FilterAcceptAll<T(!new)>(s: seq<T>, p: T -> bool)
    requires forall x :: x in s ==> p(x)
    ensures Filter(s, p) == s
  {
    if s != [] {
      assert forall x :: x in s[1..] ==> x in s;
      FilterAcceptAll(s[1..], p);
    }
  }

  function Min(a: int, b: int): int { if a <= b then a else b }

  /** `firstResult = offset`, `maxResults = pageSize`: at most `size` rows
      starting at position `offset`, none when the offset is past the end. */
  function Window<T>(s: seq<T>, offset: nat, size: nat): (w: seq<T>)
    ensures |w| == if offset < |s| then Min(size, |s| - offset) else 0
    ensures forall i :: 0 <= i < |w| ==> w[i] == s[offset + i]
  {
    if offset < |s| then s[offset..offset + Min(size, |s| - offset)] else []
  }

  /** Every row of a window is a row of the windowed sequence. */
  lemma WindowWithin<T>(s: seq<T>, offset: nat, size: nat)
    ensures forall x :: x in Window(s, offset, size) ==> x in s
  {
    var w := Window(s, offset, size);
    forall x | x in w ensures x in s {
      var i :| 0 <= i < |w| && w[i] == x;
      assert s[offset + i] == x;
    }
  }

  /** `ORDER BY key DESC`. */
  ghost predicate SortedDesc<T>(s: seq<T>, key: T -> int) {
    forall i, j :: 0 <= i < j < |s| ==> key(s[i]) >= key(s[j])
  }

  /** Inserts `x` into a descending sequence, in front of the first row whose key is not larger. */
  function InsertDesc<T>(x: T, s: seq<T>, key: T -> int): (r: seq<T>)
    requires SortedDesc(s, key)
    ensures |r| == |s| + 1
    ensures r[0] == x || (s != [] && r[0] == s[0])
    ensures SortedDesc(r, key)
    ensures multiset(r) == multiset(s) + multiset{x}
  {
    if s == [] || key(x) >= key(s[0]) then [x] + s
    else
      var rest := InsertDesc(x, s[1..], key);
      assert key(s[0]) >= key(rest[0]);
      assert s == [s[0]] + s[1..];
      [s[0]] + rest
  }

  /** Sorts by descending key (insertion sort): a sorted permutation of `s`. */
  function SortDesc<T>(s: seq<T>, key: T -> int): (r: seq<T>)
    ensures SortedDesc(r, key)
    ensures multiset(r) == multiset(s)
  {
    if s == [] then []
    else
      assert s == [s[0]] + s[1..];
      InsertDesc(s[0], SortDesc(s[1..], key), key)
  }

  /** Sorting keeps exactly the rows it is given. */
  lemma SortDescSameRows<T>(s: seq<T>, key: T -> int)
    ensures |SortDesc(s, key)| == |s|
    ensures forall x :: x in SortDesc(s, key) <==> x in s
  {
    var r := SortDesc(s, key);
    assert |multiset(r)| == |multiset(s)|;
    forall x ensures x in r <==> x in s {
      assert x in r <==> x in multiset(r);
      assert x in s <==> x in multiset(s);
    }
  }

  /** A window of a descending sequence is descending. */
  lemma WindowKeepsOrder<T>(s: seq<T>, key: T -> int, offset: nat, size: nat)
    requires SortedDesc(s, key)
    ensures SortedDesc(Window(s, offset, size), key)
  {
    var w := Window(s, offset, size);
    forall i, j | 0 <= i < j < |w| ensures key(w[i]) >= key(w[j]) {
      assert w[i] == s[offset + i] && w[j] == s[offset + j];
    }
  }

  /** `Page.map`: one converted row per row, the same total. */
  function MapPage<T, U>(p: Page<T>, f: T -> U): (r: Page<U>)
    ensures r.total == p.total && |r.content| == |p.content|
    ensures forall i :: 0 <= i < |p.content| ==> r.content[i] == f(p.content[i])
  {
    Page(seq(|p.content|, i requires 0 <= i < |p.content| => f(p.content[i])), p.total)
  }
}
