/**
 * `Array.prototype.sort` with a comparator, as the adapters use it on a
 * copy of a list. The sort is stable (ECMAScript 2019 requires it); the model
 * is an insertion sort that places each element after every element that is
 * not greater than it, so equal elements keep their input order.
 */
module Sorting {

  /** `le` behaves as "comparator(a, b) <= 0" of a consistent comparator. */
  ghost predicate TotalPreorder<T(!new)>(le: (T, T) -> bool) {
    && (forall a, b :: le(a, b) || le(b, a))
    && (forall a, b, c :: le(a, b) && le(b, c) ==> le(a, c))
  }

  ghost predicate SortedBy<T>(s: seq<T>, le: (T, T) -> bool) {
    forall i, j :: 0 <= i < j < |s| ==> le(s[i], s[j])
  }

  /** Insert `x` after the leading elements that are not greater than it. */
  function Insert<T>(s: seq<T>, x: T, le: (T, T) -> bool): (r: seq<T>)
    ensures multiset(r) == multiset(s) + multiset{x}
    ensures |r| == |s| + 1
  {
    if s == [] then [x]
    else if le(s[0], x) then
      assert s == [s[0]] + s[1..];
      [s[0]] + Insert(s[1..], x, le)
    else [x] + s
  }

  /** The list sorted by `le`: a permutation of the input. */
  function SortBy<T>(s: seq<T>, le: (T, T) -> bool): (r: seq<T>)
    ensures multiset(r) == multiset(s)
    ensures |r| == |s|
  {
    if s == [] then []
    else
      assert s == s[..|s| - 1] + [s[|s| - 1]];
      Insert(SortBy(s[..|s| - 1], le), s[|s| - 1], le)
  }

  /** Every element of `Insert(s, x, le)` is `x` or an element of `s`. */
  lemma InsertElements<T>(s: seq<T>, x: T, le: (T, T) -> bool)
    ensures forall y :: y in Insert(s, x, le) ==> y == x || y in s
  {
    var r := Insert(s, x, le);
    forall y | y in r
      ensures y == x || y in s
    {
      assert y in multiset(r);
    }
  }

  lemma {:induction false} InsertSorted<T(!new)>(s: seq<T>, x: T, le: (T, T) -> bool)
    requires TotalPreorder(le) && SortedBy(s, le)
    ensures SortedBy(Insert(s, x, le), le)
  {
    if s != [] && le(s[0], x) {
      var tail := s[1..];
      assert SortedBy(tail, le);
      InsertSorted(tail, x, le);
      var r := Insert(tail, x, le);
      InsertElements(tail, x, le);
      assert Insert(s, x, le) == [s[0]] + r;
      forall y | y in r
        ensures le(s[0], y)
      {
        if y != x {
          var k :| 0 <= k < |tail| && tail[k] == y;
          assert s[k + 1] == y;
        }
      }
      forall i, j | 0 <= i < j < |r| + 1
        ensures le(([s[0]] + r)[i], ([s[0]] + r)[j])
      {
        assert r[j - 1] in r;
        if i > 0 {
          assert ([s[0]] + r)[i] == r[i - 1] && ([s[0]] + r)[j] == r[j - 1];
        }
      }
    }
  }

  /** The result of SortBy is ordered by `le`. */
  lemma {:induction false} SortBySorted<T(!new)>(s: seq<T>, le: (T, T) -> bool)
    requires TotalPreorder(le)
    ensures SortedBy(SortBy(s, le), le)
  {
    if s != [] {
      SortBySorted(s[..|s| - 1], le);
      InsertSorted(SortBy(s[..|s| - 1], le), s[|s| - 1], le);
    }
  }

  /** Sorting neither adds nor loses elements. */
  lemma SortBySameElements<T>(s: seq<T>, le: (T, T) -> bool, x: T)
    ensures x in SortBy(s, le) <==> x in s
  {
    assert x in multiset(SortBy(s, le)) <==> x in multiset(s);
  }

  /** `r` is `rf` with `x` spliced in at position `q`. */
  ghost predicate SplicedAt<T>(r: seq<T>, rf: seq<T>, x: T, q: nat) {
    && q <= |rf| && |r| == |rf| + 1 && r[q] == x
    && (forall j :: 0 <= j < q ==> r[j] == rf[j])
    && (forall j :: q < j < |r| ==> r[j] == rf[j - 1])
  }

  /** Where `Insert` puts `x`: after the leading elements not greater than it. */
  lemma {:induction false} InsertAt<T>(s: seq<T>, x: T, le: (T, T) -> bool) returns (q: nat)
    ensures SplicedAt(Insert(s, x, le), s, x, q)
    ensures forall j :: 0 <= j < q ==> le(s[j], x)
    ensures q < |s| ==> !le(s[q], x)
  {
    if s == [] || !le(s[0], x) {
      q := 0;
    } else {
      var tail := s[1..];
      var q' := InsertAt(tail, x, le);
      q := q' + 1;
      var r := Insert(s, x, le);
      var rt := Insert(tail, x, le);
      assert r == [s[0]] + rt;
      forall j | 0 < j < |r|
        ensures r[j] == rt[j - 1]
      {
      }
      forall j | 0 < j < q
        ensures r[j] == s[j] && le(s[j], x)
      {
        assert s[j] == tail[j - 1];
      }
      forall j | q < j < |r|
        ensures r[j] == s[j - 1]
      {
        assert s[j - 1] == tail[j - 2];
      }
    }
  }

  /** `SortBy` inserts the last element into the sorted front; `q` is where it lands. */
  lemma SortByLast<T>(s: seq<T>, le: (T, T) -> bool) returns (q: nat)
    requires |s| > 0
    ensures var rf := SortBy(s[..|s| - 1], le);
      && SplicedAt(SortBy(s, le), rf, s[|s| - 1], q)
      && (forall j :: 0 <= j < q ==> le(rf[j], s[|s| - 1]))
      && (q < |rf| ==> !le(rf[q], s[|s| - 1]))
  {
    q := InsertAt(SortBy(s[..|s| - 1], le), s[|s| - 1], le);
  }

  /** Every element of the sorted front that satisfies `P` is greater than the last element, when that one is strictly less than each earlier one. */
  lemma FrontAllGreater<T>(s: seq<T>, le: (T, T) -> bool, P: T -> bool)
    requires |s| > 0
    requires forall j :: 0 <= j < |s| - 1 && P(s[j]) ==> !le(s[j], s[|s| - 1])
    ensures forall y :: y in SortBy(s[..|s| - 1], le) && P(y) ==> !le(y, s[|s| - 1])
  {
    var front := s[..|s| - 1];
    forall y | y in SortBy(front, le) && P(y)
      ensures !le(y, s[|s| - 1])
    {
      SortBySameElements(front, le, y);
      var m :| 0 <= m < |front| && front[m] == y;
      assert s[m] == y;
    }
  }

  /** The spliced element is first among those satisfying `P` when every element of the front satisfying `P` is greater. */
  lemma InsertedFirst<T>(r: seq<T>, rf: seq<T>, x: T, le: (T, T) -> bool, P: T -> bool, q: nat)
    requires SplicedAt(r, rf, x, q)
    requires forall j :: 0 <= j < q ==> le(rf[j], x)
    requires forall y :: y in rf && P(y) ==> !le(y, x)
    ensures forall j :: 0 <= j < q ==> !P(r[j])
  {
    forall j | 0 <= j < q
      ensures !P(r[j])
    {
      assert rf[j] in rf;
    }
  }

  /** An element first among those satisfying `P` stays first when an element not satisfying `P`, or one placed after it, is spliced in. */
  lemma SplicedKeepsFirst<T>(r: seq<T>, rf: seq<T>, x: T, P: T -> bool, q: nat, k': nat) returns (k: nat)
    requires SplicedAt(r, rf, x, q) && k' < |rf|
    requires forall j :: 0 <= j < k' ==> !P(rf[j])
    requires q <= k' ==> !P(x)
    ensures k < |r| && r[k] == rf[k']
    ensures forall j :: 0 <= j < k ==> !P(r[j])
  {
    k := if q > k' then k' else k' + 1;
  }

  /** In a sorted list, an element not below the one at position k' is not below any earlier one either. */
  lemma InsertedNotBefore<T(!new)>(rf: seq<T>, x: T, le: (T, T) -> bool, q: nat, k': nat, m: T)
    requires TotalPreorder(le) && SortedBy(rf, le)
    requires q <= k' < |rf| && rf[k'] == m && le(m, x)
    ensures q < |rf| && le(rf[q], x)
  {
    if q < k' {
      assert le(rf[q], rf[k']);
    }
  }

  /** The last element comes first among those satisfying `P` when every earlier element satisfying `P` is greater. */
  lemma LastFirst<T>(s: seq<T>, le: (T, T) -> bool, P: T -> bool) returns (k: nat)
    requires |s| > 0
    requires forall j :: 0 <= j < |s| - 1 && P(s[j]) ==> !le(s[j], s[|s| - 1])
    ensures k < |SortBy(s, le)| && SortBy(s, le)[k] == s[|s| - 1]
    ensures forall j :: 0 <= j < k ==> !P(SortBy(s, le)[j])
  {
    var q := SortByLast(s, le);
    FrontAllGreater(s, le, P);
    InsertedFirst(SortBy(s, le), SortBy(s[..|s| - 1], le), s[|s| - 1], le, P, q);
    k := q;
  }

  /**
   * An element first among those satisfying `P` in the sorted front stays
   * first once the last element is inserted, when the last element does not
   * satisfy `P` or is not below it.
   */
  lemma LastKeepsFirst<T(!new)>(s: seq<T>, rf: seq<T>, le: (T, T) -> bool, P: T -> bool, k': nat) returns (k: nat)
    requires TotalPreorder(le) && |s| > 0 && rf == SortBy(s[..|s| - 1], le)
    requires k' < |rf|
    requires forall j :: 0 <= j < k' ==> !P(rf[j])
    requires P(s[|s| - 1]) ==> le(rf[k'], s[|s| - 1])
    ensures k < |SortBy(s, le)| && SortBy(s, le)[k] == rf[k']
    ensures forall j :: 0 <= j < k ==> !P(SortBy(s, le)[j])
  {
    var x := s[|s| - 1];
    var q := SortByLast(s, le);
    if q <= k' && P(x) {
      SortBySorted(s[..|s| - 1], le);
      InsertedNotBefore(rf, x, le, q, k', rf[k']);
      assert false;
    }
    k := SplicedKeepsFirst(SortBy(s, le), rf, x, P, q, k');
  }

  /**
   * Stability, as the adapters rely on it: an element that satisfies `P`, is
   * not greater than any element satisfying `P`, and is strictly less than
   * every earlier element satisfying `P`, is the first element of the sorted
   * list that satisfies `P`; the sorted position is returned.
   */
  lemma {:induction false} SortByFirstMinimal<T(!new)>(s: seq<T>, le: (T, T) -> bool, P: T -> bool, i: nat)
    returns (k: nat)
    requires TotalPreorder(le)
    requires i < |s| && P(s[i])
    requires forall j :: 0 <= j < |s| && P(s[j]) ==> le(s[i], s[j])
    requires forall j :: 0 <= j < i && P(s[j]) ==> !le(s[j], s[i])
    ensures k < |SortBy(s, le)| && SortBy(s, le)[k] == s[i]
    ensures forall j :: 0 <= j < k ==> !P(SortBy(s, le)[j])
  {
    var n := |s| - 1;
    if i == n {
      k := LastFirst(s, le, P);
    } else {
      var front := s[..n];
      assert forall j :: 0 <= j < |front| ==> front[j] == s[j];
      var k' := SortByFirstMinimal(front, le, P, i);
      k := LastKeepsFirst(s, SortBy(front, le), le, P, k');
    }
  }
}
