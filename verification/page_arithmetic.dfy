/** The integer helpers of lettersmith/paging.py: how many pages a listing
    needs, which items fall on a page, and the neighbouring page indices that
    templates use for "previous" and "next" links. */
module PageArithmetic {
  import opened Wrappers
  import opened Arith

  /** The exceptions the paging code raises. */
  datatype Error =
    | ZeroDivision         // dividing by a page size of zero
    | NegativeSliceIndex   // `islice` refuses a negative start or stop
    | NonPositivePageSize  // assumed: the chunk helper rejects a group size below 1

  /** `c` is the ceiling of the rational number `length / perPage`:
      `c - 1 < length / perPage <= c`, multiplied out by `perPage`. */
  ghost predicate IsCeiling(c: int, length: int, perPage: int)
    requires perPage != 0
  {
    if perPage > 0 then (c - 1) * perPage < length <= c * perPage
    else c * perPage <= length < (c - 1) * perPage
  }

  /** The ceiling of a rational number is unique. */
  lemma CeilingUnique(c1: int, c2: int, length: int, perPage: int)
    requires perPage != 0
    requires IsCeiling(c1, length, perPage) && IsCeiling(c2, length, perPage)
    ensures c1 == c2
  {
    var k := if perPage > 0 then perPage else -perPage;
    if c1 > c2 {
      MulAtLeast(c1 - c2, k);
    } else if c2 > c1 {
      MulAtLeast(c2 - c1, k);
    }
  }

  /** Negating the floor of `-length / perPage` gives the ceiling of
      `length / perPage`, for a positive page size. */
  lemma CeilingFromPositive(length: int, perPage: int, q: int, m: int)
    requires perPage > 0 && 0 <= m < perPage
    requires -length == q * perPage + m
    ensures IsCeiling(-q, length, perPage)
  {
  }

  /** Negating the floor of `length / -perPage` gives the ceiling of
      `length / perPage`, for a negative page size. */
  lemma CeilingFromNegative(length: int, perPage: int, q: int, m: int)
    requires perPage < 0 && 0 <= m < -perPage
    requires length == q * (-perPage) + m
    ensures IsCeiling(-q, length, perPage)
  {
  }

  /** Exact ceiling division on integers, for either sign of the divisor. */
  function CeilDiv(length: int, perPage: int): (c: int)
    requires perPage != 0
    ensures IsCeiling(c, length, perPage)
  {
    if perPage > 0 then
      var q := (-length) / perPage;
      CeilingFromPositive(length, perPage, q, (-length) % perPage);
      -q
    else
      var q := length / (-perPage);
      CeilingFromNegative(length, perPage, q, length % (-perPage));
      -q
  }

  /** `count_pages(length, per_page)`: the number of pages of `perPage`
      items needed for `length` items, the exact ceiling of their quotient;
      a page size of zero is a division by zero. */
  function CountPages(length: int, perPage: int): (r: Result<int, Error>)
    ensures r.Failure? <==> perPage == 0
    ensures r.Failure? ==> r.error == ZeroDivision
    ensures r.Success? ==> IsCeiling(r.value, length, perPage)
  {
    if perPage == 0 then Failure(ZeroDivision) else Success(CeilDiv(length, perPage))
  }

  /** For an item count and a positive page size, the page count is the
      integer formula `(length + perPage - 1) / perPage`; it is zero exactly
      for an empty listing. */
  lemma CountPagesOfLength(length: nat, perPage: int)
    requires perPage > 0
    ensures CountPages(length, perPage) == Success((length + perPage - 1) / perPage)
    ensures CountPages(length, perPage).value >= 0
    ensures CountPages(length, perPage).value == 0 <==> length == 0
  {
    var c := CountPages(length, perPage).value;
    var d := (length + perPage - 1) / perPage;
    var m := (length + perPage - 1) % perPage;
    assert length + perPage - 1 == d * perPage + m;
    assert (d - 1) * perPage == d * perPage - perPage;
    assert IsCeiling(d, length, perPage);
    CeilingUnique(c, d, length, perPage);
    if length == 0 {
      DivUnique(perPage - 1, perPage, 0, perPage - 1);
    }
  }

  /** `slice_page(s, pageI, perPage)`: the items of page `pageI` (counted
      from 0), that is the elements of `s` from index `pageI * perPage` up to
      but excluding `pageI * perPage + perPage`, clipped to the end of `s`;
      `islice` rejects a negative start or stop. */
  function SlicePage<T>(s: seq<T>, pageI: int, perPage: int): (r: Result<seq<T>, Error>)
    ensures r.Failure? <==> pageI * perPage < 0 || pageI * perPage + perPage < 0
    ensures r.Failure? ==> r.error == NegativeSliceIndex
    ensures r.Success? ==>
      |r.value| == Max(0, Min(pageI * perPage + perPage, |s|) - pageI * perPage)
    ensures r.Success? ==>
      forall k :: 0 <= k < |r.value| ==> r.value[k] == s[pageI * perPage + k]
  {
    var start := pageI * perPage;
    var stop := start + perPage;
    if start < 0 || stop < 0 then Failure(NegativeSliceIndex)
    else
      var lo := Min(start, |s|);
      var hi := Max(lo, Min(stop, |s|));
      Success(s[lo..hi])
  }

  /** For a page index from 0 and a positive page size the slice always
      succeeds: it holds at most `perPage` items, it is empty exactly when
      the page starts at or past the end, and otherwise it is the window
      `[pageI * perPage, min(pageI * perPage + perPage, |s|))` of `s`. */
  lemma SlicePageWindow<T>(s: seq<T>, pageI: nat, perPage: int)
    requires perPage > 0
    ensures SlicePage(s, pageI, perPage).Success?
    ensures |SlicePage(s, pageI, perPage).value| <= perPage
    ensures SlicePage(s, pageI, perPage).value == [] <==> pageI * perPage >= |s|
    ensures pageI * perPage < |s| ==>
      SlicePage(s, pageI, perPage).value == s[pageI * perPage .. Min(pageI * perPage + perPage, |s|)]
  {
    var start := pageI * perPage;
    assert start >= 0;
  }

  /** `prev_i(i)`: the index of the previous page, never below 0. */
  function PrevIndex(i: int): (r: int)
    ensures r >= 0
    ensures i >= 1 ==> r == i - 1
    ensures i <= 0 ==> r == 0
  {
    Max(i - 1, 0)
  }

  /** `next_i(i, length)`: the index of the next page, never past the last
      index `length - 1`. For a valid index it stays a valid index, and it
      moves forward by one except at the last page. */
  function NextIndex(i: int, length: int): (r: int)
    ensures r <= length - 1 && r <= i + 1
    ensures r == i + 1 || r == length - 1
    ensures 0 <= i < length ==> i <= r < length
    ensures 0 <= i < length ==> (r == i <==> i == length - 1)
  {
    Min(i + 1, length - 1)
  }

  /** Going forward then back, or back then forward, returns to the same
      page wherever the move is possible. */
  lemma PrevNextRoundTrip(i: int, length: int)
    ensures 0 <= i < length - 1 ==> PrevIndex(NextIndex(i, length)) == i
    ensures 0 < i < length ==> NextIndex(PrevIndex(i), length) == i
  {
  }
}
