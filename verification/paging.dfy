/**
 * Django's `Paginator` as the list views drive it: a page parameter that is
 * not an integer serves page 1, one outside 1..num_pages serves the last page.
 */
module Paging {
  import opened Wrappers
  import Decimal
  import Text
  import Sorting

  const SongsPerPage: nat := 20
  const ArtistsPerPage: nat := 24
  const HistoryPerPage: nat := 50

  datatype Page<T> = Page(items: seq<T>, number: nat, numPages: nat)

  /** Number of items on the first `pages` full pages (`pages * perPage`, built by repeated addition). */
  function Offset(pages: nat, perPage: nat): nat
  {
    if pages == 0 then 0 else Offset(pages - 1, perPage) + perPage
  }

  lemma {:induction false} OffsetIsProduct(pages: nat, perPage: nat)
    ensures Offset(pages, perPage) == pages * perPage
  {
    if pages > 0 {
      OffsetIsProduct(pages - 1, perPage);
    }
  }

  lemma {:induction false} OffsetMonotone(a: nat, b: nat, perPage: nat)
    requires a < b
    ensures Offset(a, perPage) + perPage <= Offset(b, perPage)
    decreases b
  {
    if a < b - 1 {
      OffsetMonotone(a, b - 1, perPage);
    }
  }

  /**
   * `num_pages` with `allow_empty_first_page`: the fewest pages of `perPage`
   * that hold `count` items, and never fewer than one.
   */
  function NumPages(count: nat, perPage: nat): (n: nat)
    requires perPage > 0
    ensures n >= 1
    ensures count <= Offset(n, perPage)
    ensures count == 0 || Offset(n - 1, perPage) < count
    decreases count
  {
    if count <= perPage then 1 else 1 + NumPages(count - perPage, perPage)
  }

  /** The page the view serves for the raw `page` query parameter. */
  function PageNumber(param: Option<string>, count: nat, perPage: nat): (n: nat)
    requires perPage > 0
    ensures 1 <= n <= NumPages(count, perPage)
    ensures param.None? || Decimal.ParseInt(param.value).None? ==> n == 1
    ensures param.Some? && Decimal.ParseInt(param.value).Some? ==>
      var k := Decimal.ParseInt(param.value).value;
      (1 <= k <= NumPages(count, perPage) ==> n == k)
      && (!(1 <= k <= NumPages(count, perPage)) ==> n == NumPages(count, perPage))
  {
    var last := NumPages(count, perPage);
    if param.None? then 1
    else
      match Decimal.ParseInt(param.value)
      case None => 1
      case Some(k) => if 1 <= k <= last then k else last
  }

  /** Where page `n` starts: inside the items, a full page before the last, and the rest on the last. */
  lemma PageBounds(count: nat, perPage: nat, n: nat)
    requires perPage > 0 && 1 <= n <= NumPages(count, perPage)
    ensures Offset(n - 1, perPage) <= count
    ensures n < NumPages(count, perPage) ==> Offset(n - 1, perPage) + perPage <= count
    ensures n == NumPages(count, perPage) ==> count <= Offset(n - 1, perPage) + perPage
  {
    var last := NumPages(count, perPage);
    if n < last {
      OffsetMonotone(n - 1, last - 1, perPage);
    } else {
      assert Offset(last, perPage) == Offset(last - 1, perPage) + perPage;
    }
  }

  /** `paginator.page(number)` after the view's fallbacks: the slice of `items` it shows. */
  function Paginate<T>(items: seq<T>, perPage: nat, param: Option<string>): (p: Page<T>)
    requires perPage > 0
    ensures p.number == PageNumber(param, |items|, perPage)
    ensures p.numPages == NumPages(|items|, perPage)
    ensures |p.items| <= perPage
    ensures var lo := Offset(p.number - 1, perPage);
      lo + |p.items| <= |items| && p.items == items[lo..lo + |p.items|]
    ensures p.number < p.numPages ==> |p.items| == perPage
    ensures p.number == p.numPages ==> Offset(p.number - 1, perPage) + |p.items| == |items|
  {
    var n := PageNumber(param, |items|, perPage);
    var last := NumPages(|items|, perPage);
    var lo := Offset(n - 1, perPage);
    PageBounds(|items|, perPage, n);
    var hi := if lo + perPage <= |items| then lo + perPage else |items|;
    Page(items[lo..hi], n, last)
  }

  /** Writing a served page number back into the parameter serves the same page. */
  lemma PageNumberStable(param: Option<string>, count: nat, perPage: nat)
    requires perPage > 0
    ensures var n := PageNumber(param, count, perPage);
      PageNumber(Some(Decimal.ShowNat(n)), count, perPage) == n
  {
    Decimal.ParseIntShowNat(PageNumber(param, count, perPage));
  }

  /** Item `(k - 1) * perPage + j` is shown at position `j` of page `k`. */
  lemma ItemOnItsPage<T>(items: seq<T>, perPage: nat, k: nat, j: nat)
    requires perPage > 0 && k >= 1 && j < perPage
    requires Offset(k - 1, perPage) + j < |items|
    ensures var p := Paginate(items, perPage, Some(Decimal.ShowNat(k)));
      p.number == k && j < |p.items| && p.items[j] == items[Offset(k - 1, perPage) + j]
  {
    var last := NumPages(|items|, perPage);
    Decimal.ParseIntShowNat(k);
    if k > last {
      OffsetMonotone(last, k - 1, perPage);
    }
  }

  /** A page parameter that is not an integer serves page 1. */
  lemma NonNumericPage<T>(items: seq<T>, perPage: nat)
    requires perPage > 0
    ensures Paginate(items, perPage, Some("abc")).number == 1
  {
    Text.StripUntrimmed("abc");
    assert !Decimal.IsDigit('a');
  }

  /** Three songs: any page past the first, 9999 say, is out of range and serves page 1 with all three. */
  lemma ThreeSongsOnePage<T>(items: seq<T>, k: nat)
    requires |items| == 3 && k >= 2
    ensures Paginate(items, SongsPerPage, Some(Decimal.ShowNat(k))) == Page(items, 1, 1)
  {
    Decimal.ParseIntShowNat(k);
  }

  /** A page shows only items of the listing, and a listing without repeats gives a page without repeats. */
  lemma PageFromItems<T>(items: seq<T>, perPage: nat, param: Option<string>)
    requires perPage > 0
    ensures forall x :: x in Paginate(items, perPage, param).items ==> x in items
    ensures Sorting.NoDup(items) ==> Sorting.NoDup(Paginate(items, perPage, param).items)
  {
    var p := Paginate(items, perPage, param);
    var lo := Offset(p.number - 1, perPage);
    assert forall i :: 0 <= i < |p.items| ==> p.items[i] == items[lo + i];
  }

  /** A page of a sorted listing is sorted. */
  lemma PageKeepsOrder<T>(items: seq<T>, perPage: nat, param: Option<string>, key: T -> Sorting.Rank)
    requires perPage > 0
    requires Sorting.SortedBy(items, key)
    ensures Sorting.SortedBy(Paginate(items, perPage, param).items, key)
  {
    var p := Paginate(items, perPage, param);
    var lo := Offset(p.number - 1, perPage);
    assert forall i :: 0 <= i < |p.items| ==> p.items[i] == items[lo + i];
  }
}
