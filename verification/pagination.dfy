/** Pagination in the expense and income list endpoints: the page and
    page-size query parameters, the window the query fetches (one row more
    than a page, to learn whether another page follows), and the counters
    the answer carries. The database is modelled as the filtered, ordered
    list of all matching rows. */
module Pagination {
  import opened Base
  import opened Numbers

  const DefaultPageSize: nat := 25
  const AllowedPageSizes: seq<nat> := [10, 25, 50, 100]

  /** `parsePage(value)`: the parameter read with `Number(value ?? "")`,
      then turned into a page. */
  function ParsePage(value: Option<string>): nat {
    PageOf(NumberOf(value.GetOr("")))
  }

  /** The page a parsed parameter names: page 1 for anything not finite or
      below one, else the number rounded down. */
  function PageOf(parsed: Option<real>): (page: nat)
    ensures page >= 1
    ensures parsed.None? || parsed.value < 1.0 ==> page == 1
    ensures parsed.Some? && parsed.value >= 1.0 ==> page as real <= parsed.value < page as real + 1.0
  {
    match parsed
    case None => 1
    case Some(v) => if v < 1.0 then 1 else v.Floor
  }

  /** `parsePageSize(value)`: the parameter read with `Number(value ?? "")`,
      then turned into a page size. */
  function ParsePageSize(value: Option<string>): nat {
    PageSizeOf(NumberOf(value.GetOr("")))
  }

  /** The page size a parsed parameter names: itself when it is one of the
      allowed sizes, else the default. */
  function PageSizeOf(parsed: Option<real>): (size: nat)
    ensures size in AllowedPageSizes
    ensures (exists k | 0 <= k < |AllowedPageSizes| :: parsed == Some(AllowedPageSizes[k] as real))
              <==> parsed == Some(size as real)
    ensures (forall k | 0 <= k < |AllowedPageSizes| :: parsed != Some(AllowedPageSizes[k] as real)) ==> size == DefaultPageSize
  {
    var k := FirstWhere(AllowedPageSizes, 0, (s: nat) => parsed == Some(s as real));
    if k < |AllowedPageSizes| then AllowedPageSizes[k] else DefaultPageSize
  }

  /** A page number written out in decimal reads back as itself. */
  lemma ParsePageOfDecimal(page: nat)
    requires page >= 1
    ensures ParsePage(Some(DecimalText(page))) == page
  {
    DigitsNumberOf(DecimalText(page));
    DecimalTextValue(page);
  }

  /** So does an allowed page size. */
  lemma ParsePageSizeOfDecimal(size: nat)
    requires size in AllowedPageSizes
    ensures ParsePageSize(Some(DecimalText(size))) == size
  {
    DigitsNumberOf(DecimalText(size));
    DecimalTextValue(size);
  }

  /** The first row a page shows, counted from zero. */
  function Offset(page: nat, size: nat): nat
    requires page >= 1
  {
    (page - 1) * size
  }

  /** `.range(offset, offset + size)`: the rows at positions `offset` to
      `offset + size`, both included, as far as they exist. */
  function Fetch<T>(all: seq<T>, offset: nat, size: nat): (fetched: seq<T>)
    ensures |fetched| <= size + 1
    ensures forall k | 0 <= k < |fetched| :: offset + k < |all| && fetched[k] == all[offset + k]
    ensures |fetched| == if offset >= |all| then 0 else Min(|all| - offset, size + 1)
  {
    if offset >= |all| then [] else all[offset..Min(|all|, offset + size + 1)]
  }

  /** What a list endpoint answers besides its rows. */
  datatype PageView<T> = PageView(rows: seq<T>, page: nat, pageSize: nat, hasNext: bool, showingStart: nat, showingEnd: nat)

  /** A list endpoint's answer for the page `page` of size `size` over the
      matching rows `all`. */
  function Paginate<T>(all: seq<T>, page: nat, size: nat): (v: PageView<T>)
    requires page >= 1
    ensures |v.rows| <= size
    ensures v.page == page && v.pageSize == size
    ensures forall k | 0 <= k < |v.rows| :: Offset(page, size) + k < |all| && v.rows[k] == all[Offset(page, size) + k]
    ensures |v.rows| == if Offset(page, size) >= |all| then 0 else Min(|all| - Offset(page, size), size)
    ensures v.hasNext <==> |all| > Offset(page, size) + size
    ensures v.showingStart == if |v.rows| > 0 then Offset(page, size) + 1 else 0
    ensures v.showingEnd == Offset(page, size) + |v.rows|
  {
    var offset := Offset(page, size);
    var fetched := Fetch(all, offset, size);
    var rows := Take(fetched, size);
    assert forall k | 0 <= k < |rows| :: rows[k] == fetched[k];
    PageView(rows, page, size, |fetched| > size, if |rows| > 0 then offset + 1 else 0, offset + |rows|)
  }

  /** A page's counters name the one-based positions of exactly the rows
      it shows. */
  lemma ShowingMatchesRows<T>(all: seq<T>, page: nat, size: nat)
    requires page >= 1
    ensures var v := Paginate(all, page, size);
            |v.rows| > 0 ==>
              && 1 <= v.showingStart <= v.showingEnd <= |all|
              && v.showingEnd - v.showingStart + 1 == |v.rows|
              && v.rows == all[v.showingStart - 1..v.showingEnd]
  {
  }

  /** `hasNext` says exactly that the following page is not empty. */
  lemma HasNextMeansNextPageNonEmpty<T>(all: seq<T>, page: nat, size: nat)
    requires page >= 1 && size > 0
    ensures Paginate(all, page, size).hasNext <==> |Paginate(all, page + 1, size).rows| > 0
  {
    assert Offset(page + 1, size) == Offset(page, size) + size;
  }

  /** The rows of pages 1 to `n`, in order. */
  function PagesUpTo<T>(all: seq<T>, size: nat, n: nat): seq<T> {
    if n == 0 then [] else PagesUpTo(all, size, n - 1) + Paginate(all, n, size).rows
  }

  /** Paging through from page 1 neither skips nor repeats a row: the
      first `n` pages together are the first `n * size` rows. */
  lemma {:induction false} PagesTile<T>(all: seq<T>, size: nat, n: nat)
    ensures PagesUpTo(all, size, n) == all[..Min(|all|, n * size)]
  {
    if n > 0 {
      PagesTile(all, size, n - 1);
      var lo := Min(|all|, (n - 1) * size);
      var hi := Min(|all|, n * size);
      PageIsSlice(all, size, n);
      assert PagesUpTo(all, size, n) == all[..lo] + all[lo..hi];
      assert all[..hi] == all[..lo] + all[lo..hi];
    }
  }

  /** Page `n` holds the rows from position `(n - 1) * size` up to
      `n * size`, as far as they exist. */
  lemma PageIsSlice<T>(all: seq<T>, size: nat, n: nat)
    requires n >= 1
    ensures (n - 1) * size <= n * size
    ensures Paginate(all, n, size).rows == all[Min(|all|, (n - 1) * size)..Min(|all|, n * size)]
  {
    var lo := (n - 1) * size;
    var hi := n * size;
    assert hi == lo + size by { NextMultiple(n - 1, size); }
    var v := Paginate(all, n, size);
    assert Offset(n, size) == lo;
    if lo >= |all| {
      assert v.rows == [];
    } else {
      assert |v.rows| == Min(|all|, hi) - lo;
    }
  }

  lemma NextMultiple(m: nat, size: nat)
    ensures (m + 1) * size == m * size + size
  {
  }
}
