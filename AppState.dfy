/**
 * The console's session state (the globals of app.js: products, currentPage,
 * pageSize, sortState and the search box's text) and the handlers that change
 * it. Handlers that trigger fetchData return the list URL it requests; the
 * network result is handed back through ApplyFetch.
 */
module AppState {
  import opened Wrappers
  import opened Catalog
  import opened ImageUrl
  import opened Sorting
  import opened Paging
  import opened Requests
  import opened Csv

  /** The outcome of a list request: the returned page, or a failed request or a non-success status. */
  datatype FetchResult = Loaded(data: seq<Product>) | Failed

  /**
   * The page buffer fetchData builds, `{...p, cleanImg: formatImageUrl(p.images)}`
   * for each returned product: every field as returned except a freshly
   * sanitised, always usable display image.
   */
  function CleanPage(data: seq<Product>): (page: seq<Product>)
    ensures |page| == |data|
    ensures forall i :: 0 <= i < |data| ==> page[i].(cleanImg := data[i].cleanImg) == data[i]
    ensures forall i :: 0 <= i < |data| ==> page[i].cleanImg == FormatImageUrl(data[i].images)
    ensures forall i :: 0 <= i < |data| ==> StartsWithHttp(page[i].cleanImg) && Clean(page[i].cleanImg)
  {
    seq(|data|, i requires 0 <= i < |data| => data[i].(cleanImg := FormatImageUrl(data[i].images)))
  }

  /** s[i] is the first product of s with the given id: what `products.find(x => x.id === id)` returns. */
  predicate IsFirstWithId(s: seq<Product>, id: int, i: int) {
    0 <= i < |s| && s[i].id == id && forall j :: 0 <= j < i ==> s[j].id != id
  }

  class Session {
    var products: array<Product>
    var currentPage: int
    var pageSize: int
    var search: string
    var sortKey: Option<SortKey>
    var sortAsc: bool
    /** The products of the last successful fetch, in the order the service returned them. */
    ghost var lastPage: seq<Product>

    /**
     * Pages are numbered from 1, the page size is positive, and the buffer
     * holds exactly the last fetched page, possibly reordered.
     */
    ghost predicate Valid()
      reads this, products
    {
      currentPage >= 1 && pageSize >= 1 && multiset(products[..]) == multiset(lastPage)
    }

    /** The state when the console opens: page 1 of 10, empty search, unsorted, empty buffer. */
    constructor ()
      ensures Valid() && fresh(products) && products[..] == [] && lastPage == []
      ensures currentPage == 1 && pageSize == 10 && search == ""
      ensures SortState(sortKey, sortAsc) == InitialSortState
    {
      products := new Product[0];
      currentPage := 1;
      pageSize := 10;
      search := "";
      sortKey := None;
      sortAsc := true;
      lastPage := [];
    }

    /** The URL fetchData requests for the current state. */
    function ListRequestUrl(encode: string -> string): (url: string)
      reads this
    {
      ListUrl(ApiBase, currentPage, pageSize, search, encode)
    }

    /** Typing in the search box changes its text only; the request waits for the debounce timer. */
    method OnSearchInput(term: string)
      requires Valid()
      modifies this`search
      ensures Valid() && search == term
    {
      search := term;
    }

    /** The debounce timer fires: back to page 1, then fetch. */
    method OnSearchSettled(encode: string -> string) returns (url: string)
      requires Valid()
      modifies this`currentPage
      ensures Valid() && currentPage == 1
      ensures url == ListRequestUrl(encode)
    {
      currentPage := 1;
      url := ListRequestUrl(encode);
    }

    /** A new page size from the selector: back to page 1, then fetch. */
    method OnPageSizeChange(n: int, encode: string -> string) returns (url: string)
      requires Valid() && n >= 1
      modifies this`pageSize, this`currentPage
      ensures Valid() && pageSize == n && currentPage == 1
      ensures url == ListRequestUrl(encode)
    {
      pageSize := n;
      currentPage := 1;
      url := ListRequestUrl(encode);
    }

    /**
     * "Previous": moves back one page and fetches only when not on page 1,
     * that is exactly when the flag computed for the current page, PrevDisabled, is off.
     */
    method OnPrev(encode: string -> string) returns (url: Option<string>)
      requires Valid()
      modifies this`currentPage
      ensures Valid()
      ensures url.None? <==> PrevDisabled(old(currentPage))
      ensures old(currentPage) > 1 ==> currentPage == old(currentPage) - 1 && url == Some(ListRequestUrl(encode))
      ensures old(currentPage) == 1 ==> currentPage == 1
    {
      if currentPage > 1 {
        currentPage := currentPage - 1;
        url := Some(ListRequestUrl(encode));
      } else {
        url := None;
      }
    }

    /** "Next": always moves forward one page and fetches. */
    method OnNext(encode: string -> string) returns (url: string)
      requires Valid()
      modifies this`currentPage
      ensures Valid() && currentPage == old(currentPage) + 1
      ensures url == ListRequestUrl(encode)
    {
      currentPage := currentPage + 1;
      url := ListRequestUrl(encode);
    }

    /**
     * The end of fetchData. A returned page replaces the buffer wholesale with
     * its cleaned products and yields the pager flags; a failure leaves the
     * buffer and the pager as they were. The sort state is kept either way.
     */
    method ApplyFetch(result: FetchResult) returns (flags: Option<PagerFlags>)
      requires Valid()
      modifies this`products, this`lastPage
      ensures Valid()
      ensures result.Loaded? ==> fresh(products) && products[..] == CleanPage(result.data) && lastPage == products[..]
      ensures result.Loaded? ==> flags == Some(PagerFlagsFor(currentPage, |result.data|, pageSize))
      ensures result.Failed? ==> products == old(products) && lastPage == old(lastPage) && flags.None?
    {
      match result {
        case Loaded(data) =>
          var page := CleanPage(data);
          products := new Product[|page|](i requires 0 <= i < |page| => page[i]);
          assert products[..] == page;
          lastPage := page;
          flags := Some(PagerFlagsFor(currentPage, |page|, pageSize));
        case Failed =>
          flags := None;
      }
    }

    /**
     * sortLocal(k): the same key again flips the direction, another key sorts
     * ascending; the buffer is reordered in place by k in that direction.
     */
    method SortLocal(k: SortKey)
      requires Valid()
      modifies this`sortKey, this`sortAsc, products
      ensures Valid()
      ensures SortState(sortKey, sortAsc) == NextSortState(old(SortState(sortKey, sortAsc)), k)
      ensures multiset(products[..]) == old(multiset(products[..]))
      ensures Ordered(products[..], k, sortAsc)
    {
      var st := NextSortState(SortState(sortKey, sortAsc), k);
      sortKey, sortAsc := st.key, st.asc;
      SortProducts(products, k, sortAsc);
    }

    /** viewDetail(id): the first product of the current page with that id, or nothing when the page has none. */
    method ViewDetail(id: int) returns (found: Option<Product>)
      ensures found.None? <==> forall i :: 0 <= i < products.Length ==> products[i].id != id
      ensures found.Some? ==> exists i :: IsFirstWithId(products[..], id, i) && products[i] == found.value
    {
      var i := 0;
      while i < products.Length
        invariant 0 <= i <= products.Length
        invariant forall j :: 0 <= j < i ==> products[j].id != id
      {
        if products[i].id == id {
          assert IsFirstWithId(products[..], id, i);
          return Some(products[i]);
        }
        i := i + 1;
      }
      return None;
    }

    /** exportCSV: the header and one line per buffered product, in buffer order. */
    method ExportCsv() returns (csv: string)
      ensures csv == CsvDocument(products[..])
    {
      csv := Header;
      var i := 0;
      while i < products.Length
        invariant 0 <= i <= products.Length
        invariant csv == CsvDocument(products[..i])
      {
        var p := products[i];
        CsvDocumentSnoc(products[..i], p);
        assert products[..i + 1] == products[..i] + [p];
        csv := csv + CsvLine(p);
        i := i + 1;
      }
      assert products[..] == products[..products.Length];
    }
  }
}
