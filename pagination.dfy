/** The infinite-scroll page counter (src/composables/usePagination.js). */
module Pagination {

  /** `items.slice(0, page * pageSize)` for a non-negative end. */
  function Displayed<T>(items: seq<T>, page: nat, pageSize: nat): (r: seq<T>)
    ensures |r| == if page * pageSize < |items| then page * pageSize else |items|
    ensures r <= items
  {
    if page * pageSize < |items| then items[..page * pageSize] else items
  }

  /** `displayedItems.length < items.length`: there is more to show exactly when the pages
      shown so far do not cover the list. */
  function MoreAt<T>(items: seq<T>, page: nat, pageSize: nat): (r: bool)
    ensures r <==> page * pageSize < |items|
  {
    |Displayed(items, page, pageSize)| < |items|
  }

  /** Another page extends what is shown: the old prefix is a prefix of the new one, and it
      grows by a full page or up to the end of the list. */
  lemma NextPageExtends<T>(items: seq<T>, page: nat, pageSize: nat)
    ensures Displayed(items, page, pageSize) <= Displayed(items, page + 1, pageSize)
    ensures MoreAt(items, page, pageSize) ==>
      |Displayed(items, page + 1, pageSize)|
        == if (page + 1) * pageSize < |items| then |Displayed(items, page, pageSize)| + pageSize else |items|
  {
    assert (page + 1) * pageSize == page * pageSize + pageSize;
  }

  /** With a positive page size, enough pages show the whole list. */
  lemma EnoughPagesShowAll<T>(items: seq<T>, pageSize: nat)
    requires pageSize > 0
    ensures Displayed(items, |items|, pageSize) == items
    ensures !MoreAt(items, |items|, pageSize)
  {
    assert |items| * pageSize >= |items| * 1;
  }

  /** The composable's state over the list it pages. */
  class Pager<T> {
    var items: seq<T>
    var currentPage: nat
    var isLoading: bool
    const pageSize: nat

    /** The page counter never drops below its initial 1. */
    predicate Valid()
      reads this
    {
      currentPage >= 1
    }

    /** `displayedItems`. */
    function DisplayedItems(): (r: seq<T>)
      reads this
      ensures r <= items
    {
      Displayed(items, currentPage, pageSize)
    }

    /** `hasMore`. */
    predicate HasMore()
      reads this
    {
      MoreAt(items, currentPage, pageSize)
    }

    /** `usePagination(items, pageSize)`. */
    constructor (items: seq<T>, pageSize: nat)
      ensures Valid()
      ensures this.items == items && this.pageSize == pageSize
      ensures currentPage == 1 && !isLoading
    {
      this.items := items;
      this.pageSize := pageSize;
      currentPage := 1;
      isLoading := false;
    }

    /** `loadMore()`: nothing while loading or when everything is shown; otherwise exactly
        one more page, and the loading flag is set until the next tick. */
    method LoadMore()
      requires Valid()
      modifies this
      ensures Valid()
      ensures items == old(items)
      ensures old(isLoading) || !old(HasMore()) ==>
        currentPage == old(currentPage) && isLoading == old(isLoading)
      ensures !old(isLoading) && old(HasMore()) ==>
        currentPage == old(currentPage) + 1 && isLoading
        && old(DisplayedItems()) <= DisplayedItems()
        && (pageSize > 0 ==> old(DisplayedItems()) < DisplayedItems())
    {
      if isLoading || !HasMore() {
        return;
      }
      isLoading := true;
      currentPage := currentPage + 1;
      NextPageExtends(items, currentPage - 1, pageSize);
    }

    /** The `nextTick` callback of `loadMore`. */
    method FinishTick()
      requires Valid()
      modifies this
      ensures Valid()
      ensures !isLoading && currentPage == old(currentPage) && items == old(items)
    {
      isLoading := false;
    }

    /** `resetPagination()`. */
    method ResetPagination()
      modifies this
      ensures Valid()
      ensures currentPage == 1 && items == old(items) && isLoading == old(isLoading)
    {
      currentPage := 1;
    }

    /** A new list from the caller; the length watcher resets the page when the length
        changes. */
    method SetItems(newItems: seq<T>)
      requires Valid()
      modifies this
      ensures Valid()
      ensures items == newItems && isLoading == old(isLoading)
      ensures |newItems| != |old(items)| ==> currentPage == 1
      ensures |newItems| == |old(items)| ==> currentPage == old(currentPage)
    {
      var changed := |newItems| != |items|;
      items := newItems;
      if changed {
        ResetPagination();
      }
    }
  }
}
