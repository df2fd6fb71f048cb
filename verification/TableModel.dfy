/** The state behind the card table: the search term, the sort column and
    direction, and how many rows are shown. */
module TableModel {

  datatype SortField = Front | Back | Created | NextReview

  datatype SortOrder = Asc | Desc

  /** The other direction. */
  function Toggled(order: SortOrder): (r: SortOrder)
    ensures r != order
    ensures r == Asc <==> order == Desc
  {
    match order
    case Asc => Desc
    case Desc => Asc
  }

  /** Toggling twice gives the direction back. */
  lemma ToggleTwice(order: SortOrder)
    ensures Toggled(Toggled(order)) == order
  {
  }

  /** Rows are revealed ten at a time. */
  const PAGE_SIZE: nat := 10

  class Table {
    var searchTerm: string
    var sortBy: SortField
    var sortOrder: SortOrder
    var visibleCount: nat

    /** The row count starts at one page and only ever grows by a page, so
        it is always a positive multiple of the page size. */
    ghost predicate Valid()
      reads this
    {
      PAGE_SIZE <= visibleCount && visibleCount % PAGE_SIZE == 0
    }

    constructor()
      ensures Valid()
      ensures searchTerm == "" && sortBy == Created && sortOrder == Desc && visibleCount == PAGE_SIZE
    {
      searchTerm := "";
      sortBy := Created;
      sortOrder := Desc;
      visibleCount := PAGE_SIZE;
    }

    method SetSearchTerm(term: string)
      requires Valid()
      modifies this
      ensures Valid()
      ensures searchTerm == term
      ensures sortBy == old(sortBy) && sortOrder == old(sortOrder) && visibleCount == old(visibleCount)
    {
      searchTerm := term;
    }

    method SetSortBy(field: SortField)
      requires Valid()
      modifies this
      ensures Valid()
      ensures sortBy == field
      ensures searchTerm == old(searchTerm) && sortOrder == old(sortOrder) && visibleCount == old(visibleCount)
    {
      sortBy := field;
    }

    method SetSortOrder(order: SortOrder)
      requires Valid()
      modifies this
      ensures Valid()
      ensures sortOrder == order
      ensures searchTerm == old(searchTerm) && sortBy == old(sortBy) && visibleCount == old(visibleCount)
    {
      sortOrder := order;
    }

    /** `toggleSortOrder`: the other direction, nothing else. */
    method ToggleSortOrder()
      requires Valid()
      modifies this
      ensures Valid()
      ensures sortOrder != old(sortOrder) && sortOrder == Toggled(old(sortOrder))
      ensures searchTerm == old(searchTerm) && sortBy == old(sortBy) && visibleCount == old(visibleCount)
    {
      sortOrder := Toggled(sortOrder);
    }

    /** `clearSearch`: the empty term, nothing else. */
    method ClearSearch()
      requires Valid()
      modifies this
      ensures Valid()
      ensures searchTerm == ""
      ensures sortBy == old(sortBy) && sortOrder == old(sortOrder) && visibleCount == old(visibleCount)
    {
      searchTerm := "";
    }

    /** `showMore`: one more page of rows, nothing else. */
    method ShowMore()
      requires Valid()
      modifies this
      ensures Valid()
      ensures visibleCount == old(visibleCount) + PAGE_SIZE
      ensures searchTerm == old(searchTerm) && sortBy == old(sortBy) && sortOrder == old(sortOrder)
    {
      visibleCount := visibleCount + PAGE_SIZE;
    }
  }
}
