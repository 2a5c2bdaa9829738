/** The note list query of one vehicle: an optional case-insensitive author
    substring filter, an inclusive creation-time range, newest first, an
    offset/limit window and a separate count under the same predicates. */
module VehicleNoteQueries {
  import opened Wrappers
  import opened Text
  import opened Domain
  import opened Paging

  /** The sort key: `ORDER BY createdAt DESC`. */
  function CreatedAtOf(n: VehicleNote): int { n.createdAt }

  /** `lower(author) LIKE '%' + filter.lowercase() + '%'`. */
  predicate AuthorMatches(author: string, filter: string) {
    Contains(ToLower(author), ToLower(filter))
  }

  predicate Matches(n: VehicleNote, vehicleId: int, author: Option<string>,
                    from: Option<Timestamp>, to: Option<Timestamp>) {
    && n.vehicleId == vehicleId
    && (author.None? || AuthorMatches(n.author, author.value))
    && (from.None? || from.value <= n.createdAt)
    && (to.None? || n.createdAt <= to.value)
  }

  function Criteria(vehicleId: int, author: Option<string>,
                    from: Option<Timestamp>, to: Option<Timestamp>): VehicleNote -> bool {
    n => Matches(n, vehicleId, author, from, to)
  }

  /** The matching notes, newest first. */
  function Sorted(rows: seq<VehicleNote>, vehicleId: int, author: Option<string>,
                  from: Option<Timestamp>, to: Option<Timestamp>): seq<VehicleNote> {
    SortDesc(Filter(rows, Criteria(vehicleId, author, from, to)), CreatedAtOf)
  }

  /** `findByVehicleIdWithFilters(vehicleId, author, from, to, pageable)` over the table's rows. */
  function FindByVehicleIdWithFilters(rows: seq<VehicleNote>, vehicleId: int,
                                      author: Option<string>, from: Option<Timestamp>,
                                      to: Option<Timestamp>, pageable: Pageable): (page: Page<VehicleNote>)
    ensures forall n :: n in page.content ==>
              && n in rows
              && n.vehicleId == vehicleId
              && (author.Some? ==> AuthorMatches(n.author, author.value))
              && (from.Some? ==> from.value <= n.createdAt)
              && (to.Some? ==> n.createdAt <= to.value)
    ensures SortedDesc(page.content, CreatedAtOf)
    ensures |page.content| <= pageable.pageSize && |page.content| <= page.total
    ensures page.total == |Filter(rows, Criteria(vehicleId, author, from, to))|
    ensures |Sorted(rows, vehicleId, author, from, to)| == page.total
    ensures |page.content| > 0 ==> pageable.offset + |page.content| <= page.total
    ensures forall i :: 0 <= i < |page.content| ==>
              page.content[i] == Sorted(rows, vehicleId, author, from, to)[pageable.offset + i]
    ensures page.content == Window(Sorted(rows, vehicleId, author, from, to), pageable.offset, pageable.pageSize)
  {
    var p := Criteria(vehicleId, author, from, to);
    var sorted := Sorted(rows, vehicleId, author, from, to);
    CountIsFilterLength(rows, p);
    SortDescSameRows(Filter(rows, p), CreatedAtOf);
    WindowWithin(sorted, pageable.offset, pageable.pageSize);
    WindowKeepsOrder(sorted, CreatedAtOf, pageable.offset, pageable.pageSize);
    Page(Window(sorted, pageable.offset, pageable.pageSize), Count(rows, p))
  }

  /** The author filter ignores the case of both the author and the filter. */
  lemma AuthorFilterIgnoresCase(author: string, filter: string)
    ensures AuthorMatches(ToUpper(author), filter) == AuthorMatches(author, filter)
    ensures AuthorMatches(author, ToUpper(filter)) == AuthorMatches(author, filter)
  {
    ToLowerForgetsCase(author);
    ToLowerForgetsCase(filter);
  }

  /** An empty author filter accepts every author, and every author passes its own name. */
  lemma AuthorFilterTrivialCases(author: string)
    ensures AuthorMatches(author, "")
    ensures AuthorMatches(author, author)
  {
    assert ToLower("") == "";
    ContainsEmpty(ToLower(author));
    ContainsSelf(ToLower(author));
  }
}
