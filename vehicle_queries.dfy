/** The vehicle list query: optional equality filters on the status name
    and on the car-model id, an offset/limit window and a separate count. */
module VehicleQueries {
  import opened Wrappers
  import opened Domain
  import opened Paging

  /** A vehicle passes when every filter that is given holds of it. */
  predicate Matches(v: Vehicle, status: Option<string>, carModelId: Option<int>) {
    && (status.None? || StatusName(v.status) == status.value)
    && (carModelId.None? || v.carModel.id == carModelId.value)
  }

  function Criteria(status: Option<string>, carModelId: Option<int>): Vehicle -> bool {
    v => Matches(v, status, carModelId)
  }

  /** `findAllFiltered(status, carModelId, pageable)` over the table's rows in scan order. */
  function FindAllFiltered(rows: seq<Vehicle>, status: Option<string>, carModelId: Option<int>,
                           pageable: Pageable): (page: Page<Vehicle>)
    ensures forall v :: v in page.content ==>
              && v in rows
              && (status.Some? ==> StatusName(v.status) == status.value)
              && (carModelId.Some? ==> v.carModel.id == carModelId.value)
    ensures |page.content| <= pageable.pageSize && |page.content| <= page.total
    ensures page.total == |Filter(rows, Criteria(status, carModelId))|
    ensures |page.content| > 0 ==> pageable.offset + |page.content| <= page.total
    ensures forall i :: 0 <= i < |page.content| ==>
              page.content[i] == Filter(rows, Criteria(status, carModelId))[pageable.offset + i]
    ensures page.content == Window(Filter(rows, Criteria(status, carModelId)), pageable.offset, pageable.pageSize)
  {
    var matching := Filter(rows, Criteria(status, carModelId));
    CountIsFilterLength(rows, Criteria(status, carModelId));
    WindowWithin(matching, pageable.offset, pageable.pageSize);
    Page(Window(matching, pageable.offset, pageable.pageSize), Count(rows, Criteria(status, carModelId)))
  }

  /** With neither filter given every vehicle is eligible, so the page is a
      plain window of the table and the total is its size. */
  lemma NoFiltersSelectAll(rows: seq<Vehicle>, pageable: Pageable)
    ensures Filter(rows, Criteria(None, None)) == rows
    ensures FindAllFiltered(rows, None, None, pageable) == Page(Window(rows, pageable.offset, pageable.pageSize), |rows|)
  {
    FilterAcceptAll(rows, Criteria(None, None));
  }

  /** A vehicle of the table is counted exactly when it passes every given filter. */
  lemma CountedIffMatches(rows: seq<Vehicle>, status: Option<string>, carModelId: Option<int>, v: Vehicle)
    requires v in rows
    ensures v in Filter(rows, Criteria(status, carModelId)) <==> Matches(v, status, carModelId)
  {
  }
}
