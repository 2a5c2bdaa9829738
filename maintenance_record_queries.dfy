/** The maintenance-record list query of one vehicle: optional type and
    inclusive date-range filters, newest first, an offset/limit window and
    a separate count under the same predicates. */
module MaintenanceRecordQueries {
  import opened Wrappers
  import opened Domain
  import opened Paging

  /** The sort key: `ORDER BY maintenanceDate DESC`. */
  function DateOf(r: MaintenanceRecord): int { r.maintenanceDate }

  /** The conjunction of the vehicle predicate and each optional filter. */
  predicate Matches(r: MaintenanceRecord, vehicleId: int, maintenanceType: Option<string>,
                    from: Option<Timestamp>, to: Option<Timestamp>) {
    && r.vehicleId == vehicleId
    && (maintenanceType.None? || r.maintenanceType == maintenanceType.value)
    && (from.None? || from.value <= r.maintenanceDate)
    && (to.None? || r.maintenanceDate <= to.value)
  }

  function Criteria(vehicleId: int, maintenanceType: Option<string>,
                    from: Option<Timestamp>, to: Option<Timestamp>): MaintenanceRecord -> bool {
    r => Matches(r, vehicleId, maintenanceType, from, to)
  }

  /** The matching records, newest first. */
  function Sorted(rows: seq<MaintenanceRecord>, vehicleId: int, maintenanceType: Option<string>,
                  from: Option<Timestamp>, to: Option<Timestamp>): seq<MaintenanceRecord> {
    SortDesc(Filter(rows, Criteria(vehicleId, maintenanceType, from, to)), DateOf)
  }

  /** `findByVehicleIdWithFilters(vehicleId, type, from, to, pageable)` over the table's rows. */
  function FindByVehicleIdWithFilters(rows: seq<MaintenanceRecord>, vehicleId: int,
                                      maintenanceType: Option<string>, from: Option<Timestamp>,
                                      to: Option<Timestamp>, pageable: Pageable): (page: Page<MaintenanceRecord>)
    ensures forall r :: r in page.content ==>
              && r in rows
              && r.vehicleId == vehicleId
              && (maintenanceType.Some? ==> r.maintenanceType == maintenanceType.value)
              && (from.Some? ==> from.value <= r.maintenanceDate)
              && (to.Some? ==> r.maintenanceDate <= to.value)
    ensures SortedDesc(page.content, DateOf)
    ensures |page.content| <= pageable.pageSize && |page.content| <= page.total
    ensures page.total == |Filter(rows, Criteria(vehicleId, maintenanceType, from, to))|
    ensures |Sorted(rows, vehicleId, maintenanceType, from, to)| == page.total
    ensures |page.content| > 0 ==> pageable.offset + |page.content| <= page.total
    ensures forall i :: 0 <= i < |page.content| ==>
              page.content[i] == Sorted(rows, vehicleId, maintenanceType, from, to)[pageable.offset + i]
    ensures page.content == Window(Sorted(rows, vehicleId, maintenanceType, from, to), pageable.offset, pageable.pageSize)
  {
    var p := Criteria(vehicleId, maintenanceType, from, to);
    var sorted := Sorted(rows, vehicleId, maintenanceType, from, to);
    CountIsFilterLength(rows, p);
    SortDescSameRows(Filter(rows, p), DateOf);
    WindowWithin(sorted, pageable.offset, pageable.pageSize);
    WindowKeepsOrder(sorted, DateOf, pageable.offset, pageable.pageSize);
    Page(Window(sorted, pageable.offset, pageable.pageSize), Count(rows, p))
  }

  /** `findByVehicleId(vehicleId)`: every record of the vehicle, in scan order. */
  function FindByVehicleId(rows: seq<MaintenanceRecord>, vehicleId: int): (r: seq<MaintenanceRecord>)
    ensures forall x :: x in r <==> x in rows && x.vehicleId == vehicleId
    ensures forall x :: multiset(r)[x] == if x.vehicleId == vehicleId then multiset(rows)[x] else 0
    ensures |r| == Count(rows, (x: MaintenanceRecord) => x.vehicleId == vehicleId)
  {
    var p := (x: MaintenanceRecord) => x.vehicleId == vehicleId;
    CountIsFilterLength(rows, p);
    forall x ensures multiset(Filter(rows, p))[x] == if x.vehicleId == vehicleId then multiset(rows)[x] else 0 {
      FilterMultiplicity(rows, p, x);
    }
    Filter(rows, p)
  }
}
