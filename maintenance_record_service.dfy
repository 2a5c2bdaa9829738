/** The maintenance-record service: records attached to an existing vehicle,
    with the maintenance date defaulting to the current time. The clock is a
    parameter, `now`. */
module MaintenanceRecordService {
  import opened Wrappers
  import opened Domain
  import opened Store
  import opened Paging
  import MaintenanceRecordQueries

  /** `findById(id)`. */
  function FindById(rows: map<int, MaintenanceRecord>, id: int): (r: Result<MaintenanceRecordView, ServiceError>)
    ensures r.Success? <==> id in rows
    ensures r.Failure? ==> r.error == MaintenanceRecordNotFound(id)
    ensures r.Success? ==> r.value == RecordViewOf(rows[id])
  {
    if id in rows then Success(RecordViewOf(rows[id])) else Failure(MaintenanceRecordNotFound(id))
  }

  /** `findByVehicleId(vehicleId)`: one view per record of that vehicle. */
  function FindByVehicleId(rows: seq<MaintenanceRecord>, vehicleId: int): (r: seq<MaintenanceRecordView>)
    ensures forall v :: v in r ==> v.vehicleId == vehicleId
    ensures forall x :: x in rows && x.vehicleId == vehicleId ==> RecordViewOf(x) in r
    ensures forall v :: v in r ==> exists x :: x in rows && v == RecordViewOf(x)
    ensures var q := MaintenanceRecordQueries.FindByVehicleId(rows, vehicleId);
            |r| == |q| && forall i :: 0 <= i < |r| ==> r[i] == RecordViewOf(q[i])
  {
    var records := MaintenanceRecordQueries.FindByVehicleId(rows, vehicleId);
    var r := seq(|records|, i requires 0 <= i < |records| => RecordViewOf(records[i]));
    ViewsOfRecords(rows, vehicleId, records, r);
    r
  }

  /** Converting, one by one, the records of a vehicle gives exactly their views. */
  lemma ViewsOfRecords(rows: seq<MaintenanceRecord>, vehicleId: int,
                       records: seq<MaintenanceRecord>, r: seq<MaintenanceRecordView>)
    requires forall x :: x in records <==> x in rows && x.vehicleId == vehicleId
    requires |r| == |records| && forall i :: 0 <= i < |r| ==> r[i] == RecordViewOf(records[i])
    ensures forall v :: v in r ==> v.vehicleId == vehicleId
    ensures forall x :: x in rows && x.vehicleId == vehicleId ==> RecordViewOf(x) in r
    ensures forall v :: v in r ==> exists x :: x in rows && v == RecordViewOf(x)
  {
    forall v | v in r ensures v.vehicleId == vehicleId && exists x :: x in rows && v == RecordViewOf(x) {
      var i :| 0 <= i < |r| && r[i] == v;
      assert records[i] in records;
    }
    forall x | x in rows && x.vehicleId == vehicleId ensures RecordViewOf(x) in r {
      var i :| 0 <= i < |records| && records[i] == x;
      assert r[i] == RecordViewOf(x);
    }
  }

  /** `findByVehicleIdWithFilters(...)`: the repository's page, as views. */
  function FindByVehicleIdWithFilters(rows: seq<MaintenanceRecord>, vehicleId: int,
                                      maintenanceType: Option<string>, from: Option<Timestamp>,
                                      to: Option<Timestamp>, pageable: Pageable): (r: Page<MaintenanceRecordView>)
    ensures |r.content| <= pageable.pageSize && |r.content| <= r.total
    ensures forall i :: 0 <= i < |r.content| ==>
              && r.content[i].vehicleId == vehicleId
              && (maintenanceType.Some? ==> r.content[i].maintenanceType == maintenanceType.value)
              && (from.Some? ==> from.value <= r.content[i].maintenanceDate)
              && (to.Some? ==> r.content[i].maintenanceDate <= to.value)
    ensures forall i, j :: 0 <= i < j < |r.content| ==> r.content[i].maintenanceDate >= r.content[j].maintenanceDate
    ensures r.total == |Filter(rows, MaintenanceRecordQueries.Criteria(vehicleId, maintenanceType, from, to))|
    ensures var page := MaintenanceRecordQueries.FindByVehicleIdWithFilters(rows, vehicleId, maintenanceType, from, to, pageable);
            |r.content| == |page.content| && forall i :: 0 <= i < |r.content| ==> r.content[i] == RecordViewOf(page.content[i])
  {
    var page := MaintenanceRecordQueries.FindByVehicleIdWithFilters(rows, vehicleId, maintenanceType, from, to, pageable);
    ViewsOfPage(page, vehicleId, maintenanceType, from, to);
    MapPage(page, RecordViewOf)
  }

  /** Converting a page of matching, newest-first records keeps both facts. */
  lemma ViewsOfPage(page: Page<MaintenanceRecord>, vehicleId: int, maintenanceType: Option<string>,
                    from: Option<Timestamp>, to: Option<Timestamp>)
    requires forall x :: x in page.content ==> MaintenanceRecordQueries.Matches(x, vehicleId, maintenanceType, from, to)
    requires SortedDesc(page.content, MaintenanceRecordQueries.DateOf)
    ensures var r := MapPage(page, RecordViewOf);
            forall i :: 0 <= i < |r.content| ==>
              && r.content[i].vehicleId == vehicleId
              && (maintenanceType.Some? ==> r.content[i].maintenanceType == maintenanceType.value)
              && (from.Some? ==> from.value <= r.content[i].maintenanceDate)
              && (to.Some? ==> r.content[i].maintenanceDate <= to.value)
    ensures var r := MapPage(page, RecordViewOf);
            forall i, j :: 0 <= i < j < |r.content| ==> r.content[i].maintenanceDate >= r.content[j].maintenanceDate
  {
    var r := MapPage(page, RecordViewOf);
    forall i | 0 <= i < |r.content|
      ensures MaintenanceRecordQueries.Matches(page.content[i], vehicleId, maintenanceType, from, to)
    {
      assert page.content[i] in page.content;
    }
    forall i, j | 0 <= i < j < |r.content|
      ensures r.content[i].maintenanceDate >= r.content[j].maintenanceDate
    {
      assert MaintenanceRecordQueries.DateOf(page.content[i]) >= MaintenanceRecordQueries.DateOf(page.content[j]);
    }
  }

  /** The record `create` stores: linked to the path's vehicle, not the body's. */
  function NewRecord(id: int, vehicleId: int, request: MaintenanceRecordRequest, now: Timestamp): MaintenanceRecord {
    MaintenanceRecord(id, vehicleId, request.maintenanceDate.GetOr(now), request.maintenanceType,
      request.description, request.cost)
  }

  /** `create(vehicleId, request)`. */
  method Create(vehicles: VehicleTable, records: MaintenanceRecordTable, vehicleId: int,
                request: MaintenanceRecordRequest, now: Timestamp) returns (r: Result<MaintenanceRecordView, ServiceError>)
    requires vehicles.Valid() && records.Valid()
    modifies records
    ensures records.Valid()
    ensures vehicleId !in vehicles.rows ==>
              && r == Failure(VehicleNotFound(vehicleId))
              && records.rows == old(records.rows) && records.writes == old(records.writes)
    ensures vehicleId in vehicles.rows ==>
              var saved := NewRecord(old(records.nextId), vehicleId, request, now);
              && saved.id !in old(records.rows)
              && records.rows == old(records.rows)[saved.id := saved]
              && r == Success(RecordViewOf(saved))
              && records.writes == old(records.writes) + 1
    ensures r.Success? ==>
              && r.value.vehicleId == vehicleId
              && r.value.maintenanceDate == (if request.maintenanceDate.Some? then request.maintenanceDate.value else now)
  {
    if vehicleId !in vehicles.rows {
      return Failure(VehicleNotFound(vehicleId));
    }
    var vehicle := vehicles.rows[vehicleId];
    var record := MaintenanceRecord(0, vehicle.id, request.maintenanceDate.GetOr(now),
      request.maintenanceType, request.description, request.cost);
    var saved := records.Insert(record);
    r := Success(RecordViewOf(saved));
  }

  /** `update(id, request)`: type, description and cost replaced, the date
      taken from the request or else `now` (the old date is not kept), the
      id and the vehicle kept. */
  method Update(records: MaintenanceRecordTable, id: int, request: MaintenanceRecordRequest, now: Timestamp)
    returns (r: Result<MaintenanceRecordView, ServiceError>)
    requires records.Valid()
    modifies records
    ensures records.Valid()
    ensures id !in old(records.rows) ==>
              && r == Failure(MaintenanceRecordNotFound(id))
              && records.rows == old(records.rows) && records.writes == old(records.writes)
    ensures id in old(records.rows) ==>
              var updated := NewRecord(id, old(records.rows)[id].vehicleId, request, now);
              && records.rows == old(records.rows)[id := updated]
              && r == Success(RecordViewOf(updated))
              && records.writes == old(records.writes) + 1
  {
    if id !in records.rows {
      return Failure(MaintenanceRecordNotFound(id));
    }
    var existing := records.rows[id];
    var updated := existing.(maintenanceType := request.maintenanceType, description := request.description,
      cost := request.cost, maintenanceDate := request.maintenanceDate.GetOr(now));
    records.Save(updated);
    r := Success(RecordViewOf(updated));
  }

  /** `delete(id)`: a missing id fails; otherwise only that row goes. */
  method Delete(records: MaintenanceRecordTable, id: int) returns (r: Result<(), ServiceError>)
    requires records.Valid()
    modifies records
    ensures records.Valid()
    ensures id !in old(records.rows) ==>
              r == Failure(MaintenanceRecordNotFound(id)) && records.rows == old(records.rows)
                && records.writes == old(records.writes)
    ensures id in old(records.rows) ==>
              r == Success(()) && records.rows == old(records.rows) - {id}
                && records.writes == old(records.writes) + 1
  {
    if id !in records.rows {
      return Failure(MaintenanceRecordNotFound(id));
    }
    records.DeleteById(id);
    r := Success(());
  }
}
