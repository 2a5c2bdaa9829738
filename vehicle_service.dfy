/** The vehicle service: create, full update, delete and lookup over the
    vehicle table, and the two partial-update entry points — a flat patch
    record and a JSON Patch (RFC 6902) document whose operation paths are
    checked against a fixed allow-list before anything is applied. */
module VehicleService {
  import opened Wrappers
  import opened Text
  import opened Domain
  import opened Store
  import opened Paging
  import VehicleQueries

  // ---------------------------------------------------------------------
  // Status parsing

  /** `VehicleStatus.valueOf(s.uppercase())`. */
  function ParseStatusIgnoringCase(s: string): Option<VehicleStatus> {
    ParseStatus(ToUpper(s))
  }

  /** The case-insensitive parse accepts `s` exactly when its upper-cased
      form is a member's name, and in particular every exact member name. */
  lemma ParseStatusIgnoringCaseSpec(s: string, st: VehicleStatus)
    ensures ParseStatusIgnoringCase(s) == Some(st) <==> ToUpper(s) == StatusName(st)
    ensures ParseStatusIgnoringCase(StatusName(st)) == Some(st)
  {
    ToUpperFixes(StatusName(st));
  }

  /** A lower-case name is rejected by the exact parse of the flat patch and
      accepted by the case-insensitive parse of the JSON Patch path. */
  lemma LowerCaseStatusName()
    ensures ParseStatus("rented") == None
    ensures ParseStatusIgnoringCase("rented") == Some(Rented)
  {
    assert ToUpper("rented") == "RENTED";
  }

  // ---------------------------------------------------------------------
  // Store predicates

  /** `existsByLicensePlate(plate)`. */
  predicate PlateTaken(rows: map<int, Vehicle>, plate: string) {
    exists k | k in rows :: rows[k].licensePlate == plate
  }

  /** Storing a vehicle under a new key makes its plate taken and leaves
      every other plate as taken as it was. */
  lemma PlateTakenAfterInsert(rows: map<int, Vehicle>, id: int, v: Vehicle, plate: string)
    requires id !in rows
    ensures PlateTaken(rows[id := v], plate) <==> PlateTaken(rows, plate) || v.licensePlate == plate
  {
    var rows' := rows[id := v];
    if PlateTaken(rows', plate) && v.licensePlate != plate {
      var k :| k in rows' && rows'[k].licensePlate == plate;
      assert k != id && k in rows;
    }
    if v.licensePlate == plate {
      assert rows'[id].licensePlate == plate;
    }
    if PlateTaken(rows, plate) {
      var k :| k in rows && rows[k].licensePlate == plate;
      assert rows'[k].licensePlate == plate;
    }
  }

  /** No two stored vehicles share a license plate. */
  ghost predicate PlatesUnique(rows: map<int, Vehicle>) {
    forall a, b ::
      a in rows && b in rows && rows[a].licensePlate == rows[b].licensePlate ==> a == b
  }

  /** The vehicle a create or full update writes: every field from the request. */
  function FromRequest(id: int, carModel: CarModel, request: VehicleRequest, status: VehicleStatus): Vehicle {
    Vehicle(id, carModel, request.licensePlate, request.vin, status,
      request.kilometersTravelled, request.pendingCleaning, request.pendingRepairs)
  }

  // ---------------------------------------------------------------------
  // Read operations

  /** `findById(id)`. */
  function FindById(rows: map<int, Vehicle>, id: int): (r: Result<VehicleView, ServiceError>)
    ensures r.Success? <==> id in rows
    ensures r.Failure? ==> r.error == VehicleNotFound(id)
    ensures r.Success? ==> r.value == VehicleViewOf(rows[id])
  {
    if id in rows then Success(VehicleViewOf(rows[id])) else Failure(VehicleNotFound(id))
  }

  /** `findAllFiltered(status, carModelId, pageable)`: the query's page, as views. */
  function FindAllFiltered(rows: seq<Vehicle>, status: Option<string>, carModelId: Option<int>,
                           pageable: Pageable): (r: Page<VehicleView>)
    ensures |r.content| <= pageable.pageSize && |r.content| <= r.total
    ensures forall i :: 0 <= i < |r.content| ==>
              && (status.Some? ==> r.content[i].status == status.value)
              && (carModelId.Some? ==> r.content[i].carModel.id == carModelId.value)
    ensures r.total == |Filter(rows, VehicleQueries.Criteria(status, carModelId))|
    ensures var page := VehicleQueries.FindAllFiltered(rows, status, carModelId, pageable);
            |r.content| == |page.content| && forall i :: 0 <= i < |r.content| ==> r.content[i] == VehicleViewOf(page.content[i])
  {
    var page := VehicleQueries.FindAllFiltered(rows, status, carModelId, pageable);
    forall i | 0 <= i < |page.content| ensures page.content[i] in page.content {
    }
    MapPage(page, VehicleViewOf)
  }


  // ---------------------------------------------------------------------
  // Create, update, delete

  /** `create(request)`: a taken plate is rejected before the car model is
      looked up; the status is parsed case-insensitively. */
  method Create(vehicles: VehicleTable, carModels: CarModelTable, request: VehicleRequest)
    returns (r: Result<VehicleView, ServiceError>)
    requires vehicles.Valid()
    modifies vehicles
    ensures vehicles.Valid()
    ensures var status := ParseStatusIgnoringCase(request.status);
      if PlateTaken(old(vehicles.rows), request.licensePlate) then
        r == Failure(DuplicateVehicle(request.licensePlate)) && vehicles.rows == old(vehicles.rows)
      else if request.carModelId !in carModels.rows then
        r == Failure(CarModelNotFound(request.carModelId)) && vehicles.rows == old(vehicles.rows)
      else if status.None? then
        r == Failure(InvalidStatus(ToUpper(request.status))) && vehicles.rows == old(vehicles.rows)
      else
        var saved := FromRequest(old(vehicles.nextId), carModels.rows[request.carModelId], request, status.value);
        && saved.id !in old(vehicles.rows)
        && vehicles.rows == old(vehicles.rows)[saved.id := saved]
        && r == Success(VehicleViewOf(saved))
    ensures vehicles.writes == old(vehicles.writes) + (if r.Success? then 1 else 0)
    ensures PlatesUnique(old(vehicles.rows)) ==> PlatesUnique(vehicles.rows)
  {
    if PlateTaken(vehicles.rows, request.licensePlate) {
      return Failure(DuplicateVehicle(request.licensePlate));
    }
    if request.carModelId !in carModels.rows {
      return Failure(CarModelNotFound(request.carModelId));
    }
    var carModel := carModels.rows[request.carModelId];
    var status := ParseStatus(ToUpper(request.status));
    if status.None? {
      return Failure(InvalidStatus(ToUpper(request.status)));
    }
    var saved := vehicles.Insert(FromRequest(0, carModel, request, status.value));
    r := Success(VehicleViewOf(saved));
  }

  /** `update(id, request)`: every field is replaced, the id is kept, and no
      license-plate duplicate check is made. */
  method Update(vehicles: VehicleTable, carModels: CarModelTable, id: int, request: VehicleRequest)
    returns (r: Result<VehicleView, ServiceError>)
    requires vehicles.Valid()
    modifies vehicles
    ensures vehicles.Valid()
    ensures var status := ParseStatusIgnoringCase(request.status);
      if id !in old(vehicles.rows) then
        r == Failure(VehicleNotFound(id)) && vehicles.rows == old(vehicles.rows)
      else if request.carModelId !in carModels.rows then
        r == Failure(IllegalCarModelId(request.carModelId)) && vehicles.rows == old(vehicles.rows)
      else if status.None? then
        r == Failure(InvalidStatus(ToUpper(request.status))) && vehicles.rows == old(vehicles.rows)
      else
        var updated := FromRequest(id, carModels.rows[request.carModelId], request, status.value);
        && vehicles.rows == old(vehicles.rows)[id := updated]
        && r == Success(VehicleViewOf(updated))
    ensures vehicles.writes == old(vehicles.writes) + (if r.Success? then 1 else 0)
  {
    if id !in vehicles.rows {
      return Failure(VehicleNotFound(id));
    }
    var existing := vehicles.rows[id];
    if request.carModelId !in carModels.rows {
      return Failure(IllegalCarModelId(request.carModelId));
    }
    var carModel := carModels.rows[request.carModelId];
    var status := ParseStatus(ToUpper(request.status));
    if status.None? {
      return Failure(InvalidStatus(ToUpper(request.status)));
    }
    var updated := FromRequest(existing.id, carModel, request, status.value);
    vehicles.Save(updated);
    r := Success(VehicleViewOf(updated));
  }

  /** `delete(id)`: a missing id fails; otherwise only that row goes. */
  method Delete(vehicles: VehicleTable, id: int) returns (r: Result<(), ServiceError>)
    requires vehicles.Valid()
    modifies vehicles
    ensures vehicles.Valid()
    ensures id !in old(vehicles.rows) ==>
              r == Failure(VehicleNotFound(id)) && vehicles.rows == old(vehicles.rows)
                && vehicles.writes == old(vehicles.writes)
    ensures id in old(vehicles.rows) ==>
              r == Success(()) && vehicles.rows == old(vehicles.rows) - {id}
                && vehicles.writes == old(vehicles.writes) + 1
  {
    if id !in vehicles.rows {
      return Failure(VehicleNotFound(id));
    }
    vehicles.DeleteById(id);
    r := Success(());
  }

  // ---------------------------------------------------------------------
  // Merging patch fields

  /** The stored vehicle with each present, already parsed field written over it. */
  function Merge(v: Vehicle, status: Option<VehicleStatus>, km: Option<int>,
                 cleaning: Option<bool>, repairs: Option<bool>): Vehicle {
    v.(status := status.GetOr(v.status),
       kilometersTravelled := km.GetOr(v.kilometersTravelled),
       pendingCleaning := cleaning.GetOr(v.pendingCleaning),
       pendingRepairs := repairs.GetOr(v.pendingRepairs))
  }

  /** The `changed` flag: some present field differs from the stored value. */
  predicate Changes(v: Vehicle, status: Option<VehicleStatus>, km: Option<int>,
                    cleaning: Option<bool>, repairs: Option<bool>) {
    || (status.Some? && status.value != v.status)
    || (km.Some? && km.value != v.kilometersTravelled)
    || (cleaning.Some? && cleaning.value != v.pendingCleaning)
    || (repairs.Some? && repairs.value != v.pendingRepairs)
  }

  /** The flag is raised exactly when the merge produces a different record. */
  lemma MergeChangesIff(v: Vehicle, status: Option<VehicleStatus>, km: Option<int>,
                        cleaning: Option<bool>, repairs: Option<bool>)
    ensures Merge(v, status, km, cleaning, repairs) != v <==> Changes(v, status, km, cleaning, repairs)
  {
    var w := Merge(v, status, km, cleaning, repairs);
    if !Changes(v, status, km, cleaning, repairs) {
      assert w.status == v.status && w.kilometersTravelled == v.kilometersTravelled;
      assert w.pendingCleaning == v.pendingCleaning && w.pendingRepairs == v.pendingRepairs;
    }
  }

  // ---------------------------------------------------------------------
  // Flat patch

  /** The flat patch's status: parsed case-sensitively (a name equal to the
      stored one parses to the stored member). */
  function FlatStatus(p: VehiclePatch): Option<VehicleStatus> {
    if p.status.Some? then ParseStatus(p.status.value) else None
  }

  /** The flat patch applied to a stored vehicle: a status that differs from
      the stored name and names no member fails; otherwise the merge. */
  function FlatPatched(v: Vehicle, p: VehiclePatch): Result<Vehicle, ServiceError> {
    if p.status.Some? && p.status.value != StatusName(v.status) && ParseStatus(p.status.value).None?
    then Failure(InvalidStatus(p.status.value))
    else Success(Merge(v, FlatStatus(p), p.kilometersTravelled, p.pendingCleaning, p.pendingRepairs))
  }

  /** `patch(id, dto)` as a whole: not-found first, then the merge. */
  function FlatPatchOutcome(rows: map<int, Vehicle>, id: int, p: VehiclePatch): Result<Vehicle, ServiceError> {
    if id !in rows then Failure(VehicleNotFound(id)) else FlatPatched(rows[id], p)
  }

  /** After a successful flat patch each present field holds its patched
      value, each absent field its old value, and the identity, plate, VIN
      and car model are untouched. */
  lemma FlatPatchedFields(v: Vehicle, p: VehiclePatch)
    requires FlatPatched(v, p).Success?
    ensures var w := FlatPatched(v, p).value;
      && (p.status.Some? ==> StatusName(w.status) == p.status.value)
      && (p.status.None? ==> w.status == v.status)
      && w.kilometersTravelled == p.kilometersTravelled.GetOr(v.kilometersTravelled)
      && w.pendingCleaning == p.pendingCleaning.GetOr(v.pendingCleaning)
      && w.pendingRepairs == p.pendingRepairs.GetOr(v.pendingRepairs)
      && w.id == v.id && w.licensePlate == v.licensePlate && w.vin == v.vin && w.carModel == v.carModel
  {
    if p.status.Some? && p.status.value == StatusName(v.status) {
      assert ParseStatus(p.status.value) == Some(v.status);
    }
  }

  /** The flat patch accepts a status exactly when it is a member's exact name. */
  lemma FlatPatchStatusIsCaseSensitive(v: Vehicle, p: VehiclePatch)
    requires p.status.Some?
    ensures FlatPatched(v, p).Success? <==> ParseStatus(p.status.value).Some?
  {
    if p.status.value == StatusName(v.status) {
      assert ParseStatus(p.status.value) == Some(v.status);
    }
  }

  /** Applying the same flat patch a second time changes nothing. */
  lemma FlatPatchIdempotent(v: Vehicle, p: VehiclePatch)
    requires FlatPatched(v, p).Success?
    ensures FlatPatched(FlatPatched(v, p).value, p) == FlatPatched(v, p)
  {
    var w := FlatPatched(v, p).value;
    FlatPatchedFields(v, p);
    FlatPatchedFields(w, p);
  }

  /** `patch(id, dto)`, with the loaded vehicle changed field by field under
      a `changed` flag and saved once, only if the flag is set. */
  method Patch(vehicles: VehicleTable, id: int, p: VehiclePatch) returns (r: Result<VehicleView, ServiceError>)
    requires vehicles.Valid()
    modifies vehicles
    ensures vehicles.Valid()
    ensures var outcome := FlatPatchOutcome(old(vehicles.rows), id, p);
      && r == (if outcome.Success? then Success(VehicleViewOf(outcome.value)) else Failure(outcome.error))
      && vehicles.rows == (if outcome.Success? then old(vehicles.rows)[id := outcome.value] else old(vehicles.rows))
      && vehicles.writes == old(vehicles.writes)
           + (if outcome.Success? && outcome.value != old(vehicles.rows)[id] then 1 else 0)
  {
    if id !in vehicles.rows {
      return Failure(VehicleNotFound(id));
    }
    var existing := vehicles.rows[id];
    ghost var stored := existing;
    ghost var outcome := FlatPatched(stored, p);
    assert FlatPatchOutcome(vehicles.rows, id, p) == outcome;
    var changed := false;

    if p.status.Some? {
      var s := p.status.value;
      if StatusName(existing.status) != s {
        var parsed := ParseStatus(s);
        if parsed.None? {
          assert outcome == Failure(InvalidStatus(s));
          return Failure(InvalidStatus(s));
        }
        existing := existing.(status := parsed.value);
        changed := true;
      } else {
        assert ParseStatus(s) == Some(existing.status);
      }
    }
    if p.kilometersTravelled.Some? && existing.kilometersTravelled != p.kilometersTravelled.value {
      existing := existing.(kilometersTravelled := p.kilometersTravelled.value);
      changed := true;
    }
    if p.pendingCleaning.Some? && existing.pendingCleaning != p.pendingCleaning.value {
      existing := existing.(pendingCleaning := p.pendingCleaning.value);
      changed := true;
    }
    if p.pendingRepairs.Some? && existing.pendingRepairs != p.pendingRepairs.value {
      existing := existing.(pendingRepairs := p.pendingRepairs.value);
      changed := true;
    }

    assert existing == Merge(stored, FlatStatus(p), p.kilometersTravelled, p.pendingCleaning, p.pendingRepairs);
    assert outcome == Success(existing);
    assert changed == Changes(stored, FlatStatus(p), p.kilometersTravelled, p.pendingCleaning, p.pendingRepairs);
    MergeChangesIff(stored, FlatStatus(p), p.kilometersTravelled, p.pendingCleaning, p.pendingRepairs);
    if changed {
      vehicles.Save(existing);
    } else {
      assert vehicles.rows[id := existing] == vehicles.rows;
    }
    r := Success(VehicleViewOf(existing));
  }

  // ---------------------------------------------------------------------
  // JSON Patch

  /** The only paths a JSON Patch operation may address. */
  const AllowedPaths: set<string> := {"/kilometersTravelled", "/pendingCleaning", "/pendingRepairs", "/status"}

  /** One operation of the patch document; its `path` member may be absent.
      Its value is consumed by the patch library and is not modelled. */
  datatype PatchOperation = PatchOperation(op: string, path: Option<string>)

  predicate PathAllowed(path: Option<string>) {
    path.Some? && path.value in AllowedPaths
  }

  /** The allow-list opens exactly the four state fields of a vehicle to
      patching; the identity, plate, VIN and car model, and an operation
      without a path, are refused. */
  lemma AllowedPathsAreTheStateFields()
    ensures PathAllowed(Some("/status")) && PathAllowed(Some("/kilometersTravelled"))
    ensures PathAllowed(Some("/pendingCleaning")) && PathAllowed(Some("/pendingRepairs"))
    ensures !PathAllowed(None)
    ensures !PathAllowed(Some("/id")) && !PathAllowed(Some("/licensePlate"))
    ensures !PathAllowed(Some("/vin")) && !PathAllowed(Some("/carModel"))
  {
  }

  /** The path named in the rejection: the text, or `<unknown>` when absent. */
  function PathText(path: Option<string>): string {
    path.GetOr("<unknown>")
  }

  /** The path of the first operation that is missing a path or names one
      outside the allow-list; `None` when every operation is allowed. */
  function FirstDisallowedPath(ops: seq<PatchOperation>): Option<string> {
    if ops == [] then None
    else if !PathAllowed(ops[0].path) then Some(PathText(ops[0].path))
    else FirstDisallowedPath(ops[1..])
  }

  /** The rejection happens exactly when some operation is not allowed, and
      reports the first such operation, however many allowed ones precede it. */
  lemma {:induction false} FirstDisallowedPathSpec(ops: seq<PatchOperation>)
    ensures FirstDisallowedPath(ops).None? <==> forall i :: 0 <= i < |ops| ==> PathAllowed(ops[i].path)
    ensures FirstDisallowedPath(ops).Some? ==>
              exists i :: 0 <= i < |ops| && !PathAllowed(ops[i].path)
                && FirstDisallowedPath(ops).value == PathText(ops[i].path)
                && forall j :: 0 <= j < i ==> PathAllowed(ops[j].path)
  {
    if ops != [] {
      FirstDisallowedPathSpec(ops[1..]);
      if PathAllowed(ops[0].path) {
        var tail := ops[1..];
        assert forall i :: 1 <= i < |ops| ==> ops[i] == tail[i - 1];
        if FirstDisallowedPath(tail).Some? {
          var i :| 0 <= i < |tail| && !PathAllowed(tail[i].path)
                   && FirstDisallowedPath(tail).value == PathText(tail[i].path)
                   && forall j :: 0 <= j < i ==> PathAllowed(tail[j].path);
          assert forall j :: 0 <= j < i + 1 ==> PathAllowed(ops[j].path);
        }
      }
    }
  }

  /** `validatePatchPaths`: walks the operations and stops at the first
      path that is missing or not allowed. */
  method ValidatePatchPaths(ops: seq<PatchOperation>) returns (bad: Option<string>)
    ensures bad == FirstDisallowedPath(ops)
    ensures bad.None? <==> forall i :: 0 <= i < |ops| ==> PathAllowed(ops[i].path)
  {
    FirstDisallowedPathSpec(ops);
    var i := 0;
    while i < |ops|
      invariant 0 <= i <= |ops|
      invariant FirstDisallowedPath(ops[i..]) == FirstDisallowedPath(ops)
    {
      assert ops[i..][1..] == ops[i + 1..];
      if !PathAllowed(ops[i].path) {
        return Some(PathText(ops[i].path));
      }
      i := i + 1;
    }
    bad := None;
  }

  /** The JSON Patch status: parsed case-insensitively. */
  function JsonStatus(dto: VehiclePatch): Option<VehicleStatus> {
    if dto.status.Some? then ParseStatusIgnoringCase(dto.status.value) else None
  }

  /** A JSON Patch applied to a stored vehicle. `patched` is the four-field
      record the patch library produced from the document, or `None` when it
      could not apply or convert it. */
  function JsonPatched(v: Vehicle, ops: seq<PatchOperation>, patched: Option<VehiclePatch>): Result<Vehicle, ServiceError> {
    match FirstDisallowedPath(ops)
    case Some(path) => Failure(UnauthorizedPatchPath(path))
    case None =>
      if patched.None? then Failure(InvalidPatch(MalformedPatch))
      else
        var dto := patched.value;
        if dto.status.Some? && ParseStatusIgnoringCase(dto.status.value).None?
        then Failure(InvalidPatch(InvalidStatusValue(dto.status.value)))
        else Success(Merge(v, JsonStatus(dto), dto.kilometersTravelled, dto.pendingCleaning, dto.pendingRepairs))
  }

  /** `applyPatchToVehicle(id, patch)` as a whole: not-found first, before any path is examined. */
  function JsonPatchOutcome(rows: map<int, Vehicle>, id: int, ops: seq<PatchOperation>,
                            patched: Option<VehiclePatch>): Result<Vehicle, ServiceError> {
    if id !in rows then Failure(VehicleNotFound(id)) else JsonPatched(rows[id], ops, patched)
  }

  /** A single operation outside the allow-list rejects the whole document,
      whatever the library would have produced from it. */
  lemma DisallowedPathRejectsAll(v: Vehicle, ops: seq<PatchOperation>, patched: Option<VehiclePatch>, i: int)
    requires 0 <= i < |ops| && !PathAllowed(ops[i].path)
    ensures JsonPatched(v, ops, patched).Failure?
    ensures JsonPatched(v, ops, patched).error.UnauthorizedPatchPath?
  {
    FirstDisallowedPathSpec(ops);
  }

  /** After a successful JSON Patch each present field holds its patched
      value (the status as the member its upper-cased text names), each absent
      field its old value, and the identity, plate, VIN and car model are untouched. */
  lemma JsonPatchedFields(v: Vehicle, ops: seq<PatchOperation>, patched: Option<VehiclePatch>)
    requires JsonPatched(v, ops, patched).Success?
    ensures patched.Some? && forall i :: 0 <= i < |ops| ==> PathAllowed(ops[i].path)
    ensures var w := JsonPatched(v, ops, patched).value;
      var dto := patched.value;
      && (dto.status.Some? ==> StatusName(w.status) == ToUpper(dto.status.value))
      && (dto.status.None? ==> w.status == v.status)
      && w.kilometersTravelled == dto.kilometersTravelled.GetOr(v.kilometersTravelled)
      && w.pendingCleaning == dto.pendingCleaning.GetOr(v.pendingCleaning)
      && w.pendingRepairs == dto.pendingRepairs.GetOr(v.pendingRepairs)
      && w.id == v.id && w.licensePlate == v.licensePlate && w.vin == v.vin && w.carModel == v.carModel
  {
    FirstDisallowedPathSpec(ops);
  }

  /** An invalid status value fails the whole patch, whatever the other fields. */
  lemma InvalidStatusRejectsAll(v: Vehicle, ops: seq<PatchOperation>, dto: VehiclePatch)
    requires forall i :: 0 <= i < |ops| ==> PathAllowed(ops[i].path)
    requires dto.status.Some? && forall st :: ToUpper(dto.status.value) != StatusName(st)
    ensures JsonPatched(v, ops, Some(dto)) == Failure(InvalidPatch(InvalidStatusValue(dto.status.value)))
  {
    FirstDisallowedPathSpec(ops);
  }

  /** Applying the same JSON Patch a second time changes nothing. */
  lemma JsonPatchIdempotent(v: Vehicle, ops: seq<PatchOperation>, patched: Option<VehiclePatch>)
    requires JsonPatched(v, ops, patched).Success?
    ensures JsonPatched(JsonPatched(v, ops, patched).value, ops, patched) == JsonPatched(v, ops, patched)
  {
  }

  /** `applyPatchToVehicle(id, patch)`: look the vehicle up, validate every
      path, then merge the library's result field by field and save once,
      only if something changed. */
  method ApplyPatchToVehicle(vehicles: VehicleTable, id: int, ops: seq<PatchOperation>,
                             patched: Option<VehiclePatch>) returns (r: Result<VehicleView, ServiceError>)
    requires vehicles.Valid()
    modifies vehicles
    ensures vehicles.Valid()
    ensures var outcome := JsonPatchOutcome(old(vehicles.rows), id, ops, patched);
      && r == (if outcome.Success? then Success(VehicleViewOf(outcome.value)) else Failure(outcome.error))
      && vehicles.rows == (if outcome.Success? then old(vehicles.rows)[id := outcome.value] else old(vehicles.rows))
      && vehicles.writes == old(vehicles.writes)
           + (if outcome.Success? && outcome.value != old(vehicles.rows)[id] then 1 else 0)
  {
    if id !in vehicles.rows {
      return Failure(VehicleNotFound(id));
    }
    var existing := vehicles.rows[id];
    ghost var stored := existing;

    ghost var outcome := JsonPatched(stored, ops, patched);
    assert JsonPatchOutcome(vehicles.rows, id, ops, patched) == outcome;

    var bad := ValidatePatchPaths(ops);
    if bad.Some? {
      return Failure(UnauthorizedPatchPath(bad.value));
    }
    if patched.None? {
      return Failure(InvalidPatch(MalformedPatch));
    }
    var dto := patched.value;
    var changed := false;

    if dto.status.Some? {
      var newStatus := ParseStatus(ToUpper(dto.status.value));
      if newStatus.None? {
        assert outcome == Failure(InvalidPatch(InvalidStatusValue(dto.status.value)));
        return Failure(InvalidPatch(InvalidStatusValue(dto.status.value)));
      }
      if existing.status != newStatus.value {
        existing := existing.(status := newStatus.value);
        changed := true;
      }
    }
    if dto.kilometersTravelled.Some? && existing.kilometersTravelled != dto.kilometersTravelled.value {
      existing := existing.(kilometersTravelled := dto.kilometersTravelled.value);
      changed := true;
    }
    if dto.pendingCleaning.Some? && existing.pendingCleaning != dto.pendingCleaning.value {
      existing := existing.(pendingCleaning := dto.pendingCleaning.value);
      changed := true;
    }
    if dto.pendingRepairs.Some? && existing.pendingRepairs != dto.pendingRepairs.value {
      existing := existing.(pendingRepairs := dto.pendingRepairs.value);
      changed := true;
    }

    assert existing == Merge(stored, JsonStatus(dto), dto.kilometersTravelled, dto.pendingCleaning, dto.pendingRepairs);
    assert outcome == Success(existing);
    assert changed == Changes(stored, JsonStatus(dto), dto.kilometersTravelled, dto.pendingCleaning, dto.pendingRepairs);
    MergeChangesIff(stored, JsonStatus(dto), dto.kilometersTravelled, dto.pendingCleaning, dto.pendingRepairs);
    if changed {
      vehicles.Save(existing);
    } else {
      assert vehicles.rows[id := existing] == vehicles.rows;
    }
    r := Success(VehicleViewOf(existing));
  }
}
