/** The entities of the rental back office, the request and response
    records that cross the HTTP boundary, and the failures the services
    raise. Identifiers are the database's `Long` keys, timestamps stand for
    `LocalDateTime`, and amounts stand for `BigDecimal` values. */
module Domain {
  import opened Wrappers

  type Timestamp = int
  type Amount = int

  // ---------------------------------------------------------------------
  // Vehicle status

  datatype VehicleStatus = Available | Rented | UnderMaintenance

  /** The enum member's `name`, as stored in the `status` column. */
  function StatusName(st: VehicleStatus): string {
    match st
    case Available => "AVAILABLE"
    case Rented => "RENTED"
    case UnderMaintenance => "UNDER_MAINTENANCE"
  }

  /** `VehicleStatus.valueOf(name)`: the member whose name is exactly `name`;
      `None` where the JVM throws `IllegalArgumentException`. */
  function ParseStatus(name: string): (r: Option<VehicleStatus>)
    ensures forall st :: r == Some(st) <==> StatusName(st) == name
  {
    if name == "AVAILABLE" then Some(Available)
    else if name == "RENTED" then Some(Rented)
    else if name == "UNDER_MAINTENANCE" then Some(UnderMaintenance)
    else None
  }

  // ---------------------------------------------------------------------
  // Entities

  datatype CarModel = CarModel(
    id: int,
    brand: string,
    model: string,
    modelYear: int,
    segment: string,
    doors: int,
    seatingCapacity: int,
    luggageCapacity: int,
    category: string,
    engineType: string,
    transmissionType: string,
    drivetrain: string,
    motorDisplacement: Option<Amount>,
    airConditioning: bool,
    infotainmentOptions: Option<string>,
    safetyFeatures: Option<string>,
    rentalPricePerDay: Amount)

  /** A vehicle holds the car model it references, as the entity does. */
  datatype Vehicle = Vehicle(
    id: int,
    carModel: CarModel,
    licensePlate: string,
    vin: string,
    status: VehicleStatus,
    kilometersTravelled: int,
    pendingCleaning: bool,
    pendingRepairs: bool)

  /** Only the id of the owning vehicle is ever read, so only the id is kept. */
  datatype MaintenanceRecord = MaintenanceRecord(
    id: int,
    vehicleId: int,
    maintenanceDate: Timestamp,
    maintenanceType: string,
    description: string,
    cost: Amount)

  datatype VehicleNote = VehicleNote(
    id: int,
    vehicleId: int,
    author: string,
    note: string,
    createdAt: Timestamp)

  // ---------------------------------------------------------------------
  // Requests

  datatype VehicleRequest = VehicleRequest(
    carModelId: int,
    licensePlate: string,
    vin: string,
    status: string,
    kilometersTravelled: int,
    pendingCleaning: bool,
    pendingRepairs: bool)

  /** The four optional fields of a partial vehicle update. */
  datatype VehiclePatch = VehiclePatch(
    status: Option<string>,
    kilometersTravelled: Option<int>,
    pendingCleaning: Option<bool>,
    pendingRepairs: Option<bool>)

  datatype CarModelRequest = CarModelRequest(
    brand: string,
    model: string,
    modelYear: int,
    segment: string,
    doors: int,
    seatingCapacity: int,
    luggageCapacity: int,
    category: string,
    engineType: string,
    transmissionType: string,
    drivetrain: string,
    motorDisplacement: Option<Amount>,
    airConditioning: bool,
    infotainmentOptions: Option<string>,
    safetyFeatures: Option<string>,
    rentalPricePerDay: Amount,
    safetyRating: int)

  datatype MaintenanceRecordRequest = MaintenanceRecordRequest(
    vehicleId: int,
    maintenanceType: string,
    description: string,
    cost: Amount,
    maintenanceDate: Option<Timestamp>)

  datatype VehicleNoteRequest = VehicleNoteRequest(
    author: string,
    note: string,
    createdAt: Option<Timestamp>)

  // ---------------------------------------------------------------------
  // Response views

  datatype CarModelView = CarModelView(
    id: int,
    brand: string,
    model: string,
    modelYear: int,
    segment: string,
    doors: int,
    seatingCapacity: int,
    luggageCapacity: int,
    category: string,
    engineType: string,
    transmissionType: string,
    drivetrain: string,
    motorDisplacement: Option<Amount>,
    airConditioning: bool,
    infotainmentOptions: Option<string>,
    safetyFeatures: Option<string>,
    rentalPricePerDay: Amount)

  datatype VehicleView = VehicleView(
    id: int,
    carModel: CarModelView,
    licensePlate: string,
    vin: string,
    status: string,
    kilometersTravelled: int,
    pendingCleaning: bool,
    pendingRepairs: bool)

  datatype MaintenanceRecordView = MaintenanceRecordView(
    id: int,
    vehicleId: int,
    maintenanceDate: Timestamp,
    maintenanceType: string,
    description: string,
    cost: Amount)

  datatype VehicleNoteView = VehicleNoteView(
    id: int,
    vehicleId: int,
    author: string,
    note: string,
    createdAt: Timestamp)

  /** The car-model response projection: every column, field for field. */
  function CarModelViewOf(c: CarModel): CarModelView {
    CarModelView(c.id, c.brand, c.model, c.modelYear, c.segment, c.doors,
      c.seatingCapacity, c.luggageCapacity, c.category, c.engineType,
      c.transmissionType, c.drivetrain, c.motorDisplacement, c.airConditioning,
      c.infotainmentOptions, c.safetyFeatures, c.rentalPricePerDay)
  }

  /** The vehicle read view: the status as its enum name, the car model embedded. */
  function VehicleViewOf(v: Vehicle): VehicleView {
    VehicleView(v.id, CarModelViewOf(v.carModel), v.licensePlate, v.vin,
      StatusName(v.status), v.kilometersTravelled, v.pendingCleaning, v.pendingRepairs)
  }

  function RecordViewOf(r: MaintenanceRecord): MaintenanceRecordView {
    MaintenanceRecordView(r.id, r.vehicleId, r.maintenanceDate, r.maintenanceType,
      r.description, r.cost)
  }

  function NoteViewOf(n: VehicleNote): VehicleNoteView {
    VehicleNoteView(n.id, n.vehicleId, n.author, n.note, n.createdAt)
  }

  /** The car-model response carries every column: two models have the same
      response exactly when they are the same model. */
  lemma CarModelViewOfKeepsEveryColumn(a: CarModel, b: CarModel)
    ensures CarModelViewOf(a) == CarModelViewOf(b) <==> a == b
  {
  }

  /** The vehicle response loses nothing: its status text parses back to the
      stored member, and two vehicles have the same response exactly when
      they are the same vehicle. */
  lemma VehicleViewOfKeepsEveryField(a: Vehicle, b: Vehicle)
    ensures ParseStatus(VehicleViewOf(a).status) == Some(a.status)
    ensures VehicleViewOf(a) == VehicleViewOf(b) <==> a == b
  {
    if VehicleViewOf(a) == VehicleViewOf(b) {
      assert ParseStatus(StatusName(a.status)) == Some(a.status);
      assert ParseStatus(StatusName(b.status)) == Some(b.status);
      CarModelViewOfKeepsEveryColumn(a.carModel, b.carModel);
    }
  }

  /** The record response carries the id, the vehicle's id and every column. */
  lemma RecordViewOfKeepsEveryField(a: MaintenanceRecord, b: MaintenanceRecord)
    ensures RecordViewOf(a) == RecordViewOf(b) <==> a == b
  {
  }

  /** The note response carries the id, the vehicle's id and every column. */
  lemma NoteViewOfKeepsEveryField(a: VehicleNote, b: VehicleNote)
    ensures NoteViewOf(a) == NoteViewOf(b) <==> a == b
  {
  }

  // ---------------------------------------------------------------------
  // Failures

  /** What went wrong in a JSON Patch request. */
  datatype PatchProblem =
    | MalformedPatch               // the patch library could not apply or convert the document
    | InvalidStatusValue(value: string)

  /** One constructor per exception class the services throw. */
  datatype ServiceError =
    | VehicleNotFound(vehicleId: int)
    | DuplicateVehicle(licensePlate: string)
    | CarModelNotFound(carModelId: int)
    | IllegalCarModelId(carModelId: int)       // IllegalArgumentException from vehicle update
    | InvalidStatus(value: string)            // IllegalArgumentException from valueOf
    | UnauthorizedPatchPath(path: string)
    | InvalidPatch(problem: PatchProblem)
    | DuplicateCarModel(brand: string, model: string, modelYear: int)
    | MaintenanceRecordNotFound(recordId: int)
    | VehicleNoteNotFound(noteId: int)
}
