/** `PATCH /api/v1/vehicles/{id}` with a JSON Patch body: the service's
    outcome mapped to an HTTP status and body. The handler catches the
    unauthorized-path exception first, then `IllegalArgumentException`,
    then every other `RuntimeException`. */
module VehicleController {
  import opened Wrappers
  import opened Domain
  import opened VehicleService

  datatype HttpResponse = HttpResponse(status: int, body: Option<VehicleView>)

  /** Which catch clause an exception reaches. */
  datatype Handler = ForbiddenHandler | IllegalArgumentHandler | RuntimeHandler

  /** The class of each failure: only the two `IllegalArgumentException`
      sources reach the second clause; `VehicleNotFound` and
      `InvalidPatchException` are plain runtime exceptions. */
  function HandlerFor(e: ServiceError): Handler {
    match e
    case UnauthorizedPatchPath(_) => ForbiddenHandler
    case IllegalCarModelId(_) => IllegalArgumentHandler
    case InvalidStatus(_) => IllegalArgumentHandler
    case _ => RuntimeHandler
  }

  /** The response for a service outcome: 200 with the view, or an error
      status with a null body. */
  function PatchVehicleResponse(outcome: Result<VehicleView, ServiceError>): (resp: HttpResponse)
    ensures resp.body.Some? <==> outcome.Success?
    ensures outcome.Success? ==> resp == HttpResponse(200, Some(outcome.value))
    ensures outcome.Failure? ==> resp.status in {400, 403, 404}
    ensures outcome.Failure? && outcome.error.UnauthorizedPatchPath? ==> resp.status == 403
    ensures outcome.Failure? && (outcome.error.VehicleNotFound? || outcome.error.InvalidPatch?) ==> resp.status == 400
    ensures outcome.Failure? && (outcome.error.IllegalCarModelId? || outcome.error.InvalidStatus?) ==> resp.status == 404
    ensures (outcome.Failure? && !outcome.error.UnauthorizedPatchPath? && !outcome.error.IllegalCarModelId?
             && !outcome.error.InvalidStatus?) ==> resp.status == 400
  {
    match outcome
    case Success(view) => HttpResponse(200, Some(view))
    case Failure(e) =>
      match HandlerFor(e)
      case ForbiddenHandler => HttpResponse(403, None)
      case IllegalArgumentHandler => HttpResponse(404, None)
      case RuntimeHandler => HttpResponse(400, None)
  }

  /** `patchVehicle(id, patch)` against a vehicle table holding `rows`. */
  function PatchVehicle(rows: map<int, Vehicle>, id: int, ops: seq<PatchOperation>,
                        patched: Option<VehiclePatch>): (resp: HttpResponse)
    ensures resp.status == 200 <==> JsonPatchOutcome(rows, id, ops, patched).Success?
    ensures resp.status == 403 <==> id in rows && FirstDisallowedPath(ops).Some?
    ensures resp.status in {200, 400, 403}
    ensures resp.body.Some? <==> resp.status == 200
  {
    var outcome := JsonPatchOutcome(rows, id, ops, patched);
    PatchVehicleResponse(if outcome.Success? then Success(VehicleViewOf(outcome.value)) else Failure(outcome.error))
  }

  /** A missing vehicle answers 400, not 404, whatever the document holds. */
  lemma MissingVehicleIsBadRequest(rows: map<int, Vehicle>, id: int, ops: seq<PatchOperation>,
                                   patched: Option<VehiclePatch>)
    requires id !in rows
    ensures PatchVehicle(rows, id, ops, patched) == HttpResponse(400, None)
  {
  }

  /** A path outside the allow-list answers 403 with a null body. */
  lemma DisallowedPathIsForbidden(rows: map<int, Vehicle>, id: int, ops: seq<PatchOperation>,
                                  patched: Option<VehiclePatch>, i: int)
    requires id in rows && 0 <= i < |ops| && !PathAllowed(ops[i].path)
    ensures PatchVehicle(rows, id, ops, patched) == HttpResponse(403, None)
  {
    DisallowedPathRejectsAll(rows[id], ops, patched, i);
  }

  /** A malformed document or an unknown status value answers 400. */
  lemma InvalidPatchIsBadRequest(rows: map<int, Vehicle>, id: int, ops: seq<PatchOperation>,
                                 patched: Option<VehiclePatch>)
    requires id in rows && forall i :: 0 <= i < |ops| ==> PathAllowed(ops[i].path)
    requires patched.None? || (patched.value.status.Some? && ParseStatusIgnoringCase(patched.value.status.value).None?)
    ensures PatchVehicle(rows, id, ops, patched) == HttpResponse(400, None)
  {
    FirstDisallowedPathSpec(ops);
  }

  /** A successful patch answers 200 with the patched vehicle's view. */
  lemma SuccessIsOk(rows: map<int, Vehicle>, id: int, ops: seq<PatchOperation>, patched: Option<VehiclePatch>)
    requires JsonPatchOutcome(rows, id, ops, patched).Success?
    ensures PatchVehicle(rows, id, ops, patched)
         == HttpResponse(200, Some(VehicleViewOf(JsonPatchOutcome(rows, id, ops, patched).value)))
  {
  }

  /** The 404 branch is never reached from this endpoint: the service code itself
      raises no `IllegalArgumentException` on this path. */
  lemma NeverNotFound(rows: map<int, Vehicle>, id: int, ops: seq<PatchOperation>, patched: Option<VehiclePatch>)
    ensures PatchVehicle(rows, id, ops, patched).status != 404
  {
  }
}
