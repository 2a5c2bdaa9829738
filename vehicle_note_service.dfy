/** The vehicle-note service: notes attached to an existing vehicle, with the
    creation time defaulting to the current time on create and to the stored
    time on update. The clock is a parameter, `now`. */
module VehicleNoteService {
  import opened Wrappers
  import opened Text
  import opened Domain
  import opened Store
  import opened Paging
  import VehicleNoteQueries

  /** `findByVehicleIdWithFilters(...)`: the repository's page, as views. */
  function FindByVehicleIdWithFilters(rows: seq<VehicleNote>, vehicleId: int, author: Option<string>,
                                      from: Option<Timestamp>, to: Option<Timestamp>,
                                      pageable: Pageable): (r: Page<VehicleNoteView>)
    ensures |r.content| <= pageable.pageSize && |r.content| <= r.total
    ensures forall i :: 0 <= i < |r.content| ==>
              && r.content[i].vehicleId == vehicleId
              && (author.Some? ==> Contains(ToLower(r.content[i].author), ToLower(author.value)))
              && (from.Some? ==> from.value <= r.content[i].createdAt)
              && (to.Some? ==> r.content[i].createdAt <= to.value)
    ensures forall i, j :: 0 <= i < j < |r.content| ==> r.content[i].createdAt >= r.content[j].createdAt
    ensures r.total == |Filter(rows, VehicleNoteQueries.Criteria(vehicleId, author, from, to))|
    ensures var page := VehicleNoteQueries.FindByVehicleIdWithFilters(rows, vehicleId, author, from, to, pageable);
            |r.content| == |page.content| && forall i :: 0 <= i < |r.content| ==> r.content[i] == NoteViewOf(page.content[i])
  {
    var page := VehicleNoteQueries.FindByVehicleIdWithFilters(rows, vehicleId, author, from, to, pageable);
    ViewsOfPage(page, vehicleId, author, from, to);
    MapPage(page, NoteViewOf)
  }

  /** Converting a page of matching, newest-first notes keeps both facts. */
  lemma ViewsOfPage(page: Page<VehicleNote>, vehicleId: int, author: Option<string>,
                    from: Option<Timestamp>, to: Option<Timestamp>)
    requires forall x :: x in page.content ==> VehicleNoteQueries.Matches(x, vehicleId, author, from, to)
    requires SortedDesc(page.content, VehicleNoteQueries.CreatedAtOf)
    ensures var r := MapPage(page, NoteViewOf);
            forall i :: 0 <= i < |r.content| ==>
              && r.content[i].vehicleId == vehicleId
              && (author.Some? ==> Contains(ToLower(r.content[i].author), ToLower(author.value)))
              && (from.Some? ==> from.value <= r.content[i].createdAt)
              && (to.Some? ==> r.content[i].createdAt <= to.value)
    ensures var r := MapPage(page, NoteViewOf);
            forall i, j :: 0 <= i < j < |r.content| ==> r.content[i].createdAt >= r.content[j].createdAt
  {
    var r := MapPage(page, NoteViewOf);
    forall i | 0 <= i < |r.content|
      ensures VehicleNoteQueries.Matches(page.content[i], vehicleId, author, from, to)
    {
      assert page.content[i] in page.content;
    }
    forall i, j | 0 <= i < j < |r.content|
      ensures r.content[i].createdAt >= r.content[j].createdAt
    {
      assert VehicleNoteQueries.CreatedAtOf(page.content[i]) >= VehicleNoteQueries.CreatedAtOf(page.content[j]);
    }
  }


  /** `create(vehicleId, request)`: `createdAt` is the request's, else `now`. */
  method Create(vehicles: VehicleTable, notes: VehicleNoteTable, vehicleId: int,
                request: VehicleNoteRequest, now: Timestamp) returns (r: Result<VehicleNoteView, ServiceError>)
    requires vehicles.Valid() && notes.Valid()
    modifies notes
    ensures notes.Valid()
    ensures vehicleId !in vehicles.rows ==>
              && r == Failure(VehicleNotFound(vehicleId))
              && notes.rows == old(notes.rows) && notes.writes == old(notes.writes)
    ensures vehicleId in vehicles.rows ==>
              var saved := VehicleNote(old(notes.nextId), vehicleId, request.author, request.note,
                                       request.createdAt.GetOr(now));
              && saved.id !in old(notes.rows)
              && notes.rows == old(notes.rows)[saved.id := saved]
              && r == Success(NoteViewOf(saved))
              && notes.writes == old(notes.writes) + 1
    ensures r.Success? ==> r.value.createdAt == (if request.createdAt.Some? then request.createdAt.value else now)
  {
    if vehicleId !in vehicles.rows {
      return Failure(VehicleNotFound(vehicleId));
    }
    var vehicle := vehicles.rows[vehicleId];
    var note := VehicleNote(0, vehicle.id, request.author, request.note, request.createdAt.GetOr(now));
    var saved := notes.Insert(note);
    r := Success(NoteViewOf(saved));
  }

  /** `update(noteId, request)`: author and text replaced, `createdAt` the
      request's or else the stored one, id and vehicle kept. */
  method Update(notes: VehicleNoteTable, noteId: int, request: VehicleNoteRequest)
    returns (r: Result<VehicleNoteView, ServiceError>)
    requires notes.Valid()
    modifies notes
    ensures notes.Valid()
    ensures noteId !in old(notes.rows) ==>
              && r == Failure(VehicleNoteNotFound(noteId))
              && notes.rows == old(notes.rows) && notes.writes == old(notes.writes)
    ensures noteId in old(notes.rows) ==>
              var existing := old(notes.rows)[noteId];
              var updated := VehicleNote(noteId, existing.vehicleId, request.author, request.note,
                                         request.createdAt.GetOr(existing.createdAt));
              && notes.rows == old(notes.rows)[noteId := updated]
              && r == Success(NoteViewOf(updated))
              && notes.writes == old(notes.writes) + 1
  {
    if noteId !in notes.rows {
      return Failure(VehicleNoteNotFound(noteId));
    }
    var existing := notes.rows[noteId];
    var updated := existing.(author := request.author, note := request.note,
      createdAt := request.createdAt.GetOr(existing.createdAt));
    notes.Save(updated);
    r := Success(NoteViewOf(updated));
  }

  /** `delete(noteId)`: a missing id fails; otherwise only that row goes. */
  method Delete(notes: VehicleNoteTable, noteId: int) returns (r: Result<(), ServiceError>)
    requires notes.Valid()
    modifies notes
    ensures notes.Valid()
    ensures noteId !in old(notes.rows) ==>
              r == Failure(VehicleNoteNotFound(noteId)) && notes.rows == old(notes.rows)
                && notes.writes == old(notes.writes)
    ensures noteId in old(notes.rows) ==>
              r == Success(()) && notes.rows == old(notes.rows) - {noteId}
                && notes.writes == old(notes.writes) + 1
  {
    if noteId !in notes.rows {
      return Failure(VehicleNoteNotFound(noteId));
    }
    notes.DeleteById(noteId);
    r := Success(());
  }
}
