# Reservation service fleet core, modelled in Dafny

This project models the fleet-management core of the Kotlin/Spring
`ReservationService`: vehicles, car models, maintenance records and vehicle
notes, and the services and queries that read and write them.

- **Tables.** Each persistent table is a class in module `Store`. It holds the
  rows as a map from identity to entity, plus the identity counter the
  database draws new ids from. Its `Insert`, `Save` and `DeleteById` stand
  for the JPA repository calls. A ghost `writes` counter counts those calls,
  so a contract can say how many writes an operation makes.
- **Services.** `VehicleService`, `CarModelService`, `MaintenanceRecordService`
  and `VehicleNoteService` are modules of methods over those tables. Each
  method returns `Success(view)` or `Failure(error)` where the Kotlin code
  returns a DTO or throws.
- **Vehicle patches.** Both partial-update paths are modelled:
  - the flat `patch(id, dto)`;
  - `applyPatchToVehicle(id, patch)`, which takes an RFC 6902 JSON Patch and
    checks every operation's path against a fixed allow-list.

  Both are written the way the code is: the loaded vehicle changes field by
  field under a `changed` flag, and is saved only if the flag is set. Each is
  proved against a pure specification (`FlatPatched`, `JsonPatched`), and the
  properties of those specifications are proved as lemmas.
- **Controller.** `VehicleController` maps the JSON Patch outcome to the HTTP
  status that `patchVehicle`'s catch clauses produce.
- **List queries.** The list-query repositories (Criteria API and JPQL) are
  pure functions over the table's rows in scan order. `Paging.Filter` is the
  WHERE clause, `Paging.SortDesc` is `ORDER BY … DESC`, `Paging.Window` is
  `firstResult`/`maxResults`, and `Paging.Count` is the separate count query.

Two behaviours of the code worth noting:

- A JSON Patch on a missing vehicle answers 400, not 404. `VehicleNotFound`
  is a plain `RuntimeException`, so it reaches the controller's last catch
  clause (`VehicleController.MissingVehicleIsBadRequest`).
- The car-model duplicate check compares brand and model only. The table's
  unique constraint also includes the model year
  (`CarModelQueries.ExistsIgnoresOtherColumns`).

Modelling choices:

- Time (`LocalDateTime`) and money (`BigDecimal`) are integers.
- The current time is an explicit parameter, `now`.
- A `Vehicle` value carries its `CarModel` value; records and notes carry
  only their vehicle's id, the only part of it the code reads.

## Model

| member | source | states |
|---|---|---|
| Domain.ParseStatus | ReservationService/src/main/kotlin/org/example/reservationservice/model/Vehicle.kt:36-38 | `valueOf` finds a member exactly when the text is that member's name; any other text is rejected |
| VehicleService.ParseStatusIgnoringCaseSpec | ReservationService/src/main/kotlin/org/example/reservationservice/service/VehicleService.kt:67 | `valueOf(s.uppercase())` accepts `s` iff its upper-cased form is a member name, and accepts every exact name |
| VehicleService.LowerCaseStatusName | ReservationService/src/main/kotlin/org/example/reservationservice/service/VehicleService.kt:128 | "rented" is rejected by the flat patch's exact parse, while the case-insensitive parse (line 184) accepts it |
| Domain.CarModelViewOfKeepsEveryColumn | ReservationService/src/main/kotlin/org/example/reservationservice/service/CarModelService.kt:88-106 | `toResponseDTO` copies every column: two car models have the same response iff they are equal |
| Domain.VehicleViewOfKeepsEveryField | ReservationService/src/main/kotlin/org/example/reservationservice/dto/VehicleResponseDTO.kt:17-27 | the response's status text parses back to the stored member, and two vehicles have the same response iff they are equal |
| Domain.RecordViewOfKeepsEveryField | ReservationService/src/main/kotlin/org/example/reservationservice/dto/MaintenanceRecordResponseDTO.kt:16-25 | the record response carries the id, the vehicle's id and every column: equal responses iff equal records |
| Domain.NoteViewOfKeepsEveryField | ReservationService/src/main/kotlin/org/example/reservationservice/dto/VehicleNoteResponseDTO.kt:15-21 | the note response carries the id, the vehicle's id and every column: equal responses iff equal notes |
| VehicleService.PlateTakenAfterInsert | ReservationService/src/main/kotlin/org/example/reservationservice/repository/VehicleRepository.kt:8 | after a vehicle is stored under a new key, `existsByLicensePlate` holds for its plate and is unchanged for every other plate |
| VehicleService.AllowedPathsAreTheStateFields | ReservationService/src/main/kotlin/org/example/reservationservice/service/VehicleService.kt:31-36 | the four state fields are patchable; `/id`, `/licensePlate`, `/vin`, `/carModel` and an operation without a path are refused |
| VehicleService.FindById | ReservationService/src/main/kotlin/org/example/reservationservice/service/VehicleService.kt:51-53 | succeeds iff the id is stored and returns that vehicle's view; otherwise fails with `VehicleNotFound(id)` |
| VehicleService.FindAllFiltered | ReservationService/src/main/kotlin/org/example/reservationservice/service/VehicleService.kt:55-58 | the total is the number of matching vehicles; the page holds one view per row of the query's page, in the same order (so the views of the offset window); every view satisfies each given filter; at most `pageSize` rows and no more than the total |
| VehicleService.Create | ReservationService/src/main/kotlin/org/example/reservationservice/service/VehicleService.kt:60-84 | checks run in this order: a taken plate gives `DuplicateVehicle`, a missing car model gives `CarModelNotFound`, a bad status gives `InvalidStatus`; each failure leaves the table unchanged. Otherwise exactly one new row is inserted under a fresh id. Unique plates stay unique |
| VehicleService.Update | ReservationService/src/main/kotlin/org/example/reservationservice/service/VehicleService.kt:86-110 | checks run in this order: a missing id gives `VehicleNotFound`, a missing car model gives `IllegalCarModelId`, a bad status gives `InvalidStatus`. Otherwise the row is replaced by the request's fields under the same id, with one write |
| VehicleService.Delete | ReservationService/src/main/kotlin/org/example/reservationservice/service/VehicleService.kt:112-118 | a missing id fails and changes nothing; otherwise only that row is removed, with one write |
| VehicleService.MergeChangesIff | ReservationService/src/main/kotlin/org/example/reservationservice/service/VehicleService.kt:123-161 | the `changed` flag is raised exactly when the merged vehicle differs from the stored one |
| VehicleService.FlatPatchedFields | ReservationService/src/main/kotlin/org/example/reservationservice/service/VehicleService.kt:125-155 | after a successful flat patch, each present field holds the patch value and each absent field keeps its old value; id, plate, VIN and car model are untouched |
| VehicleService.FlatPatchStatusIsCaseSensitive | ReservationService/src/main/kotlin/org/example/reservationservice/service/VehicleService.kt:125-131 | a flat patch that carries a status succeeds iff that text is exactly a member name |
| VehicleService.FlatPatchIdempotent | ReservationService/src/main/kotlin/org/example/reservationservice/service/VehicleService.kt:120-164 | applying the same flat patch twice gives the same vehicle as applying it once |
| VehicleService.Patch | ReservationService/src/main/kotlin/org/example/reservationservice/service/VehicleService.kt:120-164 | the field-by-field method's result and new table equal the specification `FlatPatchOutcome`; it writes once if the vehicle changed and not at all otherwise |
| VehicleService.FirstDisallowedPathSpec | ReservationService/src/main/kotlin/org/example/reservationservice/service/VehicleService.kt:38-46 | the document is rejected iff some operation's path is missing or outside the allow-list; the reported path is the first such operation's (`<unknown>` when absent) |
| VehicleService.ValidatePatchPaths | ReservationService/src/main/kotlin/org/example/reservationservice/service/VehicleService.kt:38-46 | the loop returns the first disallowed path; it returns none iff every path is one of the four allowed ones |
| VehicleService.DisallowedPathRejectsAll | ReservationService/src/main/kotlin/org/example/reservationservice/service/VehicleService.kt:174-175 | one disallowed operation rejects the whole document with `UnauthorizedPatchPath`, before anything is applied |
| VehicleService.JsonPatchedFields | ReservationService/src/main/kotlin/org/example/reservationservice/service/VehicleService.kt:177-217 | a successful JSON Patch had only allowed paths and a converted result. Each present field is taken from it, with the status named by its upper-cased text; absent fields and the identity fields are kept |
| VehicleService.InvalidStatusRejectsAll | ReservationService/src/main/kotlin/org/example/reservationservice/service/VehicleService.kt:182-187 | a status whose upper-cased text names no member fails the whole patch with `InvalidPatchException`, whatever the other fields hold |
| VehicleService.JsonPatchIdempotent | ReservationService/src/main/kotlin/org/example/reservationservice/service/VehicleService.kt:167-233 | applying the same JSON Patch twice gives the same vehicle as applying it once |
| VehicleService.ApplyPatchToVehicle | ReservationService/src/main/kotlin/org/example/reservationservice/service/VehicleService.kt:167-233 | the checks and merge give the result and new table of `JsonPatchOutcome`: not-found first, then the path check, then conversion and status. It writes once if the vehicle changed and not at all otherwise |
| VehicleController.PatchVehicleResponse | ReservationService/src/main/kotlin/org/example/reservationservice/controller/VehicleController.kt:60-72 | success gives 200 with the view; every failure has a null body and status 400, 403 or 404. An unauthorized path gives 403; the two `IllegalArgumentException` sources (unknown car model, unknown status) give 404; every other failure, including a missing vehicle and an invalid patch, gives 400 |
| VehicleController.PatchVehicle | ReservationService/src/main/kotlin/org/example/reservationservice/controller/VehicleController.kt:55-73 | the endpoint answers 200 iff the service patch succeeds, 403 iff the vehicle exists and some operation's path is disallowed, and 400 otherwise; only a 200 carries a body |
| VehicleController.MissingVehicleIsBadRequest | ReservationService/src/main/kotlin/org/example/reservationservice/controller/VehicleController.kt:69-71 | patching a missing vehicle answers 400 with a null body, whatever the document |
| VehicleController.DisallowedPathIsForbidden | ReservationService/src/main/kotlin/org/example/reservationservice/controller/VehicleController.kt:63-66 | an existing vehicle with any disallowed operation answers 403 with a null body |
| VehicleController.InvalidPatchIsBadRequest | ReservationService/src/main/kotlin/org/example/reservationservice/controller/VehicleController.kt:69-71 | a document the library cannot apply, or one with an unknown status, answers 400 |
| VehicleController.SuccessIsOk | ReservationService/src/main/kotlin/org/example/reservationservice/controller/VehicleController.kt:60-62 | a successful patch answers 200 with the patched vehicle's view |
| VehicleController.NeverNotFound | ReservationService/src/main/kotlin/org/example/reservationservice/controller/VehicleController.kt:67-68 | this endpoint never answers 404: the service raises no `IllegalArgumentException` on this path |
| CarModelService.ToEntity | ReservationService/src/main/kotlin/org/example/reservationservice/service/CarModelService.kt:108-125 | the new entity leaves its id at 0 for the database and carries all sixteen descriptive fields of the request |
| CarModelService.ResponseOfEntityDescribesRequest | ReservationService/src/main/kotlin/org/example/reservationservice/service/CarModelService.kt:88-125 | mapping request to entity to response keeps all sixteen descriptive fields, and the response carries the assigned id |
| CarModelService.SafetyRatingDropped | ReservationService/src/main/kotlin/org/example/reservationservice/service/CarModelService.kt:108-125 | requests that differ only in `safetyRating` store the same entity |
| CarModelService.FindById | ReservationService/src/main/kotlin/org/example/reservationservice/service/CarModelService.kt:38-41 | succeeds iff the id is stored and returns that model's view; otherwise fails with `CarModelNotFound(id)` |
| CarModelService.FindAllFiltered | ReservationService/src/main/kotlin/org/example/reservationservice/service/CarModelService.kt:20-36 | the total is the number of matching models; the page holds one view per row of the repository's page, in the same order; every view satisfies each given filter; at most `pageSize` rows and no more than the total |
| CarModelService.Create | ReservationService/src/main/kotlin/org/example/reservationservice/service/CarModelService.kt:43-50 | an existing brand and model gives `DuplicateCarModel` and changes nothing; otherwise one new row is inserted under a fresh id. Brand-and-model uniqueness is preserved |
| CarModelService.Update | ReservationService/src/main/kotlin/org/example/reservationservice/service/CarModelService.kt:52-78 | a missing id gives `CarModelNotFound` and changes nothing; otherwise every descriptive field is replaced and the id is kept, with one write |
| CarModelService.Delete | ReservationService/src/main/kotlin/org/example/reservationservice/service/CarModelService.kt:80-86 | a missing id fails and changes nothing; otherwise only that row is removed |
| CarModelQueries.ExistsIgnoresOtherColumns | ReservationService/src/main/kotlin/org/example/reservationservice/repository/CarModelRepository.kt:15 | a stored model with the same brand and model is found, whatever its year |
| CarModelQueries.ExistsAfterInsert | ReservationService/src/main/kotlin/org/example/reservationservice/repository/CarModelRepository.kt:15 | after a car model is stored under a new key, `existsByBrandAndModel` holds for its pair and is unchanged for every other pair |
| CarModelQueries.FindFiltered | ReservationService/src/main/kotlin/org/example/reservationservice/repository/CarModelRepository.kt:17-32 | every returned row is stored and satisfies each non-null clause; the total counts all matches; the page is exactly the window of `pageSize` rows at `offset` of the matches in scan order |
| CarModelQueries.NullFiltersSelectAll | ReservationService/src/main/kotlin/org/example/reservationservice/repository/CarModelRepository.kt:19-23 | with every parameter null, no row is excluded |
| CarModelQueries.SelectedIffAllClauses | ReservationService/src/main/kotlin/org/example/reservationservice/repository/CarModelRepository.kt:19-23 | a stored model matches iff each given parameter equals its column |
| CarModelQueries.NoModelNameOrPriceClause | ReservationService/src/main/kotlin/org/example/reservationservice/repository/CarModelRepository.kt:17-24 | two models that agree on the five filtered columns are selected alike, whatever their model name or price |
| VehicleQueries.FindAllFiltered | ReservationService/src/main/kotlin/org/example/reservationservice/repository/VehicleRepositoryImpl.kt:16-50 | every returned vehicle is stored and satisfies each given filter; the total counts the matches; the page is exactly the window of `pageSize` rows at `offset` of the matches in scan order |
| VehicleQueries.NoFiltersSelectAll | ReservationService/src/main/kotlin/org/example/reservationservice/repository/VehicleRepositoryImpl.kt:25-35 | with no filter, the page is a plain window of the table and the total is its size |
| VehicleQueries.CountedIffMatches | ReservationService/src/main/kotlin/org/example/reservationservice/repository/VehicleRepositoryImpl.kt:27-33 | a stored vehicle is counted iff it passes every given filter |
| MaintenanceRecordQueries.FindByVehicleIdWithFilters | ReservationService/src/main/kotlin/org/example/reservationservice/repository/MaintenanceRecordRepositoryImpl.kt:17-62 | every returned record belongs to the vehicle and meets the type and inclusive date filters; the page is newest first; the total counts the matches; the page is exactly the window of `pageSize` rows at `offset` of the date-sorted matches |
| MaintenanceRecordQueries.FindByVehicleId | ReservationService/src/main/kotlin/org/example/reservationservice/repository/MaintenanceRecordRepository.kt:10 | returns exactly the stored records of that vehicle, each as many times as it is stored (so the length is the count of that vehicle's records), and nothing else |
| VehicleNoteQueries.FindByVehicleIdWithFilters | ReservationService/src/main/kotlin/org/example/reservationservice/repository/VehicleNoteRepositoryImpl.kt:17-78 | every returned note belongs to the vehicle, meets the author filter ignoring case and the inclusive date range; the page is newest first; the total counts the matches under the same predicates; the page is exactly the window of `pageSize` rows at `offset` of the sorted matches |
| VehicleNoteQueries.AuthorFilterIgnoresCase | ReservationService/src/main/kotlin/org/example/reservationservice/repository/VehicleNoteRepositoryImpl.kt:34-36 | upper-casing the author or the filter does not change whether a note matches |
| VehicleNoteQueries.AuthorFilterTrivialCases | ReservationService/src/main/kotlin/org/example/reservationservice/repository/VehicleNoteRepositoryImpl.kt:34-36 | the empty filter (`%%`) accepts every author, and every author matches its own name |
| MaintenanceRecordService.FindById | ReservationService/src/main/kotlin/org/example/reservationservice/service/MaintenanceRecordService.kt:30-35 | succeeds iff the id is stored and returns that record's view; otherwise fails with `MaintenanceRecordNotFound(id)` |
| MaintenanceRecordService.FindByVehicleId | ReservationService/src/main/kotlin/org/example/reservationservice/service/MaintenanceRecordService.kt:25-28 | one view per record the repository returns, in the same order; every view belongs to that vehicle, and every stored record of that vehicle has its view in the result |
| MaintenanceRecordService.FindByVehicleIdWithFilters | ReservationService/src/main/kotlin/org/example/reservationservice/service/MaintenanceRecordService.kt:36-45 | the total is the number of matching records; the page holds one view per row of the repository's page, in the same order; the views meet every filter and are newest first; at most `pageSize` rows and no more than the total |
| MaintenanceRecordService.ViewsOfPage | ReservationService/src/main/kotlin/org/example/reservationservice/service/MaintenanceRecordService.kt:44 | mapping a page of matching, newest-first records to views keeps both facts |
| MaintenanceRecordService.Create | ReservationService/src/main/kotlin/org/example/reservationservice/service/MaintenanceRecordService.kt:47-63 | a missing vehicle gives `VehicleNotFound` and writes nothing; otherwise one record is inserted under a fresh id, linked to that vehicle and dated by the request or else `now` |
| MaintenanceRecordService.Update | ReservationService/src/main/kotlin/org/example/reservationservice/service/MaintenanceRecordService.kt:65-80 | a missing id gives `MaintenanceRecordNotFound`; otherwise type, description and cost are replaced, and the date is the request's or else `now` (not the old date). Id and vehicle are kept |
| MaintenanceRecordService.Delete | ReservationService/src/main/kotlin/org/example/reservationservice/service/MaintenanceRecordService.kt:82-88 | a missing id fails and changes nothing; otherwise only that row is removed |
| VehicleNoteService.FindByVehicleIdWithFilters | ReservationService/src/main/kotlin/org/example/reservationservice/service/VehicleNoteService.kt:25-34 | the total is the number of matching notes; the page holds one view per row of the repository's page, in the same order; the views meet every filter and are newest first; at most `pageSize` rows and no more than the total |
| VehicleNoteService.ViewsOfPage | ReservationService/src/main/kotlin/org/example/reservationservice/service/VehicleNoteService.kt:33 | mapping a page of matching, newest-first notes to views keeps both facts |
| VehicleNoteService.Create | ReservationService/src/main/kotlin/org/example/reservationservice/service/VehicleNoteService.kt:36-49 | a missing vehicle gives `VehicleNotFound` and writes nothing; otherwise one note is inserted under a fresh id, with `createdAt` from the request or else `now` |
| VehicleNoteService.Update | ReservationService/src/main/kotlin/org/example/reservationservice/service/VehicleNoteService.kt:51-64 | a missing id gives `VehicleNoteNotFound`; otherwise author and text are replaced, `createdAt` is the request's or else the stored one, and id and vehicle are kept |
| VehicleNoteService.Delete | ReservationService/src/main/kotlin/org/example/reservationservice/service/VehicleNoteService.kt:66-72 | a missing id fails and changes nothing; otherwise only that row is removed |
| Paging.Filter | ReservationService/src/main/kotlin/org/example/reservationservice/repository/VehicleRepositoryImpl.kt:35 | the WHERE clause keeps exactly the rows the predicate accepts, and never more rows than it was given |
| Paging.Count | ReservationService/src/main/kotlin/org/example/reservationservice/repository/VehicleRepositoryImpl.kt:43-47 | the count never exceeds the number of rows, and equals it iff every row passes the predicates |
| Paging.FilterMultiplicity | ReservationService/src/main/kotlin/org/example/reservationservice/repository/VehicleRepositoryImpl.kt:35 | the WHERE clause keeps each accepted row exactly as many times as it occurs and drops every rejected row |
| Paging.CountIsFilterLength | ReservationService/src/main/kotlin/org/example/reservationservice/repository/VehicleRepositoryImpl.kt:43-47 | the count query under the same predicates counts exactly the rows the page query selects |
| Paging.FilterAcceptAll | ReservationService/src/main/kotlin/org/example/reservationservice/repository/VehicleRepositoryImpl.kt:35 | an empty predicate list keeps every row in order |
| Paging.Window | ReservationService/src/main/kotlin/org/example/reservationservice/repository/VehicleRepositoryImpl.kt:37-40 | `firstResult`/`maxResults` give at most `pageSize` rows starting at `offset`, and none past the end |
| Paging.WindowWithin | ReservationService/src/main/kotlin/org/example/reservationservice/repository/VehicleRepositoryImpl.kt:38-40 | every row of a window is a row of the windowed sequence |
| Paging.InsertDesc | ReservationService/src/main/kotlin/org/example/reservationservice/repository/MaintenanceRecordRepositoryImpl.kt:38 | inserting into a descending sequence keeps it descending and adds exactly that row |
| Paging.SortDesc | ReservationService/src/main/kotlin/org/example/reservationservice/repository/MaintenanceRecordRepositoryImpl.kt:38 | `ORDER BY key DESC` yields a descending permutation of its input |
| Paging.SortDescSameRows | ReservationService/src/main/kotlin/org/example/reservationservice/repository/VehicleNoteRepositoryImpl.kt:47 | sorting keeps the number of rows and exactly the same rows |
| Paging.WindowKeepsOrder | ReservationService/src/main/kotlin/org/example/reservationservice/repository/VehicleNoteRepositoryImpl.kt:47-51 | a window of a descending sequence is descending |
| Paging.MapPage | ReservationService/src/main/kotlin/org/example/reservationservice/service/VehicleService.kt:57 | `Page.map` converts each row in place and keeps the total |
| Store.VehicleTable.Insert | ReservationService/src/main/kotlin/org/example/reservationservice/model/Vehicle.kt:8-10 | saving a new vehicle adds exactly one row under a fresh identity and returns it |
| Store.VehicleTable.Save | ReservationService/src/main/kotlin/org/example/reservationservice/service/VehicleService.kt:105 | saving a stored vehicle replaces that row only |
| Store.VehicleTable.DeleteById | ReservationService/src/main/kotlin/org/example/reservationservice/service/VehicleService.kt:116 | deleting removes that row only |
| Store.CarModelTable.Insert | ReservationService/src/main/kotlin/org/example/reservationservice/model/CarModel.kt:12-14 | saving a new car model adds exactly one row under a fresh identity |
| Store.CarModelTable.Save | ReservationService/src/main/kotlin/org/example/reservationservice/service/CarModelService.kt:56-75 | saving a stored car model replaces that row only |
| Store.CarModelTable.DeleteById | ReservationService/src/main/kotlin/org/example/reservationservice/service/CarModelService.kt:84 | deleting removes that row only |
| Store.MaintenanceRecordTable.Insert | ReservationService/src/main/kotlin/org/example/reservationservice/model/MaintenanceRecord.kt:10-12 | saving a new record adds exactly one row under a fresh identity |
| Store.MaintenanceRecordTable.Save | ReservationService/src/main/kotlin/org/example/reservationservice/service/MaintenanceRecordService.kt:77 | saving a stored record replaces that row only |
| Store.MaintenanceRecordTable.DeleteById | ReservationService/src/main/kotlin/org/example/reservationservice/service/MaintenanceRecordService.kt:86 | deleting removes that row only |
| Store.VehicleNoteTable.Insert | ReservationService/src/main/kotlin/org/example/reservationservice/model/VehicleNote.kt:9-11 | saving a new note adds exactly one row under a fresh identity |
| Store.VehicleNoteTable.Save | ReservationService/src/main/kotlin/org/example/reservationservice/service/VehicleNoteService.kt:61 | saving a stored note replaces that row only |
| Store.VehicleNoteTable.DeleteById | ReservationService/src/main/kotlin/org/example/reservationservice/service/VehicleNoteService.kt:70 | deleting removes that row only |
| Text.ToUpperFixes | ReservationService/src/main/kotlin/org/example/reservationservice/service/VehicleService.kt:67 | upper-casing leaves a string with no lower-case letters unchanged, so exact member names survive `uppercase()` |
| Text.ToLowerForgetsCase | ReservationService/src/main/kotlin/org/example/reservationservice/repository/VehicleNoteRepositoryImpl.kt:35 | lower-casing an upper-cased string equals lower-casing the original |
| Text.ContainsEmpty | ReservationService/src/main/kotlin/org/example/reservationservice/repository/VehicleNoteRepositoryImpl.kt:35 | the empty pattern occurs in every string |
| Text.ContainsSelf | ReservationService/src/main/kotlin/org/example/reservationservice/repository/VehicleNoteRepositoryImpl.kt:35 | every string contains itself |

## Left out

- Logging (SLF4J and the `println` in `validatePatchPaths`) is left out. It has no effect on state or results.
- The JSON Patch library and the Jackson conversions are not modelled. Applying a patch to the empty DTO and reading back a `VehiclePatchDTO` become the input `patched`. `None` stands for a `JsonPatchException` or `JsonProcessingException`. The operations' values and the mapping of the camel-case allowed paths onto the DTO's snake-case JSON names are therefore not modelled.
- Spring MVC, JPA and Hibernate are left out: request binding, transactions, lazy loading, dirty checking and the flush of a managed entity changed before an exception. A table is a map, and a query scans rows in a fixed order.
- The count query of `VehicleRepositoryImpl` reuses predicates built on the page query's root (lines 43-46). The model treats them as the same predicates over the count root.
- Hibernate compares the enum `status` column with a string parameter. The model compares the member's name with the string.
- `VehicleQueries.FindAllFiltered` and the other list queries: `offset.toInt()` truncation of offsets above 2^31-1 is not modelled. `PageImpl`'s own correction of the total is not modelled either; with a consistent count it leaves the total as it is.
- MaintenanceRecordQueries.FindByVehicleId: the derived query has no ORDER BY, so the database may return the rows in any order. The model returns them in scan order, but its contract fixes only which records come back and how many times each, not their order.
- `Paging.SortDesc`: the order of rows with equal dates is left to the database. The model fixes one order (insertion sort over scan order), and the contracts speak only of descending order and permutation.
- `LIKE` patterns: the model treats the author filter as a plain substring. A `%` or `_` inside the filter text is not given its wildcard meaning.
- Case conversion (`uppercase()`, `lowercase()`, SQL `lower`) covers ASCII letters only.
- `Int` and `Long` widths and overflow are not modelled: ids, kilometres and years are unbounded integers. `BigDecimal` amounts and `LocalDateTime` timestamps are integers too.
- `LocalDateTime.now()` becomes the parameter `now`.
- Uniqueness of VIN and licence plate, and the `(brand, model, model_year)` unique constraint, are enforced by the database; a violation raises an exception the model does not have. `VehicleService.Create` preserves plate uniqueness. `VehicleService.Update` and `CarModelService.Update` make no duplicate check, as in the code, and may break uniqueness.
- A vehicle row holds a copy of its car model, not a foreign key. Later changes to a car model are therefore not seen through stored vehicles, and deleting a car model leaves its vehicles as they are.
- VehicleService.Delete: the database refuses to delete a vehicle that maintenance records or notes still reference (non-null `@ManyToOne` join columns); the model deletes it anyway and leaves those records and notes pointing at a missing vehicle.
- CarModelService.Delete: the database refuses to delete a car model that vehicles still reference (non-null `@ManyToOne` join column); the model deletes it anyway.
- `VehicleController.PatchVehicleResponse` treats `DuplicateVehicleException` and `CarModelNotFoundException` as `RuntimeException`s. Their classes are not part of this model, and neither arises on the JSON Patch path.
- `CarModelResponseDTO.from`, which `VehicleResponseDTO.from` calls, is not defined in the source files this model was written from. The vehicle view uses the car-model service's `toResponseDTO` field mapping instead.
- The `findAll` listings of all vehicles or car models, the other controllers, `ProblemDetailsHandler` and the front end are not modelled.
- Concurrency is not modelled: every operation runs alone against the tables.
