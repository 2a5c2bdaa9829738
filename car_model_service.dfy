/** The car-model service: duplicate-checked create, full-replace update,
    delete and lookup over the car-model table, and the two field-for-field
    mappings between request, entity and response. */
module CarModelService {
  import opened Wrappers
  import opened Domain
  import opened Store
  import opened Paging
  import opened CarModelQueries

  /** `toEntity()`: every descriptive field of the request; the identity is
      left at 0 for the database to assign, and `safetyRating` is dropped. */
  function ToEntity(r: CarModelRequest): (c: CarModel)
    ensures c.id == 0
    ensures DescribesRequest(CarModelViewOf(c), r)
  {
    CarModel(0, r.brand, r.model, r.modelYear, r.segment, r.doors, r.seatingCapacity,
      r.luggageCapacity, r.category, r.engineType, r.transmissionType, r.drivetrain,
      r.motorDisplacement, r.airConditioning, r.infotainmentOptions, r.safetyFeatures,
      r.rentalPricePerDay)
  }

  /** The sixteen descriptive fields of a response equal the request's. */
  predicate DescribesRequest(v: CarModelView, r: CarModelRequest) {
    && v.brand == r.brand && v.model == r.model && v.modelYear == r.modelYear
    && v.segment == r.segment && v.doors == r.doors && v.seatingCapacity == r.seatingCapacity
    && v.luggageCapacity == r.luggageCapacity && v.category == r.category
    && v.engineType == r.engineType && v.transmissionType == r.transmissionType
    && v.drivetrain == r.drivetrain && v.motorDisplacement == r.motorDisplacement
    && v.airConditioning == r.airConditioning && v.infotainmentOptions == r.infotainmentOptions
    && v.safetyFeatures == r.safetyFeatures && v.rentalPricePerDay == r.rentalPricePerDay
  }

  /** Mapping a request to an entity and the entity to a response reproduces
      every field of the request except `safetyRating`, whatever id it gets. */
  lemma ResponseOfEntityDescribesRequest(r: CarModelRequest, id: int)
    ensures DescribesRequest(CarModelViewOf(ToEntity(r).(id := id)), r)
    ensures CarModelViewOf(ToEntity(r).(id := id)).id == id
  {
  }

  /** Two requests that differ only in `safetyRating` store the same entity. */
  lemma SafetyRatingDropped(r: CarModelRequest, rating: int)
    ensures ToEntity(r.(safetyRating := rating)) == ToEntity(r)
  {
  }

  /** `findById(id)`. */
  function FindById(rows: map<int, CarModel>, id: int): (r: Result<CarModelView, ServiceError>)
    ensures r.Success? <==> id in rows
    ensures r.Failure? ==> r.error == CarModelNotFound(id)
    ensures r.Success? ==> r.value == CarModelViewOf(rows[id])
  {
    if id in rows then Success(CarModelViewOf(rows[id])) else Failure(CarModelNotFound(id))
  }

  /** `findAllFiltered(...)`: the repository's page, as views. */
  function FindAllFiltered(rows: seq<CarModel>, brand: Option<string>, segment: Option<string>,
                           engineType: Option<string>, transmissionType: Option<string>,
                           modelYear: Option<int>, pageable: Pageable): (r: Page<CarModelView>)
    ensures |r.content| <= pageable.pageSize && |r.content| <= r.total
    ensures forall i :: 0 <= i < |r.content| ==>
              && (brand.Some? ==> r.content[i].brand == brand.value)
              && (segment.Some? ==> r.content[i].segment == segment.value)
              && (engineType.Some? ==> r.content[i].engineType == engineType.value)
              && (transmissionType.Some? ==> r.content[i].transmissionType == transmissionType.value)
              && (modelYear.Some? ==> r.content[i].modelYear == modelYear.value)
    ensures r.total == |Filter(rows, Criteria(brand, segment, engineType, transmissionType, modelYear))|
    ensures var page := FindFiltered(rows, brand, segment, engineType, transmissionType, modelYear, pageable);
            |r.content| == |page.content| && forall i :: 0 <= i < |r.content| ==> r.content[i] == CarModelViewOf(page.content[i])
  {
    var page := FindFiltered(rows, brand, segment, engineType, transmissionType, modelYear, pageable);
    forall i | 0 <= i < |page.content| ensures page.content[i] in page.content {
    }
    MapPage(page, CarModelViewOf)
  }


  /** `create(request)`: a stored model with the same brand and model is a
      duplicate whatever its year; otherwise the mapped entity is inserted. */
  method Create(carModels: CarModelTable, request: CarModelRequest) returns (r: Result<CarModelView, ServiceError>)
    requires carModels.Valid()
    modifies carModels
    ensures carModels.Valid()
    ensures ExistsByBrandAndModel(old(carModels.rows), request.brand, request.model) ==>
              && r == Failure(DuplicateCarModel(request.brand, request.model, request.modelYear))
              && carModels.rows == old(carModels.rows) && carModels.writes == old(carModels.writes)
    ensures !ExistsByBrandAndModel(old(carModels.rows), request.brand, request.model) ==>
              var saved := ToEntity(request).(id := old(carModels.nextId));
              && saved.id !in old(carModels.rows)
              && carModels.rows == old(carModels.rows)[saved.id := saved]
              && r == Success(CarModelViewOf(saved))
              && carModels.writes == old(carModels.writes) + 1
    ensures BrandModelUnique(old(carModels.rows)) ==> BrandModelUnique(carModels.rows)
  {
    if ExistsByBrandAndModel(carModels.rows, request.brand, request.model) {
      return Failure(DuplicateCarModel(request.brand, request.model, request.modelYear));
    }
    var saved := carModels.Insert(ToEntity(request));
    r := Success(CarModelViewOf(saved));
  }

  /** `update(id, request)`: every descriptive field replaced, the id kept,
      no duplicate check. */
  method Update(carModels: CarModelTable, id: int, request: CarModelRequest) returns (r: Result<CarModelView, ServiceError>)
    requires carModels.Valid()
    modifies carModels
    ensures carModels.Valid()
    ensures id !in old(carModels.rows) ==>
              && r == Failure(CarModelNotFound(id))
              && carModels.rows == old(carModels.rows) && carModels.writes == old(carModels.writes)
    ensures id in old(carModels.rows) ==>
              var updated := ToEntity(request).(id := id);
              && carModels.rows == old(carModels.rows)[id := updated]
              && r == Success(CarModelViewOf(updated))
              && carModels.writes == old(carModels.writes) + 1
  {
    if id !in carModels.rows {
      return Failure(CarModelNotFound(id));
    }
    var existing := carModels.rows[id];
    var updated := ToEntity(request).(id := existing.id);
    carModels.Save(updated);
    r := Success(CarModelViewOf(updated));
  }

  /** `delete(id)`: a missing id fails; otherwise only that row goes. */
  method Delete(carModels: CarModelTable, id: int) returns (r: Result<(), ServiceError>)
    requires carModels.Valid()
    modifies carModels
    ensures carModels.Valid()
    ensures id !in old(carModels.rows) ==>
              r == Failure(CarModelNotFound(id)) && carModels.rows == old(carModels.rows)
                && carModels.writes == old(carModels.writes)
    ensures id in old(carModels.rows) ==>
              r == Success(()) && carModels.rows == old(carModels.rows) - {id}
                && carModels.writes == old(carModels.writes) + 1
  {
    if id !in carModels.rows {
      return Failure(CarModelNotFound(id));
    }
    carModels.DeleteById(id);
    r := Success(());
  }
}
