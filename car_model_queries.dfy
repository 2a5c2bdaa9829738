/** The car-model repository's own queries: the brand-and-model existence
    test used for duplicate detection, and the filtered list query whose
    five optional parameters each either impose equality or nothing. */
module CarModelQueries {
  import opened Wrappers
  import opened Domain
  import opened Paging

  /** `existsByBrandAndModel(brand, model)`. */
  predicate ExistsByBrandAndModel(rows: map<int, CarModel>, brand: string, model: string) {
    exists k | k in rows :: rows[k].brand == brand && rows[k].model == model
  }

  /** Storing a car model under a new key makes its brand and model exist
      and leaves every other pair as it was. */
  lemma ExistsAfterInsert(rows: map<int, CarModel>, id: int, c: CarModel, brand: string, model: string)
    requires id !in rows
    ensures ExistsByBrandAndModel(rows[id := c], brand, model) <==>
              ExistsByBrandAndModel(rows, brand, model) || (c.brand == brand && c.model == model)
  {
    var rows' := rows[id := c];
    if ExistsByBrandAndModel(rows', brand, model) && !(c.brand == brand && c.model == model) {
      var k :| k in rows' && rows'[k].brand == brand && rows'[k].model == model;
      assert k != id && k in rows;
    }
    if c.brand == brand && c.model == model {
      assert rows'[id].brand == brand && rows'[id].model == model;
    }
    if ExistsByBrandAndModel(rows, brand, model) {
      var k :| k in rows && rows[k].brand == brand && rows[k].model == model;
      assert rows'[k].brand == brand && rows'[k].model == model;
    }
  }

  /** No two stored car models share both brand and model. */
  ghost predicate BrandModelUnique(rows: map<int, CarModel>) {
    forall a, b ::
      a in rows && b in rows && rows[a].brand == rows[b].brand && rows[a].model == rows[b].model
      ==> a == b
  }

  /** The existence test looks at brand and model only: a stored model with
      the same pair is found whatever its year and other columns. */
  lemma ExistsIgnoresOtherColumns(rows: map<int, CarModel>, k: int, brand: string, model: string)
    requires k in rows && rows[k].brand == brand && rows[k].model == model
    ensures ExistsByBrandAndModel(rows, brand, model)
  {
  }

  /** One `(:param IS NULL OR c.column = :param)` clause. */
  predicate Clause<T(==)>(param: Option<T>, column: T) {
    param.None? || column == param.value
  }

  /** The WHERE clause: the conjunction of the five optional equality clauses. */
  predicate Matches(c: CarModel, brand: Option<string>, segment: Option<string>,
                    engineType: Option<string>, transmissionType: Option<string>,
                    modelYear: Option<int>) {
    && Clause(brand, c.brand)
    && Clause(segment, c.segment)
    && Clause(engineType, c.engineType)
    && Clause(transmissionType, c.transmissionType)
    && Clause(modelYear, c.modelYear)
  }

  function Criteria(brand: Option<string>, segment: Option<string>, engineType: Option<string>,
                    transmissionType: Option<string>, modelYear: Option<int>): CarModel -> bool {
    c => Matches(c, brand, segment, engineType, transmissionType, modelYear)
  }

  /** `findFiltered(brand, segment, engineType, transmissionType, modelYear, pageable)`. */
  function FindFiltered(rows: seq<CarModel>, brand: Option<string>, segment: Option<string>,
                        engineType: Option<string>, transmissionType: Option<string>,
                        modelYear: Option<int>, pageable: Pageable): (page: Page<CarModel>)
    ensures forall c :: c in page.content ==>
              && c in rows
              && (brand.Some? ==> c.brand == brand.value)
              && (segment.Some? ==> c.segment == segment.value)
              && (engineType.Some? ==> c.engineType == engineType.value)
              && (transmissionType.Some? ==> c.transmissionType == transmissionType.value)
              && (modelYear.Some? ==> c.modelYear == modelYear.value)
    ensures |page.content| <= pageable.pageSize && |page.content| <= page.total
    ensures page.total == |Filter(rows, Criteria(brand, segment, engineType, transmissionType, modelYear))|
    ensures |page.content| > 0 ==> pageable.offset + |page.content| <= page.total
    ensures forall i :: 0 <= i < |page.content| ==>
              page.content[i] == Filter(rows, Criteria(brand, segment, engineType, transmissionType, modelYear))[pageable.offset + i]
    ensures page.content == Window(Filter(rows, Criteria(brand, segment, engineType, transmissionType, modelYear)),
                                   pageable.offset, pageable.pageSize)
  {
    var p := Criteria(brand, segment, engineType, transmissionType, modelYear);
    var matching := Filter(rows, p);
    CountIsFilterLength(rows, p);
    WindowWithin(matching, pageable.offset, pageable.pageSize);
    Page(Window(matching, pageable.offset, pageable.pageSize), Count(rows, p))
  }

  /** With every parameter null no row is excluded. */
  lemma NullFiltersSelectAll(rows: seq<CarModel>)
    ensures Filter(rows, Criteria(None, None, None, None, None)) == rows
  {
    FilterAcceptAll(rows, Criteria(None, None, None, None, None));
  }

  /** A model is returned exactly when each given parameter equals its column. */
  lemma SelectedIffAllClauses(rows: seq<CarModel>, c: CarModel, brand: Option<string>,
                              segment: Option<string>, engineType: Option<string>,
                              transmissionType: Option<string>, modelYear: Option<int>)
    requires c in rows
    ensures c in Filter(rows, Criteria(brand, segment, engineType, transmissionType, modelYear)) <==>
              && (brand.Some? ==> c.brand == brand.value)
              && (segment.Some? ==> c.segment == segment.value)
              && (engineType.Some? ==> c.engineType == engineType.value)
              && (transmissionType.Some? ==> c.transmissionType == transmissionType.value)
              && (modelYear.Some? ==> c.modelYear == modelYear.value)
  {
  }

  /** Neither the model name nor the daily price takes part in the filter:
      two car models that agree on the five filtered columns are selected alike. */
  lemma NoModelNameOrPriceClause(c: CarModel, d: CarModel, brand: Option<string>,
                                 segment: Option<string>, engineType: Option<string>,
                                 transmissionType: Option<string>, modelYear: Option<int>)
    requires c.brand == d.brand && c.segment == d.segment && c.engineType == d.engineType
    requires c.transmissionType == d.transmissionType && c.modelYear == d.modelYear
    ensures Matches(c, brand, segment, engineType, transmissionType, modelYear)
        == Matches(d, brand, segment, engineType, transmissionType, modelYear)
  {
  }
}
