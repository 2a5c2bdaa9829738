/** The persistence store: one table per entity, each a map from id to row.
    The services read `rows` directly for `findById`, `existsById` and the
    `existsBy...` queries, and change a table only through its methods. */
module Store {
  import opened Domain

  /** The vehicle table: rows keyed by id; `nextId` is the identity column's
      next value and `writes` counts the `save` and `deleteById` calls made. */
  class VehicleTable {
    var rows: map<int, Vehicle>
    var nextId: int
    ghost var writes: nat

    ghost predicate Valid()
      reads this
    {
      0 < nextId && forall k :: k in rows ==> 0 < k < nextId && rows[k].id == k
    }

    constructor ()
      ensures Valid() && rows == map[] && writes == 0
    {
      rows := map[];
      nextId := 1;
      writes := 0;
    }

    /** `save` of a new entity: the row gets the next generated id. */
    method Insert(e: Vehicle) returns (saved: Vehicle)
      requires Valid()
      modifies this
      ensures Valid()
      ensures saved == e.(id := old(nextId)) && saved.id !in old(rows)
      ensures rows == old(rows)[saved.id := saved]
      ensures writes == old(writes) + 1
    {
      saved := e.(id := nextId);
      rows := rows[nextId := saved];
      nextId := nextId + 1;
      writes := writes + 1;
    }

    /** `save` of an entity that is already stored: its row is replaced. */
    method Save(e: Vehicle)
      requires Valid() && e.id in rows
      modifies this
      ensures Valid() && nextId == old(nextId)
      ensures rows == old(rows)[e.id := e]
      ensures writes == old(writes) + 1
    {
      rows := rows[e.id := e];
      writes := writes + 1;
    }

    /** `deleteById` of a stored id. */
    method DeleteById(id: int)
      requires Valid() && id in rows
      modifies this
      ensures Valid() && nextId == old(nextId)
      ensures rows == old(rows) - {id}
      ensures writes == old(writes) + 1
    {
      rows := rows - {id};
      writes := writes + 1;
    }
  }

  /** The car_model table: rows keyed by id; `nextId` is the identity column's
      next value and `writes` counts the `save` and `deleteById` calls made. */
  class CarModelTable {
    var rows: map<int, CarModel>
    var nextId: int
    ghost var writes: nat

    ghost predicate Valid()
      reads this
    {
      0 < nextId && forall k :: k in rows ==> 0 < k < nextId && rows[k].id == k
    }

    constructor ()
      ensures Valid() && rows == map[] && writes == 0
    {
      rows := map[];
      nextId := 1;
      writes := 0;
    }

    /** `save` of a new entity: the row gets the next generated id. */
    method Insert(e: CarModel) returns (saved: CarModel)
      requires Valid()
      modifies this
      ensures Valid()
      ensures saved == e.(id := old(nextId)) && saved.id !in old(rows)
      ensures rows == old(rows)[saved.id := saved]
      ensures writes == old(writes) + 1
    {
      saved := e.(id := nextId);
      rows := rows[nextId := saved];
      nextId := nextId + 1;
      writes := writes + 1;
    }

    /** `save` of an entity that is already stored: its row is replaced. */
    method Save(e: CarModel)
      requires Valid() && e.id in rows
      modifies this
      ensures Valid() && nextId == old(nextId)
      ensures rows == old(rows)[e.id := e]
      ensures writes == old(writes) + 1
    {
      rows := rows[e.id := e];
      writes := writes + 1;
    }

    /** `deleteById` of a stored id. */
    method DeleteById(id: int)
      requires Valid() && id in rows
      modifies this
      ensures Valid() && nextId == old(nextId)
      ensures rows == old(rows) - {id}
      ensures writes == old(writes) + 1
    {
      rows := rows - {id};
      writes := writes + 1;
    }
  }

  /** The maintenance_record table: rows keyed by id; `nextId` is the identity column's
      next value and `writes` counts the `save` and `deleteById` calls made. */
  class MaintenanceRecordTable {
    var rows: map<int, MaintenanceRecord>
    var nextId: int
    ghost var writes: nat

    ghost predicate Valid()
      reads this
    {
      0 < nextId && forall k :: k in rows ==> 0 < k < nextId && rows[k].id == k
    }

    constructor ()
      ensures Valid() && rows == map[] && writes == 0
    {
      rows := map[];
      nextId := 1;
      writes := 0;
    }

    /** `save` of a new entity: the row gets the next generated id. */
    method Insert(e: MaintenanceRecord) returns (saved: MaintenanceRecord)
      requires Valid()
      modifies this
      ensures Valid()
      ensures saved == e.(id := old(nextId)) && saved.id !in old(rows)
      ensures rows == old(rows)[saved.id := saved]
      ensures writes == old(writes) + 1
    {
      saved := e.(id := nextId);
      rows := rows[nextId := saved];
      nextId := nextId + 1;
      writes := writes + 1;
    }

    /** `save` of an entity that is already stored: its row is replaced. */
    method Save(e: MaintenanceRecord)
      requires Valid() && e.id in rows
      modifies this
      ensures Valid() && nextId == old(nextId)
      ensures rows == old(rows)[e.id := e]
      ensures writes == old(writes) + 1
    {
      rows := rows[e.id := e];
      writes := writes + 1;
    }

    /** `deleteById` of a stored id. */
    method DeleteById(id: int)
      requires Valid() && id in rows
      modifies this
      ensures Valid() && nextId == old(nextId)
      ensures rows == old(rows) - {id}
      ensures writes == old(writes) + 1
    {
      rows := rows - {id};
      writes := writes + 1;
    }
  }

  /** The vehicle_notes table: rows keyed by id; `nextId` is the identity column's
      next value and `writes` counts the `save` and `deleteById` calls made. */
  class VehicleNoteTable {
    var rows: map<int, VehicleNote>
    var nextId: int
    ghost var writes: nat

    ghost predicate Valid()
      reads this
    {
      0 < nextId && forall k :: k in rows ==> 0 < k < nextId && rows[k].id == k
    }

    constructor ()
      ensures Valid() && rows == map[] && writes == 0
    {
      rows := map[];
      nextId := 1;
      writes := 0;
    }

    /** `save` of a new entity: the row gets the next generated id. */
    method Insert(e: VehicleNote) returns (saved: VehicleNote)
      requires Valid()
      modifies this
      ensures Valid()
      ensures saved == e.(id := old(nextId)) && saved.id !in old(rows)
      ensures rows == old(rows)[saved.id := saved]
      ensures writes == old(writes) + 1
    {
      saved := e.(id := nextId);
      rows := rows[nextId := saved];
      nextId := nextId + 1;
      writes := writes + 1;
    }

    /** `save` of an entity that is already stored: its row is replaced. */
    method Save(e: VehicleNote)
      requires Valid() && e.id in rows
      modifies this
      ensures Valid() && nextId == old(nextId)
      ensures rows == old(rows)[e.id := e]
      ensures writes == old(writes) + 1
    {
      rows := rows[e.id := e];
      writes := writes + 1;
    }

    /** `deleteById` of a stored id. */
    method DeleteById(id: int)
      requires Valid() && id in rows
      modifies this
      ensures Valid() && nextId == old(nextId)
      ensures rows == old(rows) - {id}
      ensures writes == old(writes) + 1
    {
      rows := rows - {id};
      writes := writes + 1;
    }
  }
}
