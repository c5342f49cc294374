/** The `users` table behind the reactive CRUD repository: a keyed store
    whose save is an upsert by primary key. */
module Storage {
  import opened Wrappers

  /** A row of the `users` table; `id` is the primary key, unset for a row
      that has not been inserted yet. */
  datatype UserEntity = UserEntity(id: Option<int>, firstName: string, lastName: string, email: string)

  class UserTable {
    var rows: map<int, UserEntity>
    /** The next value of the identity column, used when a row without an id is saved. */
    var nextId: int

    /** Every stored row carries its own key as id, and every key lies below
        the identity counter, so a generated key never hits an existing row. */
    ghost predicate Valid()
      reads this
    {
      forall k :: k in rows ==> rows[k].id == Some(k) && k < nextId
    }

    constructor ()
      ensures Valid()
      ensures rows == map[] && nextId == 1
    {
      rows := map[];
      nextId := 1;
    }

    /** Lookup by primary key: the stored row, or empty. */
    function FindById(id: int): (r: Option<UserEntity>)
      reads this
      requires Valid()
      ensures r.Some? <==> id in rows
      ensures r.Some? ==> r.value == rows[id] && r.value.id == Some(id)
    {
      if id in rows then Some(rows[id]) else None
    }

    /** Upsert by primary key. A row with an id replaces whatever is stored
        under that id (or is inserted); a row without one is inserted under a
        freshly generated key. The persisted row is returned. */
    method Save(entity: UserEntity) returns (saved: UserEntity)
      requires Valid()
      modifies this
      ensures Valid()
      ensures saved.id.Some? && saved == entity.(id := saved.id)
      ensures entity.id.Some? ==> saved == entity
      ensures entity.id.None? ==> saved.id == Some(old(nextId)) && old(nextId) !in old(rows)
      ensures rows == old(rows)[saved.id.value := saved]
    {
      var key: int;
      if entity.id.Some? {
        key := entity.id.value;
        saved := entity;
      } else {
        key := nextId;
        saved := entity.(id := Some(key));
      }
      rows := rows[key := saved];
      if nextId <= key {
        nextId := key + 1;
      }
    }
  }

}
