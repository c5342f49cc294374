/** The outbound persistence adapter: implements the repository port by
    copying between the domain `User` and the storage `UserEntity` around a
    `UserTable`. */
module Persistence {
  import opened Wrappers
  import opened Domain
  import opened Storage

  /** Storage row to domain user, field for field. */
  function ToDomain(entity: UserEntity): (user: User)
    ensures user.id == entity.id
  {
    User(entity.id, entity.firstName, entity.lastName, entity.email)
  }

  /** Domain user to storage row, field for field; the id is copied
      verbatim, an unset id included. Nothing is lost: mapping back gives the
      same user. */
  function ToEntity(user: User): (entity: UserEntity)
    ensures entity.id == user.id
    ensures ToDomain(entity) == user
  {
    UserEntity(user.id, user.firstName, user.lastName, user.email)
  }

  /** The other round trip: a row survives a trip through the domain. */
  lemma EntityRoundTrip(entity: UserEntity)
    ensures ToEntity(ToDomain(entity)) == entity
  {
  }

  /** What the repository port sees of a table: each row as a domain user,
      under the same key. */
  ghost function View(rows: map<int, UserEntity>): (users: map<int, User>)
    ensures users.Keys == rows.Keys
    ensures forall k :: k in rows ==> ToEntity(users[k]) == rows[k]
  {
    map k | k in rows :: ToDomain(rows[k])
  }

  /** Writing one row changes the port's view at that key only. */
  lemma ViewUpsert(rows: map<int, UserEntity>, key: int, entity: UserEntity)
    ensures View(rows[key := entity]) == View(rows)[key := ToDomain(entity)]
  {
  }

  class UserPersistenceAdapter {
    const repository: UserTable

    constructor (repository: UserTable)
      ensures this.repository == repository
    {
      this.repository := repository;
    }

    ghost predicate Valid()
      reads repository
    {
      repository.Valid()
    }

    /** The port's abstract state: the users it can find, by id. */
    ghost function Users(): map<int, User>
      reads repository
    {
      View(repository.rows)
    }

    /** Empty exactly when the table has no row for `id`; otherwise the row
        mapped to the domain, which carries `id` as its id. */
    function FindById(id: int): (r: Option<User>)
      reads repository
      requires Valid()
      ensures r.Some? <==> id in repository.rows
      ensures r.Some? ==> ToEntity(r.value) == repository.rows[id] && r.value.id == Some(id)
    {
      match repository.FindById(id)
      case None => None
      case Some(entity) => Some(ToDomain(entity))
    }

    /** Stores `ToEntity(user)` under its key (a generated one when the id is
        unset) and returns the stored row mapped back, which is `user` itself
        whenever `user` has an id. Only the row under that key changes. */
    method Save(user: User) returns (saved: User)
      requires Valid()
      modifies repository
      ensures Valid()
      ensures saved.id.Some? && saved == user.(id := saved.id)
      ensures user.id.Some? ==> saved == user
      ensures user.id.None? ==> saved.id.value !in old(repository.rows)
      ensures repository.rows == old(repository.rows)[saved.id.value := ToEntity(saved)]
      ensures Users() == old(Users())[saved.id.value := saved]
    {
      var entity := ToEntity(user);
      var row := repository.Save(entity);
      saved := ToDomain(row);
      ViewUpsert(old(repository.rows), saved.id.value, row);
    }
  }

}
