/** The user use case: get a user by id, and overwrite the profile fields of
    an existing user. It reaches storage only through the repository port. */
module Service {
  import opened Wrappers
  import opened Domain
  import opened Persistence

  /** The port's lookup on its abstract state. */
  function Lookup(users: map<int, User>, id: int): (r: Option<User>)
    ensures r.Some? <==> id in users
    ensures r.Some? ==> r.value == users[id]
  {
    if id in users then Some(users[id]) else None
  }

  /** The update rule on one record: the stored id is kept, whatever id the
      patch carries, and all three profile fields come from the patch. */
  function Overwrite(existing: User, patch: User): (merged: User)
    ensures merged.id == existing.id
    ensures SameProfile(merged, patch)
  {
    existing.(firstName := patch.firstName, lastName := patch.lastName, email := patch.email)
  }

  /** `updateUser` on the port's abstract state: the updated user (or empty)
      and the new state. An unknown id yields empty and writes nothing; a
      known id has its record overwritten and written back under the same
      key, and no other key changes. No key is ever created. */
  function Updated(users: map<int, User>, id: int, patch: User): (r: (Option<User>, map<int, User>))
    ensures r.1.Keys == users.Keys
    ensures r.0.Some? <==> id in users
    ensures id !in users ==> r.1 == users
    ensures id in users ==> r.0.value.id == users[id].id && SameProfile(r.0.value, patch)
    ensures id in users ==> r.1[id] == r.0.value
    ensures forall k :: k in users && k != id ==> r.1[k] == users[k]
  {
    match Lookup(users, id)
    case None => (None, users)
    case Some(existing) =>
      var merged := Overwrite(existing, patch);
      (Some(merged), users[id := merged])
  }

  /** Applying the same update twice gives the same result and the same
      state as applying it once: the overwrite is unconditional. */
  lemma UpdatedIdempotent(users: map<int, User>, id: int, patch: User)
    ensures Updated(Updated(users, id, patch).1, id, patch) == Updated(users, id, patch)
  {
    if id in users {
      var merged := Overwrite(users[id], patch);
      assert users[id := merged][id := merged] == users[id := merged];
    }
  }

  /** Write then read: after a successful update the lookup finds the
      updated user, with the stored id and the patch's profile fields. */
  lemma UpdatedThenLookup(users: map<int, User>, id: int, patch: User)
    requires id in users
    ensures Lookup(Updated(users, id, patch).1, id) == Updated(users, id, patch).0
    ensures Lookup(Updated(users, id, patch).1, id).value.id == users[id].id
    ensures SameProfile(Lookup(Updated(users, id, patch).1, id).value, patch)
  {
  }

  class UserService {
    const userRepositoryPort: UserPersistenceAdapter

    constructor (userRepositoryPort: UserPersistenceAdapter)
      ensures this.userRepositoryPort == userRepositoryPort
    {
      this.userRepositoryPort := userRepositoryPort;
    }

    ghost predicate Valid()
      reads userRepositoryPort.repository
    {
      userRepositoryPort.Valid()
    }

    ghost function Users(): map<int, User>
      reads userRepositoryPort.repository
    {
      userRepositoryPort.Users()
    }

    /** Exactly the port's answer: the stored user, or empty. */
    function GetUserById(id: int): (r: Option<User>)
      reads userRepositoryPort.repository
      requires Valid()
      ensures r == Lookup(Users(), id)
    {
      userRepositoryPort.FindById(id)
    }

    /** Looks the id up first; only a user that is found is overwritten and
        saved, so the outcome and the new port state are those of `Updated`. */
    method UpdateUser(id: int, user: User) returns (result: Option<User>)
      requires Valid()
      modifies userRepositoryPort.repository
      ensures Valid()
      ensures (result, Users()) == Updated(old(Users()), id, user)
      ensures result.Some? ==> GetUserById(id) == result
      ensures result.None? ==> userRepositoryPort.repository.rows == old(userRepositoryPort.repository.rows)
    {
      var found := userRepositoryPort.FindById(id);
      match found {
        case None =>
          result := None;
        case Some(existingUser) =>
          existingUser := existingUser.(firstName := user.firstName);
          existingUser := existingUser.(lastName := user.lastName);
          existingUser := existingUser.(email := user.email);
          var saved := userRepositoryPort.Save(existingUser);
          result := Some(saved);
      }
    }
  }

}
