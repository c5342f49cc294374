/** Requests served one after another against one store, as a sequential
    client sees the two endpoints. */
module Session {
  import opened Wrappers
  import opened Domain
  import opened Storage
  import Persistence
  import opened Service
  import opened Rest

  datatype Request = Get(id: int) | Put(id: int, body: Option<UserUpdateRequest>)

  /** One request routed to its handler: the response and the new state. */
  function Step(users: map<int, User>, request: Request): (r: (ResponseEntity, map<int, User>))
    ensures r.1.Keys == users.Keys
    ensures request.Get? ==> r.1 == users
  {
    match request
    case Get(id) => (GetOutcome(users, id), users)
    case Put(id, body) => PutOutcome(users, id, body)
  }

  /** The final state and the responses, in order, of serving `requests`
      one after another. No sequence of requests creates a user. */
  function Serve(users: map<int, User>, requests: seq<Request>): (r: (map<int, User>, seq<ResponseEntity>))
    ensures |r.1| == |requests|
    ensures r.0.Keys == users.Keys
    decreases |requests|
  {
    if requests == [] then (users, [])
    else
      var before := Serve(users, requests[..|requests| - 1]);
      var step := Step(before.0, requests[|requests| - 1]);
      (step.1, before.1 + [step.0])
  }

  /** The body of the last PUT to `id` that carried one, if any. */
  function LastPatch(requests: seq<Request>, id: int): Option<UserUpdateRequest>
    decreases |requests|
  {
    if requests == [] then None
    else
      var last := requests[|requests| - 1];
      if last.Put? && last.id == id && last.body.Some? then last.body
      else LastPatch(requests[..|requests| - 1], id)
  }

  /** Last writer wins: after any sequence of requests, a known user keeps
      its id, and its profile is that of the last PUT to it with a body, or
      the original profile when there was none. */
  lemma {:induction false} LastWriterWins(users: map<int, User>, requests: seq<Request>, id: int)
    requires id in users
    ensures Serve(users, requests).0[id].id == users[id].id
    ensures LastPatch(requests, id).None? ==> Serve(users, requests).0[id] == users[id]
    ensures LastPatch(requests, id).Some? ==>
              Serve(users, requests).0[id] == Overwrite(users[id], ToDomain(LastPatch(requests, id).value))
    decreases |requests|
  {
    if requests != [] {
      var prefix := requests[..|requests| - 1];
      LastWriterWins(users, prefix, id);
    }
  }

  /** Write then read across requests: a GET after a PUT with a body to a
      known id answers 200 with the stored id and the PUT's three fields. */
  lemma ReadAfterWrite(users: map<int, User>, requests: seq<Request>, id: int, body: UserUpdateRequest)
    requires id in users
    ensures Serve(users, requests + [Put(id, Some(body)), Get(id)]).1[|requests| + 1]
            == ResponseEntity(OK, Some(UserResponse(users[id].id, body.firstName, body.lastName, body.email)))
  {
    var written := requests + [Put(id, Some(body))];
    var all := written + [Get(id)];
    assert all == requests + [Put(id, Some(body)), Get(id)];
    assert all[..|all| - 1] == written;
    assert written[..|written| - 1] == requests;
    LastWriterWins(users, written, id);
  }

  /** An unknown id stays unknown: after any requests, a GET for it is 404. */
  lemma UnknownStaysNotFound(users: map<int, User>, requests: seq<Request>, id: int)
    requires id !in users
    ensures Serve(users, requests + [Get(id)]).1[|requests|] == ResponseEntity(NOT_FOUND, None)
  {
  }

  /** The wired system on the seeded row `{1, John, Doe}`: GET finds it, a
      PUT overwrites the profile and keeps id 1, a second GET sees the PUT,
      and a PUT to an unknown id answers 404 without creating a row. */
  method IntegrationScenario()
  {
    var table := new UserTable();
    var seeded := table.Save(UserEntity(Some(1), "John", "Doe", "john@example.com"));
    var adapter := new Persistence.UserPersistenceAdapter(table);
    var service := new UserService(adapter);
    var controller := new UserRestController(service);

    var first := controller.GetUserById(1);
    assert first.status == OK && first.body.value.id == Some(1) && first.body.value.firstName == "John";

    var request := UserUpdateRequest("JohnUpdated", "DoeUpdated", "john.updated@example.com");
    var updated := controller.UpdateUser(1, Some(request));
    assert updated.status == OK && updated.body.value.id == Some(1);
    assert updated.body.value.firstName == "JohnUpdated";

    var second := controller.GetUserById(1);
    assert second.status == OK && second.body.value.firstName == "JohnUpdated";

    var missing := controller.GetUserById(999);
    assert missing == ResponseEntity(NOT_FOUND, None);
    var notUpdated := controller.UpdateUser(999, Some(request));
    assert notUpdated.status == NOT_FOUND && 999 !in table.rows;
  }

}
