# Hexagonal user service — a Dafny model

This project models a small hexagonal web service with two endpoints on one
entity. `GET /users/{id}` fetches a user. `PUT /users/{id}` overwrites the
user's first name, last name and email. The layers are modelled as the source
has them:

- **Domain** (`domain.dfy`): the `User` record. Its id is optional, because a
  user that has not been persisted has none.
- **Storage** (`storage.dfy`): the `users` table behind the reactive CRUD
  repository. It is a class holding a map from primary key to `UserEntity`
  row. Its `Save` is an upsert by key. A row saved without an id gets a key
  from a counter that stands for the identity column. The table invariant
  says that every row carries its own key as its id.
- **Persistence** (`persistence.dfy`): the outbound adapter that implements
  the repository port. `ToDomain` and `ToEntity` are field-for-field copies.
  `FindById` and `Save` are those copies composed with the table. The port's
  abstract state, `Users()`, is the table seen through `ToDomain`.
- **Service** (`service.dfy`): the use case. `GetUserById` returns the port's
  answer. `UpdateUser` looks the id up first. An unknown id gives an empty
  result and writes nothing. A known id has its record overwritten and saved
  back under the same key. The pure function `Updated` states this rule on
  the port's abstract state, and the method is proved against it.
- **Rest** (`rest.dfy`): the inbound adapter. A present result becomes 200
  with a body carrying all four fields. An empty result becomes 404 with no
  body. The PUT body becomes a `User` with no id, and the id comes from the
  path.
- **Session** (`session.dfy`): requests served one after another against one
  store. Over any sequence of requests, no user is created, the last PUT with
  a body wins, and a GET after a PUT sees the PUT. A client method wires the
  layers together on the seeded row `{1, John, Doe}` and replays the
  integration test's scenario, plus a GET and a PUT to the unknown id 999;
  it is a worked example only and carries no contract of its own.

A reactive `Mono` becomes `Wrappers.Option`, read synchronously. The PUT
handler receives its body as a `Mono`, so the body is an `Option` too. As the
controller is written, an empty body skips the mapping and the update and
ends in the `switchIfEmpty` branch, which answers 404. How the framework decodes
the body is not modelled; the model follows the controller.

## Model

| member | source | states |
|---|---|---|
| Storage.UserTable.FindById | src/main/java/com/example/hexagonal/infrastructure/adapters/output/persistence/repository/R2dbcUserRepository.java:12 | lookup by primary key: present exactly when a row is stored under the key, and then that row, whose id is the key |
| Storage.UserTable.Save | src/main/java/com/example/hexagonal/infrastructure/adapters/output/persistence/repository/R2dbcUserRepository.java:12 | upsert: a row with an id is stored and returned as given; a row without one gets a fresh key not in the table; only that key's row changes; the key invariant is kept |
| Persistence.ToDomain | src/main/java/com/example/hexagonal/infrastructure/adapters/output/persistence/UserPersistenceAdapter.java:35-42 | the user's id is the row's id, copied verbatim |
| Persistence.ToEntity | src/main/java/com/example/hexagonal/infrastructure/adapters/output/persistence/UserPersistenceAdapter.java:44-51 | the row's id is the user's id, an unset id included; `ToDomain(ToEntity(u)) == u` for every user |
| Persistence.EntityRoundTrip | src/main/java/com/example/hexagonal/infrastructure/adapters/output/persistence/UserPersistenceAdapter.java:35-51 | `ToEntity(ToDomain(e)) == e` for every row |
| Persistence.View | src/main/java/com/example/hexagonal/infrastructure/adapters/output/persistence/UserPersistenceAdapter.java:18-26 | the port's view has exactly the table's keys, and each user maps back to the row under its key |
| Persistence.ViewUpsert | src/main/java/com/example/hexagonal/infrastructure/adapters/output/persistence/UserPersistenceAdapter.java:29-33 | writing one row changes the port's view under that key only, to the row seen as a user |
| Persistence.UserPersistenceAdapter.FindById | src/main/java/com/example/hexagonal/infrastructure/adapters/output/persistence/UserPersistenceAdapter.java:23-26 | empty exactly when the table has no row for the id; otherwise a user that maps back to that row and whose id is the key |
| Persistence.UserPersistenceAdapter.Save | src/main/java/com/example/hexagonal/infrastructure/adapters/output/persistence/UserPersistenceAdapter.java:29-33 | stores `ToEntity` of the saved user under its key and returns it; the result equals the argument when that has an id; an id-less user gets a fresh key; the port state changes at that key only |
| Service.Lookup | src/main/java/com/example/hexagonal/domain/ports/UserRepositoryPort.java:13-19 | the port's find on its abstract state: present exactly when the id is known, and then the stored user |
| Service.Overwrite | src/main/java/com/example/hexagonal/application/services/UserService.java:61-63 | the merged record keeps the existing id and takes all three profile fields from the patch |
| Service.Updated | src/main/java/com/example/hexagonal/application/services/UserService.java:58-65 | the update rule: no key is created; a result exactly when the id is known; an unknown id leaves the state unchanged; a known id gives a result with the stored id and the patch's fields, stored under that id; every other key is unchanged |
| Service.UpdatedIdempotent | src/main/java/com/example/hexagonal/application/services/UserService.java:61-64 | two identical updates give the same result and the same state as one |
| Service.UpdatedThenLookup | src/test/java/com/example/hexagonal/IntegrationTest.java:50-68 | after a successful update, the lookup returns the updated user, with the stored id and the patch's fields |
| Service.UserService.GetUserById | src/main/java/com/example/hexagonal/application/services/UserService.java:37-41 | the port's lookup result for the id, unchanged |
| Service.UserService.UpdateUser | src/main/java/com/example/hexagonal/application/services/UserService.java:58-68 | result and new port state are as `Updated` says; a later `GetUserById` returns the result; an unknown id leaves the table's rows untouched, so save is never reached |
| Rest.ToResponse | src/main/java/com/example/hexagonal/infrastructure/adapters/input/rest/UserRestController.java:69-76 | the response carries the user's id and its three profile fields |
| Rest.ToResponseInjective | src/main/java/com/example/hexagonal/infrastructure/adapters/input/rest/UserRestController.java:69-76 | no field is lost: equal responses come from equal users |
| Rest.ToDomain | src/main/java/com/example/hexagonal/infrastructure/adapters/input/rest/UserRestController.java:78-84 | the request becomes a user with no id and the three request fields unchanged |
| Rest.Respond | src/main/java/com/example/hexagonal/infrastructure/adapters/input/rest/UserRestController.java:40-43 | status 200 exactly for a present result, with the result's response body; 404 with no body for an empty result |
| Rest.GetOutcome | src/main/java/com/example/hexagonal/infrastructure/adapters/input/rest/UserRestController.java:39-44 | GET answers 200 with all four stored fields exactly when the id is known, and 404 with no body otherwise |
| Rest.PutOutcome | src/main/java/com/example/hexagonal/infrastructure/adapters/input/rest/UserRestController.java:58-65 | PUT answers 200 exactly when a body is present and the id is known, with the stored id and the body's three fields; otherwise 404 with no body and the state unchanged; with a body, the new state is the use case's update with the path id |
| Rest.UserRestController.GetUserById | src/main/java/com/example/hexagonal/infrastructure/adapters/input/rest/UserRestController.java:39-44 | the GET handler's response is `GetOutcome` of the port's state |
| Rest.UserRestController.UpdateUser | src/main/java/com/example/hexagonal/infrastructure/adapters/input/rest/UserRestController.java:58-65 | the PUT handler's response and the new port state are `PutOutcome` of the old state, the path id and the body |
| Session.Step | src/main/java/com/example/hexagonal/infrastructure/adapters/input/rest/UserRestController.java:39-65 | one request routed to its handler never creates a key, and a GET changes nothing |
| Session.Serve | src/main/java/com/example/hexagonal/infrastructure/adapters/input/rest/UserRestController.java:39-65 | serving a sequence of requests gives one response per request and never creates a user, by the lookup-first rule at src/main/java/com/example/hexagonal/application/services/UserService.java:59-60 |
| Session.LastWriterWins | src/main/java/com/example/hexagonal/application/services/UserService.java:59-64 | after any requests, a known user keeps its id; its record is the original when no PUT with a body reached it, else the original overwritten by the last such PUT |
| Session.ReadAfterWrite | src/test/java/com/example/hexagonal/IntegrationTest.java:50-68 | after any requests, a PUT with a body to a known id then a GET answers 200 with the stored id and the PUT's three fields |
| Session.UnknownStaysNotFound | src/main/java/com/example/hexagonal/infrastructure/adapters/input/rest/UserRestController.java:64 | after any requests, a GET for an id unknown at the start answers 404 with no body |

## Left out

- Reactive asynchrony. `Mono`, `flatMap`, `switchIfEmpty` and `doOnSubscribe` become synchronous options and plain sequencing.
- The logging in `UserService` (`doOnNext`, `doOnSuccess`, `doOnSubscribe`). It has no effect on results.
- Spring and Lombok annotations, dependency injection and the `ServerWebExchange` parameter. The layers are wired by constructors instead.
- The port and use-case interfaces. They are not separate types: the service holds the persistence adapter, and the controller holds the service.
- Storage.UserTable.Save: the store is modelled as an upsert. Spring Data R2DBC issues an UPDATE for an entity with a non-null id, and that fails when no row exists. The service only saves ids it has just found, so this does not change its behaviour.
- The identity column. It is modelled as a counter that stays above every key ever written. The real column's start value and step are part of the schema, which is not part of this model.
- Storage failures such as connection or constraint errors. They propagate unchanged in the source, and the model has no failing store.
- The 64-bit width of Java `Long`. Ids are unbounded integers.
- Null values. A null id passed to `findById` would throw in the repository; the handlers always pass a path id. A null profile string is not modelled either; the three fields are plain strings.
- Whether an empty PUT body ever reaches the handler. `Put(id, None)` is the handler's behaviour on a body `Mono` that completes empty; the framework may reject a missing body before the handler runs.
- HTTP and JSON decoding, the generated `UsersApi` interface, request validation, and any DTO members beyond the four fields.
- The race between concurrent read-then-write updates to the same id. Requests are served one at a time.
- The schema and seed data. The seeded row `{1, "John", "Doe", "john@example.com"}` appears only in `Session.IntegrationScenario`.
