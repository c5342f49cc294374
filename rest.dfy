/** The inbound REST adapter: `GET /users/{id}` and `PUT /users/{id}`,
    translating wire shapes to domain calls and results to status codes. */
module Rest {
  import opened Wrappers
  import opened Domain
  import opened Service

  /** Response body: all four fields of a user. */
  datatype UserResponse = UserResponse(id: Option<int>, firstName: string, lastName: string, email: string)

  /** PUT request body: the three mutable fields; the id comes from the path. */
  datatype UserUpdateRequest = UserUpdateRequest(firstName: string, lastName: string, email: string)

  /** An HTTP status with an optional body. */
  datatype ResponseEntity = ResponseEntity(status: int, body: Option<UserResponse>)

  const OK: int := 200
  const NOT_FOUND: int := 404

  /** Domain user to response body: every field copied, the id included. */
  function ToResponse(user: User): (response: UserResponse)
    ensures response.id == user.id
    ensures response.firstName == user.firstName && response.lastName == user.lastName
    ensures response.email == user.email
  {
    UserResponse(user.id, user.firstName, user.lastName, user.email)
  }

  /** The response loses nothing: distinct users give distinct bodies. */
  lemma ToResponseInjective(a: User, b: User)
    requires ToResponse(a) == ToResponse(b)
    ensures a == b
  {
  }

  /** Request body to a domain user with no id and the three fields unchanged. */
  function ToDomain(request: UserUpdateRequest): (user: User)
    ensures user.id == None
    ensures user.firstName == request.firstName && user.lastName == request.lastName
    ensures user.email == request.email
  {
    User(None, request.firstName, request.lastName, request.email)
  }

  /** The tail both handlers share: a user becomes 200 with its response
      body, an empty result becomes 404 with no body. */
  function Respond(result: Option<User>): (response: ResponseEntity)
    ensures response.status == OK <==> result.Some?
    ensures response.status == NOT_FOUND <==> result.None?
    ensures response.body.Some? <==> result.Some?
    ensures result.Some? ==> response.body.value == ToResponse(result.value)
  {
    match result
    case Some(user) => ResponseEntity(OK, Some(ToResponse(user)))
    case None => ResponseEntity(NOT_FOUND, None)
  }

  /** `GET /users/{id}` against the port's state: 200 with all four stored
      fields when the id is known, 404 with no body otherwise. */
  function GetOutcome(users: map<int, User>, id: int): (response: ResponseEntity)
    ensures response.status == OK <==> id in users
    ensures id in users ==> response.body == Some(ToResponse(users[id]))
    ensures id !in users ==> response == ResponseEntity(NOT_FOUND, None)
  {
    Respond(Lookup(users, id))
  }

  /** `PUT /users/{id}` against the port's state: the response and the new
      state. An empty body or an unknown id gives 404 and leaves the state
      alone; otherwise 200 with the stored id and the request's three fields,
      and the state is that of the use case's update with the path id. */
  function PutOutcome(users: map<int, User>, id: int, body: Option<UserUpdateRequest>): (r: (ResponseEntity, map<int, User>))
    ensures r.1.Keys == users.Keys
    ensures r.0.status == OK <==> body.Some? && id in users
    ensures r.0.status != OK ==> r == (ResponseEntity(NOT_FOUND, None), users)
    ensures body.Some? ==> r.1 == Updated(users, id, ToDomain(body.value)).1
    ensures r.0.status == OK ==> r.0.body.Some? && r.0.body.value.id == users[id].id
    ensures r.0.status == OK ==> r.0.body.value.firstName == body.value.firstName
    ensures r.0.status == OK ==> r.0.body.value.lastName == body.value.lastName
    ensures r.0.status == OK ==> r.0.body.value.email == body.value.email
  {
    match body
    case None => (Respond(None), users)
    case Some(request) =>
      var (result, users') := Updated(users, id, ToDomain(request));
      (Respond(result), users')
  }

  class UserRestController {
    const userUseCase: UserService

    constructor (userUseCase: UserService)
      ensures this.userUseCase == userUseCase
    {
      this.userUseCase := userUseCase;
    }

    ghost predicate Valid()
      reads userUseCase.userRepositoryPort.repository
    {
      userUseCase.Valid()
    }

    ghost function Users(): map<int, User>
      reads userUseCase.userRepositoryPort.repository
    {
      userUseCase.Users()
    }

    function GetUserById(id: int): (response: ResponseEntity)
      reads userUseCase.userRepositoryPort.repository
      requires Valid()
      ensures response == GetOutcome(Users(), id)
    {
      Respond(userUseCase.GetUserById(id))
    }

    /** The request body, when there is one, is mapped to the domain and the
        update runs with the path id; the result is mapped to the response. */
    method UpdateUser(id: int, userUpdateRequest: Option<UserUpdateRequest>) returns (response: ResponseEntity)
      requires Valid()
      modifies userUseCase.userRepositoryPort.repository
      ensures Valid()
      ensures (response, Users()) == PutOutcome(old(Users()), id, userUpdateRequest)
    {
      match userUpdateRequest {
        case None =>
          response := Respond(None);
        case Some(request) =>
          var user := ToDomain(request);
          var result := userUseCase.UpdateUser(id, user);
          response := Respond(result);
      }
    }
  }

}
