/**
  The three HTTP handlers in front of the player table, with the I/O taken
  out: each is a total function from an already-read request and the storage
  layer's answer to the response it writes.

  A request is the HTTP verb plus what the handler extracts from it: the
  decoded JSON body for registration, the `server` or `id` query value for the
  two lookups (an absent query value reads as the empty string).
 */
module Handler {
  import opened Results
  import opened Pvp

  const MethodGet := "GET"
  const MethodPost := "POST"

  const StatusOK := 200
  const StatusCreated := 201
  const StatusBadRequest := 400
  const StatusNotFound := 404
  const StatusMethodNotAllowed := 405
  const StatusConflict := 409
  const StatusInternalServerError := 500

  /** What a response carries besides its status: the value that gets encoded as JSON. */
  datatype Body = NoBody | PlayerList(players: seq<Player>) | PlayerJson(player: Player)

  /**
    What a handler produces: a status with a body, or a runtime panic (the
    registration handler asserts every storage error is a `*pq.Error`).
   */
  datatype Response = Reply(status: int, body: Body) | Panic

  /** The request check in front of every handler: refuse with a status, or go on to storage. */
  datatype Decision<+T> = Reject(status: int) | Proceed(arg: T)

  // ---------------------------------------------------------------------------
  // POST /register
  // ---------------------------------------------------------------------------

  /** The request body as the handler sees it after reading and decoding it. */
  datatype RegisterBody = Unreadable | Malformed | Decoded(user: Player)

  /** All five columns of a registration are non-empty. */
  predicate Complete(user: Player)
  {
    user.id != "" && user.username != "" && user.server != "" && user.ign != "" && user.friendCode != ""
  }

  /** Checks method, body and required fields, in that order. */
  function RegisterDecision(verb: string, body: RegisterBody): (d: Decision<Player>)
    ensures verb != MethodPost ==> d == Reject(StatusMethodNotAllowed)
    ensures verb == MethodPost && d.Reject? ==> d == Reject(StatusBadRequest)
    ensures d.Proceed? <==> verb == MethodPost && body.Decoded? && Complete(body.user)
    ensures d.Proceed? ==> d.arg == body.user
  {
    if verb != MethodPost then Reject(StatusMethodNotAllowed)
    else match body
      case Unreadable => Reject(StatusBadRequest)
      case Malformed => Reject(StatusBadRequest)
      case Decoded(user) => if Complete(user) then Proceed(user) else Reject(StatusBadRequest)
  }

  /**
    Maps the result of the storage call to the response: success is 201, a
    unique violation 409, any other pq error 500, and an error that is not a
    pq error makes the type assertion panic.
   */
  function RegisterResponse(err: Option<DbError>): (resp: Response)
    ensures resp == Reply(StatusCreated, NoBody) <==> err.None?
    ensures resp == Reply(StatusConflict, NoBody) <==>
      err.Some? && err.value.Pq? && err.value.code == UniqueViolation
    ensures resp == Reply(StatusInternalServerError, NoBody) <==>
      err.Some? && err.value.Pq? && err.value.code != UniqueViolation
    ensures resp.Panic? <==> err.Some? && !err.value.Pq?
  {
    match err
    case None => Reply(StatusCreated, NoBody)
    case Some(Pq(code, _)) =>
      if code == UniqueViolation then Reply(StatusConflict, NoBody)
      else Reply(StatusInternalServerError, NoBody)
    case Some(_) => Panic
  }

  /** A response together with the table as it stands after the request. */
  datatype Served = Served(response: Response, table: Table)

  /** The registration handler: decide, then call storage at most once. */
  function HandleRegister(verb: string, body: RegisterBody, t: Table, keys: seq<UniqueKey>, session: Session): (r: Served)
    ensures r.table == t || (body.Decoded? && r.table == t + [body.user])
    ensures r.response == Reply(StatusCreated, NoBody) <==> r.table != t
    ensures verb != MethodPost ==> r == Served(Reply(StatusMethodNotAllowed, NoBody), t)
    ensures verb == MethodPost && !(body.Decoded? && Complete(body.user)) ==>
      r == Served(Reply(StatusBadRequest, NoBody), t)
  {
    match RegisterDecision(verb, body)
    case Reject(status) => Served(Reply(status, NoBody), t)
    case Proceed(user) =>
      var outcome := Register(t, user, keys, session);
      Served(RegisterResponse(outcome.err), outcome.table)
  }

  /**
    A refused registration never reaches storage: its response is the same
    whatever the table, constraints and session, and the table is left as it was.
   */
  lemma RegisterRejectSkipsStorage(verb: string, body: RegisterBody,
                                   t1: Table, keys1: seq<UniqueKey>, session1: Session,
                                   t2: Table, keys2: seq<UniqueKey>, session2: Session)
    requires !(verb == MethodPost && body.Decoded? && Complete(body.user))
    ensures HandleRegister(verb, body, t1, keys1, session1).table == t1
    ensures HandleRegister(verb, body, t1, keys1, session1).response
         == HandleRegister(verb, body, t2, keys2, session2).response
    ensures HandleRegister(verb, body, t1, keys1, session1).response
         == Reply(if verb != MethodPost then StatusMethodNotAllowed else StatusBadRequest, NoBody)
  {
  }

  /**
    A well-formed registration calls storage exactly once with the decoded
    player, and its status and table are those of that one call.
   */
  lemma RegisterCallsStorageOnce(verb: string, user: Player, t: Table, keys: seq<UniqueKey>, session: Session)
    requires verb == MethodPost && Complete(user)
    ensures var outcome := Register(t, user, keys, session);
      HandleRegister(verb, Decoded(user), t, keys, session)
        == Served(RegisterResponse(outcome.err), outcome.table)
  {
  }

  /** The status of a registration is one of the five the handler writes, or it panics. */
  lemma RegisterStatuses(verb: string, body: RegisterBody, t: Table, keys: seq<UniqueKey>, session: Session)
    ensures var resp := HandleRegister(verb, body, t, keys, session).response;
      resp.Panic? ||
      (resp.body == NoBody && resp.status in {StatusCreated, StatusBadRequest, StatusMethodNotAllowed,
                                              StatusConflict, StatusInternalServerError})
  {
  }

  /** Only a registration that commits changes the table, by exactly its one row. */
  lemma RegisterTableEffect(verb: string, body: RegisterBody, t: Table, keys: seq<UniqueKey>, session: Session)
    ensures var served := HandleRegister(verb, body, t, keys, session);
      (served.response == Reply(StatusCreated, NoBody) ==> served.table == t + [body.user])
      && (served.response != Reply(StatusCreated, NoBody) ==> served.table == t)
  {
  }

  /**
    Posting the same complete player twice, when the insert has no failure
    other than the unique constraints, answers 201 and then 409, and the table
    ends up holding the player's row once. Without any unique constraint both
    posts would answer 201.
   */
  lemma RegisterTwiceConflicts(t: Table, user: Player, keys: seq<UniqueKey>)
    requires Complete(user) && !Conflicts(t, user, keys)
    ensures HandleRegister(MethodPost, Decoded(user), t, keys, Session(None, None))
         == Served(Reply(StatusCreated, NoBody), t + [user])
    ensures keys != [] ==>
      HandleRegister(MethodPost, Decoded(user), t + [user], keys, Session(None, None))
        == Served(Reply(StatusConflict, NoBody), t + [user])
    ensures keys == [] ==>
      HandleRegister(MethodPost, Decoded(user), t + [user], keys, Session(None, None))
        == Served(Reply(StatusCreated, NoBody), t + [user, user])
  {
    RegisterTwice(t, user, keys);
  }

  // ---------------------------------------------------------------------------
  // GET /player/list
  // ---------------------------------------------------------------------------

  /**
    Checks the method and the one query value a lookup needs (`server` for the
    list, `id` for a single player): the same two checks in the same order.
   */
  function QueryDecision(verb: string, value: string): (d: Decision<string>)
    ensures verb != MethodGet ==> d == Reject(StatusMethodNotAllowed)
    ensures verb == MethodGet && value == "" ==> d == Reject(StatusBadRequest)
    ensures d.Proceed? <==> verb == MethodGet && value != ""
    ensures d.Proceed? ==> d.arg == value
  {
    if verb != MethodGet then Reject(StatusMethodNotAllowed)
    else if value == "" then Reject(StatusBadRequest)
    else Proceed(value)
  }

  /** The list handler: the players of the server, or the refusal status. */
  function HandleList(verb: string, server: string, t: Table): (resp: Response)
    ensures resp.Reply?
    ensures verb != MethodGet ==> resp == Reply(StatusMethodNotAllowed, NoBody)
    ensures verb == MethodGet && server == "" ==> resp == Reply(StatusBadRequest, NoBody)
    ensures resp.status == StatusOK <==> verb == MethodGet && server != ""
    ensures resp.status == StatusOK ==> resp.body == PlayerList(ListPlayers(t, server))
    ensures resp.status == StatusOK ==> resp.body.PlayerList?
    ensures resp.status == StatusOK ==> forall q :: q in resp.body.players <==>
      exists p :: p in t && p.server == server && q == Project(p)
  {
    match QueryDecision(verb, server)
    case Reject(status) => Reply(status, NoBody)
    case Proceed(s) => Reply(StatusOK, PlayerList(ListPlayers(t, s)))
  }

  /** A refused list request answers the same whatever the table holds. */
  lemma ListRejectSkipsStorage(verb: string, server: string, t1: Table, t2: Table)
    requires verb != MethodGet || server == ""
    ensures HandleList(verb, server, t1) == HandleList(verb, server, t2)
    ensures HandleList(verb, server, t1).status
         == if verb != MethodGet then StatusMethodNotAllowed else StatusBadRequest
  {
  }

  /**
    An accepted list request answers 200 with exactly the players of that
    server, none of them carrying a server, and an empty list (never an
    error) when the server has no rows.
   */
  lemma ListAnswersServerPlayers(server: string, t: Table)
    requires server != ""
    ensures var resp := HandleList(MethodGet, server, t);
      && resp.Reply? && resp.status == StatusOK && resp.body.PlayerList?
      && resp.body.players == ListPlayers(t, server)
      && (forall q :: q in resp.body.players <==>
            exists p :: p in t && p.server == server && q == Project(p))
      && (forall q :: q in resp.body.players ==> "server" !in JsonKeys(q))
      && ((forall i :: 0 <= i < |t| ==> t[i].server != server) ==> resp.body.players == [])
  {
  }

  // ---------------------------------------------------------------------------
  // GET /player
  // ---------------------------------------------------------------------------

  /** Maps a single-player lookup to the response: 200 with the player, 404, or
      500. The type check on the error here is guarded, so it never panics. */
  function GetResponse(found: Result<Player, DbError>): (resp: Response)
    ensures resp.Reply?
    ensures found.Success? ==> resp == Reply(StatusOK, PlayerJson(found.value))
    ensures resp.status == StatusOK <==> found.Success?
    ensures resp == Reply(StatusNotFound, NoBody) <==> found == Failure(NotFound)
    ensures resp == Reply(StatusInternalServerError, NoBody) <==>
      found.Failure? && found.error != NotFound
  {
    match found
    case Success(player) => Reply(StatusOK, PlayerJson(player))
    case Failure(NotFound) => Reply(StatusNotFound, NoBody)
    case Failure(_) => Reply(StatusInternalServerError, NoBody)
  }

  /**
    The single-player handler. The lookup by id is not part of the storage
    model, so it is a parameter: `getPlayer(id)` is what it returns.
   */
  function HandleGet(verb: string, id: string, getPlayer: string -> Result<Player, DbError>): (resp: Response)
    ensures resp.Reply?
    ensures verb != MethodGet ==> resp == Reply(StatusMethodNotAllowed, NoBody)
    ensures verb == MethodGet && id == "" ==> resp == Reply(StatusBadRequest, NoBody)
    ensures resp.status == StatusOK <==> verb == MethodGet && id != "" && getPlayer(id).Success?
    ensures resp.status == StatusNotFound <==>
      verb == MethodGet && id != "" && getPlayer(id) == Failure(NotFound)
    ensures resp.status == StatusInternalServerError <==>
      verb == MethodGet && id != "" && getPlayer(id).Failure? && getPlayer(id).error != NotFound
  {
    match QueryDecision(verb, id)
    case Reject(status) => Reply(status, NoBody)
    case Proceed(i) => GetResponse(getPlayer(i))
  }

  /** A refused lookup answers the same whatever the lookup would have returned. */
  lemma GetRejectSkipsStorage(verb: string, id: string,
                              getPlayer1: string -> Result<Player, DbError>,
                              getPlayer2: string -> Result<Player, DbError>)
    requires verb != MethodGet || id == ""
    ensures HandleGet(verb, id, getPlayer1) == HandleGet(verb, id, getPlayer2)
    ensures HandleGet(verb, id, getPlayer1).status
         == if verb != MethodGet then StatusMethodNotAllowed else StatusBadRequest
  {
  }

  /**
    An accepted lookup asks for exactly the requested id and answers with the
    player found, 404 for no such row, and 500 for every other error.
   */
  lemma GetAnswersLookup(id: string, getPlayer: string -> Result<Player, DbError>)
    requires id != ""
    ensures var resp := HandleGet(MethodGet, id, getPlayer);
      && (getPlayer(id).Success? ==> resp == Reply(StatusOK, PlayerJson(getPlayer(id).value)))
      && (getPlayer(id) == Failure(NotFound) ==> resp == Reply(StatusNotFound, NoBody))
      && (getPlayer(id).Failure? && getPlayer(id).error != NotFound ==>
            resp == Reply(StatusInternalServerError, NoBody))
  {
  }
}
