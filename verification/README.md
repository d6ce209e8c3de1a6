# pvpservice: player table and request handlers

A model of the core of `pvpservice`, a small HTTP service that records the
players of a game per game server. The service has one database table,
`pvp`, with one row per registered player. The storage package offers two operations on it:

- `ListPlayers(server)` returns the players of one server.
- `Register(player)` inserts one row inside a transaction.

It also has the `ToString` display formatter. Three HTTP handlers sit in
front of these operations: `Register`, `List` and `Get`.

The model has three modules:

- `Results` (`results.dfy`): the `Option` and `Result` carriers.
- `Pvp` (`pvp.dfy`): models `pvp/pvp.go`. The `Player` record is a datatype
  and the table is an immutable `seq<Player>` in insertion order (the order
  in which the model lists rows; see `Pvp.ListPlayers` under "## Left out"). `ListPlayers`
  is a filter plus a column projection. `Register` is an insert that either
  appends exactly one row or leaves the table unchanged.
- `Handler` (`handler.dfy`): models `handler/handler.go` with the I/O stripped
  out. Each handler is a pure function built from two parts:
  - a *decision* on the method and the extracted request fields, which either
    rejects with a status or proceeds to storage;
  - a mapping from the storage outcome to the response.

  The composed `HandleRegister`, `HandleList` and `HandleGet` take the storage
  state as a parameter.

Things that are inputs rather than computed:

- The table's unique constraints (its primary key and any `UNIQUE` clauses)
  are declared in schema migrations that are not part of this model. Each
  constraint is a `UniqueKey`, an arbitrary function from a row to the values
  of its columns, and the table has an arbitrary sequence of them. A new row
  conflicts when, for some constraint, an existing row has the same value.
  The constraints are checked one by one, so two constraints are not the
  same as one combined key. The handler treats SQLSTATE `23505`
  (`unique_violation` in PostgreSQL's error-code table) as a conflict, which
  shows that the table has at least one such constraint.
- Failures of `Begin` and of the insert that have nothing to do with the
  unique constraints are the fields of `Session`. Besides lost connections
  and the like, `execError` also carries rejections that depend on the
  inserted values: PostgreSQL's `text` refuses a NUL character (SQLSTATE
  `22021`), and a length-limited column refuses a value that is too long.
  The model does not decide these from the row; they are inputs.
- `GetPlayer`, which the `Get` handler calls, is not defined in
  `pvp/pvp.go`. It is the parameter `getPlayer: string -> Result<Player, DbError>`.
- The error values are `DbError`:
  - `NotFound` stands for `ErrNotFound` of `github.com/gocraft/dbr/v2`, the
    version `handler/handler.go` imports and compares against.
    `pvp/pvp.go` imports the older `github.com/gocraft/dbr`, whose
    `ErrNotFound` is a different value; such an error is not `NotFound` here
    and falls under "any other error" (500).
  - `Pq(code, message)` stands for a `*pq.Error` (a "pq error").
  - `Other(message)` stands for any other Go error.

The registration handler type-asserts every storage error to `*pq.Error`
without checking the assertion. A non-`Pq` error therefore yields the
explicit response `Panic`, not a status code.

The service has a single `pvp` table. Each row carries one `server` column,
and the summary formatter shows only the friend code, in-game name and user
name.

## Model

| member | source | states |
|---|---|---|
| Pvp.ToString | pvp/pvp.go:20-22 | the summary is the `**FC**: ` label, the friend code, the `**IGN**: ` label (with its leading bar separator), the in-game name, the `**User**: ` label (likewise) and the user name, in that order and nothing else: its length is the labels plus the three fields, each label sits exactly after the field before it, and parsing it at the field lengths gives back exactly the three fields |
| Pvp.SummaryRoundTrip | pvp/pvp.go:20-22 | parsing a summary at its own field lengths finds all three labels in place and gives back friend code, in-game name and user name, in that order |
| Pvp.ParseSummaryInverse | pvp/pvp.go:20-22 | every string the parser accepts is exactly the summary of a player with the three fields it read out, whatever that player's id and server |
| Pvp.ParsedSummaryShape | pvp/pvp.go:20-22 | every string the parser accepts is the friend-code label, the friend code, the in-game-name label, the in-game name, the user label and the user name, with the first two fields of the requested lengths |
| Pvp.ToStringIgnoresIdAndServer | pvp/pvp.go:20-22 | changing a player's id or server never changes its summary |
| Pvp.ToStringInjectiveOnShownFields | pvp/pvp.go:20-22 | for field lengths that agree, two summaries are equal if and only if friend code, in-game name and user name all are |
| Pvp.JsonKeys | pvp/pvp.go:12-18 | a player's JSON always has `id`, `username`, `ign` and `friendcode`; it has `server` exactly when the server is non-empty (`omitempty`) |
| Pvp.Project | pvp/pvp.go:41 | a listed row keeps id, username, ign and friend code, has an empty server (so no `server` JSON key), and has the same summary as the full row |
| Pvp.ListPlayers | pvp/pvp.go:36-46 | a player is listed if and only if it is the id/username/ign/friendcode projection of a table row on that server; every listed player has an empty server; the list is never longer than the table; no error and no table change are possible |
| Pvp.ListPlayersAppend | pvp/pvp.go:41-44 | listing a concatenation of tables is the concatenation of their listings, so the model lists in table order |
| Pvp.ListPlayersSingleton | pvp/pvp.go:41-44 | a single row lists as its projection exactly when its server matches, and as nothing otherwise |
| Pvp.ListPlayersEmptyIff | pvp/pvp.go:36-46 | the list is empty (not an error) if and only if no row of the table is on that server |
| Pvp.ListedPlayersOmitServer | pvp/pvp.go:15 | no listed player's JSON carries a `server` key |
| Pvp.ConflictsPerConstraint | pvp/pvp.go:56-64 | the insert conflicts with the table if and only if it conflicts under one of the unique constraints taken alone |
| Pvp.InsertError | pvp/pvp.go:56-64 | the insert succeeds if and only if it has no failure unrelated to the unique constraints and no row shares the user's value for any constraint; an unrelated failure is returned as is; otherwise a conflict gives code 23505 |
| Pvp.Register | pvp/pvp.go:48-68 | the new table is either the old one or the old one plus exactly the user's row, and it is the latter if and only if no error is returned; that happens if and only if `Begin` and the insert do not fail and no row shares the user's value for any unique constraint; a `Begin` failure or an insert failure is returned as is; a conflict returns code 23505 |
| Pvp.RegisterPreservesKeysUnique | pvp/pvp.go:56-67 | if, for every unique constraint, no two rows share its value before a registration, none do after it |
| Pvp.RegisterTwice | pvp/pvp.go:54-67 | registering a non-conflicting player twice, with no insert failure other than the unique constraints, commits one row, then fails with 23505 and leaves that table unchanged; only a table without any unique constraint would take the row twice |
| Pvp.RegisterThenList | pvp/pvp.go:36-67 | after a successful registration, the user's server lists what it listed before plus the user's projection at the end; every other server lists the same as before |
| Handler.RegisterDecision | handler/handler.go:25-49 | a method other than POST is rejected with 405; any other rejection is 400; storage is reached if and only if the method is POST, the body decoded, and all five fields are non-empty; it is then reached with the decoded player |
| Handler.RegisterResponse | handler/handler.go:50-62 | no error gives 201; a pq error with code 23505 gives 409; any other pq error gives 500; an error that is not a pq error panics (each "if and only if") |
| Handler.HandleRegister | handler/handler.go:25-63 | a request either leaves the table as it was or appends exactly the posted row, and it answers 201 if and only if the table changed; a non-POST method answers 405 and an incomplete or undecodable body answers 400, with the table unchanged (the storage half is stated by `RegisterCallsStorageOnce`) |
| Handler.RegisterRejectSkipsStorage | handler/handler.go:26-49 | a rejected registration leaves the table as it was; its response (405 for a non-POST method, else 400) is the same for every table, set of constraints and session |
| Handler.RegisterCallsStorageOnce | handler/handler.go:45-62 | a POST with all five fields non-empty answers with the response and table of exactly one storage registration of the decoded player |
| Handler.RegisterStatuses | handler/handler.go:25-63 | a registration either panics or answers with an empty body and one of 201, 400, 405, 409 or 500 |
| Handler.RegisterTableEffect | handler/handler.go:50-62 | a 201 answer means the table gained exactly the posted row; any other answer means the table is unchanged |
| Handler.RegisterTwiceConflicts | handler/handler.go:50-62 | posting the same complete, non-conflicting player twice, with no insert failure other than the unique constraints, answers 201 and then 409; the table holds the player's row once (only a table without any unique constraint would answer 201 twice) |
| Handler.QueryDecision | handler/handler.go:66-76 | for a list request (and identically for a single-player request, lines 87-96): a non-GET method gives 405; an empty query value gives 400; storage is queried if and only if the method is GET and the value is non-empty; it is then queried with that value |
| Handler.HandleList | handler/handler.go:65-84 | the answer is never a panic; a non-GET method gives 405, an empty `server` gives 400, and it is 200 if and only if the method is GET and `server` is non-empty; a 200 body is exactly the `ListPlayers` result for that server, unchanged (same order and duplicates), so it lists exactly the projections of that server's rows |
| Handler.ListRejectSkipsStorage | handler/handler.go:66-76 | a rejected list request answers 405 or 400 whatever the table holds |
| Handler.ListAnswersServerPlayers | handler/handler.go:77-83 | an accepted list request answers 200 with exactly the `ListPlayers` result for that server (order and duplicates included): the projections of that server's rows, none carrying a `server` key, and an empty list when the server has no rows |
| Handler.GetResponse | handler/handler.go:98-118 | a found player gives 200 with that player; `NotFound` gives 404; any other error gives 500 (each "if and only if"); this handler never panics |
| Handler.HandleGet | handler/handler.go:86-119 | the answer is never a panic; a non-GET method gives 405 and an empty `id` gives 400; for a GET with a non-empty id, it is 200, 404 or 500 if and only if the lookup of that id found the player, returned `NotFound`, or returned another error |
| Handler.GetRejectSkipsStorage | handler/handler.go:87-96 | a rejected lookup answers 405 or 400 whatever the lookup would have returned |
| Handler.GetAnswersLookup | handler/handler.go:92-118 | an accepted lookup answers from the lookup of exactly the requested id: 200 with the player, 404 for `NotFound`, 500 for any other error |

## Left out

- `main.go` is not modelled. It covers reading environment variables,
  parsing the DSN, running migrations, wiring the router, middleware, server
  start and signal handling, all of which is process plumbing. It also routes
  `/player` to a handler method `Player` that `handler/handler.go` does not
  define.
- SQL execution, the `dbr` session and transaction API and the `pq` driver
  are not modelled as calls. The table is a sequence. The constraints are the
  abstract `UniqueKey` values in a sequence.
- Pvp.Register: the unique constraints' columns and names are unknown. The
  conflict is stated for an arbitrary sequence of keys, and the 23505 error
  message is a fixed placeholder that does not name the violated constraint.
- Pvp.Register: values the column types refuse (a NUL character, a value
  longer than a column allows) are not derived from the row. They reach the
  model only through `Session.execError`, so with no such error the model
  accepts any row.
- Pvp.Register: if the insert would fail for another reason and also violate
  a unique constraint, the model reports the other failure. Which one PostgreSQL reports
  is not determined by the code.
- Pvp.Register: the result of `Commit` is ignored by the code, so the model
  takes the commit to succeed. A failed commit would leave the table
  unchanged while success is still reported.
- Pvp.ListPlayers: the query has no `ORDER BY`, so the database promises no
  order. Listing rows in insertion order is the model's own choice; an index
  scan on `server` could return them in another order.
- Pvp.ListPlayers: the model assumes the query succeeds. The code ignores the
  error from `Load`, so a failed query answers 200 with an empty or partly
  loaded list. That looks the same as a server with no rows, and then
  "empty if and only if no row is on that server" does not hold. One way it can
  fail: each call opens a transaction with `Begin` and never closes it, so
  connections can run out.
- JSON encoding and decoding and body reading are not modelled. The only
  part of the JSON shape that is modelled is which keys a player's encoding
  has. A body that cannot be read or decoded is the single input case
  `Unreadable` or `Malformed`.
- How an empty list is spelled in JSON (`null` for a nil slice) is not
  modelled.
- Logging is not modelled.
- `List` and `Get` write 500 and then still write the body when
  marshalling fails. This depends on marshalling failing, which the model
  does not represent, so it is not modelled.
- `GetPlayer` is not part of this model. Its answer is a parameter.
- Concurrency between requests is not modelled. Each handler call is an
  independent function of its inputs, and conflicts are decided against the
  table that is passed in.
- HTTP request parsing is not modelled. `FormValue` is represented by its
  result, with the empty string standing for an absent value.
