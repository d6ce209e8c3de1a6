/**
  The service's one table of players and the two operations the storage layer
  offers on it: listing the players of a server and registering a player.

  The database is an immutable sequence of rows in insertion order. A failing
  registration leaves the sequence as it was: its transaction is rolled back
  unless it was committed.
 */
module Pvp {
  import opened Results

  /** A row of the `pvp` table; `server` is the empty string when not loaded. */
  datatype Player = Player(
    id: string,
    username: string,
    server: string,
    ign: string,
    friendCode: string)

  /** The table, oldest row first. */
  type Table = seq<Player>

  /** The error values a storage call can hand back. */
  datatype DbError =
    | NotFound                            // `dbr.ErrNotFound` of the v2 query builder the handler imports
    | Pq(code: string, message: string)   // a `*pq.Error` reported by the PostgreSQL driver
    | Other(message: string)              // any other error value

  /** SQLSTATE `unique_violation` (PostgreSQL Error Codes, class 23). */
  const UniqueViolation := "23505"
  const UniqueViolationMessage := "duplicate key value violates unique constraint"

  // ---------------------------------------------------------------------------
  // Display formatting
  // ---------------------------------------------------------------------------

  const FcLabel := "**FC**: "
  const IgnLabel := " | **IGN**: "
  const UserLabel := " | **User**: "

  /** Number of characters the summary adds around the three shown fields. */
  const LabelsLength := |FcLabel| + |IgnLabel| + |UserLabel|

  /**
    The one-line summary of a player: friend code, in-game name, user name,
    each after its label, and nothing else.
   */
  function ToString(p: Player): (s: string)
    ensures |s| == LabelsLength + |p.friendCode| + |p.ign| + |p.username|
    ensures s[..|FcLabel|] == FcLabel
    ensures s[|FcLabel| + |p.friendCode|..][..|IgnLabel|] == IgnLabel
    ensures s[|FcLabel| + |p.friendCode| + |IgnLabel| + |p.ign|..][..|UserLabel|] == UserLabel
    ensures ParseSummary(s, |p.friendCode|, |p.ign|) == Some((p.friendCode, p.ign, p.username))
  {
    var user := UserLabel + p.username;
    var afterIgn := p.ign + user;
    var ign := IgnLabel + afterIgn;
    var afterFc := p.friendCode + ign;
    var fc := FcLabel + afterFc;
    StripLabelOfConcat(FcLabel, afterFc);
    assert afterFc[..|p.friendCode|] == p.friendCode && afterFc[|p.friendCode|..] == ign;
    StripLabelOfConcat(IgnLabel, afterIgn);
    assert afterIgn[..|p.ign|] == p.ign && afterIgn[|p.ign|..] == user;
    StripLabelOfConcat(UserLabel, p.username);
    assert fc[|FcLabel| + |p.friendCode|..] == ign;
    assert fc[|FcLabel| + |p.friendCode| + |IgnLabel| + |p.ign|..] == user;
    fc
  }

  /** `s` with `prefix` taken off its front, if it starts with `prefix`. */
  function StripLabel(prefix: string, s: string): (r: Option<string>)
    ensures r.Some? <==> |prefix| <= |s| && s[..|prefix|] == prefix
    ensures r.Some? ==> s == prefix + r.value
  {
    if |prefix| <= |s| && s[..|prefix|] == prefix then Some(s[|prefix|..]) else None
  }

  /** Taking a prefix off a string that starts with it leaves the rest. */
  lemma StripLabelOfConcat(prefix: string, rest: string)
    ensures StripLabel(prefix, prefix + rest) == Some(rest)
  {
    assert (prefix + rest)[..|prefix|] == prefix;
  }

  /**
    Reads a summary back, given the lengths of the friend code and the
    in-game name (the labels may occur inside fields, so the lengths are what
    makes the split unambiguous). Every label must sit where the formatter
    puts it; otherwise the string is not a summary and the result is `None`.
   */
  function ParseSummary(s: string, fcLength: nat, ignLength: nat): (r: Option<(string, string, string)>)
  {
    match StripLabel(FcLabel, s)
    case None => None
    case Some(afterFc) =>
      if |afterFc| < fcLength then None
      else match StripLabel(IgnLabel, afterFc[fcLength..])
      case None => None
      case Some(afterIgn) =>
        if |afterIgn| < ignLength then None
        else match StripLabel(UserLabel, afterIgn[ignLength..])
        case None => None
        case Some(user) => Some((afterFc[..fcLength], afterIgn[..ignLength], user))
  }

  /** Parsing a summary at its own field lengths gives back the three shown fields. */
  lemma SummaryRoundTrip(p: Player)
    ensures ParseSummary(ToString(p), |p.friendCode|, |p.ign|) == Some((p.friendCode, p.ign, p.username))
  {
  }

  /**
    Conversely, every string the parser accepts is the summary of any player
    carrying the three fields it reads out: the labels and the fields are all
    there is to a summary.
   */
  lemma ParseSummaryInverse(s: string, fcLength: nat, ignLength: nat, id: string, server: string)
    requires ParseSummary(s, fcLength, ignLength).Some?
    ensures var (fc, ign, user) := ParseSummary(s, fcLength, ignLength).value;
      && |fc| == fcLength && |ign| == ignLength
      && ToString(Player(id, user, server, ign, fc)) == s
  {
    var (fc, ign, user) := ParseSummary(s, fcLength, ignLength).value;
    ParsedSummaryShape(s, fcLength, ignLength);
    var p := Player(id, user, server, ign, fc);
    assert ToString(p) == FcLabel + (fc + (IgnLabel + (ign + (UserLabel + user))));
  }

  /** A string the parser accepts is the three labels with the fields it reads out between them. */
  lemma ParsedSummaryShape(s: string, fcLength: nat, ignLength: nat)
    requires ParseSummary(s, fcLength, ignLength).Some?
    ensures var (fc, ign, user) := ParseSummary(s, fcLength, ignLength).value;
      && |fc| == fcLength && |ign| == ignLength
      && s == FcLabel + (fc + (IgnLabel + (ign + (UserLabel + user))))
  {
    var afterFc := StripLabel(FcLabel, s).value;
    var fc, ignPart := afterFc[..fcLength], afterFc[fcLength..];
    var afterIgn := StripLabel(IgnLabel, ignPart).value;
    var ign, userPart := afterIgn[..ignLength], afterIgn[ignLength..];
    var user := StripLabel(UserLabel, userPart).value;
    assert ParseSummary(s, fcLength, ignLength).value == (fc, ign, user);
    assert afterFc == fc + ignPart by { SplitAt(afterFc, fcLength); }
    assert afterIgn == ign + userPart by { SplitAt(afterIgn, ignLength); }
  }

  /** Cutting a string at `n` and gluing the halves gives it back. */
  lemma SplitAt(x: string, n: nat)
    requires n <= |x|
    ensures x[..n] + x[n..] == x
  {
  }

  /** The summary never depends on the id or the server of the player. */
  lemma ToStringIgnoresIdAndServer(p: Player, id: string, server: string)
    ensures ToString(p.(id := id, server := server)) == ToString(p)
  {
  }

  /**
    Among players whose friend codes and in-game names have the same lengths,
    two summaries are equal exactly when the three shown fields are.
   */
  lemma ToStringInjectiveOnShownFields(p: Player, q: Player)
    requires |p.friendCode| == |q.friendCode| && |p.ign| == |q.ign|
    ensures ToString(p) == ToString(q)
        <==> p.friendCode == q.friendCode && p.ign == q.ign && p.username == q.username
  {
  }

  // ---------------------------------------------------------------------------
  // JSON shape
  // ---------------------------------------------------------------------------

  /**
    The keys the JSON encoding of a player carries, in field order: every
    field is always present except `server`, which is tagged `omitempty`.
   */
  function JsonKeys(p: Player): (keys: seq<string>)
    ensures "server" in keys <==> p.server != ""
    ensures "id" in keys && "username" in keys && "ign" in keys && "friendcode" in keys
    ensures |keys| == if p.server == "" then 4 else 5
  {
    ["id", "username"] + (if p.server == "" then [] else ["server"]) + ["ign", "friendcode"]
  }

  // ---------------------------------------------------------------------------
  // Listing the players of a server
  // ---------------------------------------------------------------------------

  /** The columns the list query selects: everything but `server`. */
  function Project(p: Player): (q: Player)
    ensures q.id == p.id && q.username == p.username && q.ign == p.ign && q.friendCode == p.friendCode
    ensures q.server == "" && "server" !in JsonKeys(q)
    ensures ToString(q) == ToString(p)
  {
    Player(p.id, p.username, "", p.ign, p.friendCode)
  }

  /**
    The rows of `t` on `server`, in table order, each reduced to the selected
    columns. The query reports no error, and an unknown server yields `[]`.
   */
  function ListPlayers(t: Table, server: string): (r: seq<Player>)
    ensures |r| <= |t|
    ensures forall q :: q in r <==> exists p :: p in t && p.server == server && q == Project(p)
    ensures forall q :: q in r ==> q.server == ""
    decreases |t|
  {
    if |t| == 0 then []
    else
      assert forall p :: p in t <==> p == t[0] || p in t[1..];
      (if t[0].server == server then [Project(t[0])] else []) + ListPlayers(t[1..], server)
  }

  /** Listing distributes over concatenation: the result keeps table order. */
  lemma {:induction false} ListPlayersAppend(t1: Table, t2: Table, server: string)
    ensures ListPlayers(t1 + t2, server) == ListPlayers(t1, server) + ListPlayers(t2, server)
    decreases |t1|
  {
    if |t1| == 0 {
      assert t1 + t2 == t2;
    } else {
      assert (t1 + t2)[1..] == t1[1..] + t2;
      ListPlayersAppend(t1[1..], t2, server);
    }
  }

  /** A single row lists as itself, projected, exactly when it is on the server. */
  lemma ListPlayersSingleton(p: Player, server: string)
    ensures ListPlayers([p], server) == if p.server == server then [Project(p)] else []
  {
    assert [p][1..] == [];
  }

  /** The list is empty exactly when no row of the table is on the server. */
  lemma {:induction false} ListPlayersEmptyIff(t: Table, server: string)
    ensures ListPlayers(t, server) == [] <==> forall i :: 0 <= i < |t| ==> t[i].server != server
  {
    var r := ListPlayers(t, server);
    if r != [] {
      assert r[0] in r;
      var p :| p in t && p.server == server && r[0] == Project(p);
      var i :| 0 <= i < |t| && t[i] == p;
    } else {
      forall i | 0 <= i < |t|
        ensures t[i].server != server
      {
        assert t[i] in t;
        assert Project(t[i]) !in r;
      }
    }
  }

  /** No listed player carries a `server` key in its JSON encoding. */
  lemma ListedPlayersOmitServer(t: Table, server: string)
    ensures forall q :: q in ListPlayers(t, server) ==> "server" !in JsonKeys(q)
  {
  }

  // ---------------------------------------------------------------------------
  // Registering a player
  // ---------------------------------------------------------------------------

  /**
    The values of the columns one unique constraint of the table ranges over:
    its primary key, or a `UNIQUE` clause. The constraints are declared in the
    schema migrations, which are not part of this model, so the table's
    constraints are an arbitrary sequence of keys and every statement about
    them is made for all of them.
   */
  type UniqueKey = Player -> seq<string>

  /**
    Failures the database may produce for reasons other than the unique
    constraints: at `Begin`, or when the insert is executed.
   */
  datatype Session = Session(beginError: Option<DbError>, execError: Option<DbError>)

  /** Some row of `t` already holds the value `user` has for one of the constraints `keys`. */
  predicate Conflicts(t: Table, user: Player, keys: seq<UniqueKey>)
  {
    exists k, i :: 0 <= k < |keys| && 0 <= i < |t| && keys[k](t[i]) == keys[k](user)
  }

  /** For each constraint, no two rows of `t` share its value: what the constraints maintain. */
  predicate KeysUnique(t: Table, keys: seq<UniqueKey>)
  {
    forall k, i, j :: 0 <= k < |keys| && 0 <= i < j < |t| ==> keys[k](t[i]) != keys[k](t[j])
  }

  /**
    Each constraint is checked on its own: a row conflicts with the table
    exactly when it conflicts under one of the constraints taken alone.
   */
  lemma {:induction false} ConflictsPerConstraint(t: Table, user: Player, keys: seq<UniqueKey>)
    ensures Conflicts(t, user, keys) <==> exists k :: 0 <= k < |keys| && Conflicts(t, user, [keys[k]])
  {
    if Conflicts(t, user, keys) {
      var k, i :| 0 <= k < |keys| && 0 <= i < |t| && keys[k](t[i]) == keys[k](user);
      assert [keys[k]][0] == keys[k];
      assert Conflicts(t, user, [keys[k]]);
    }
    if exists k :: 0 <= k < |keys| && Conflicts(t, user, [keys[k]]) {
      var k :| 0 <= k < |keys| && Conflicts(t, user, [keys[k]]);
      var z, i :| 0 <= z < 1 && 0 <= i < |t| && [keys[k]][z](t[i]) == [keys[k]][z](user);
      assert keys[k](t[i]) == keys[k](user);
    }
  }

  /** The error the INSERT statement ends with, if any. */
  function InsertError(t: Table, user: Player, keys: seq<UniqueKey>, session: Session): (err: Option<DbError>)
    ensures err.None? <==> session.execError.None? && !Conflicts(t, user, keys)
    ensures session.execError.Some? ==> err == session.execError
    ensures session.execError.None? && Conflicts(t, user, keys) ==>
      err == Some(Pq(UniqueViolation, UniqueViolationMessage))
  {
    if session.execError.Some? then session.execError
    else if Conflicts(t, user, keys) then Some(Pq(UniqueViolation, UniqueViolationMessage))
    else None
  }

  /** The table after a storage call, and the error the call returned. */
  datatype Outcome = Outcome(table: Table, err: Option<DbError>)

  /**
    Inserts `user` as one new row in its own transaction. A failed `Begin` or
    a failed insert returns the error with the table untouched (the
    transaction is rolled back); otherwise the row is committed. The commit's
    own result is not inspected, so commit is taken to succeed.
   */
  function Register(t: Table, user: Player, keys: seq<UniqueKey>, session: Session): (r: Outcome)
    ensures r.table == t || r.table == t + [user]
    ensures r.err.None? <==> r.table == t + [user]
    ensures r.err.None? <==>
      session.beginError.None? && session.execError.None? && !Conflicts(t, user, keys)
    ensures session.beginError.Some? ==> r.err == session.beginError
    ensures session.beginError.None? && session.execError.Some? ==> r.err == session.execError
    ensures session.beginError.None? && session.execError.None? && Conflicts(t, user, keys) ==>
      r.err == Some(Pq(UniqueViolation, UniqueViolationMessage))
  {
    if session.beginError.Some? then
      Outcome(t, session.beginError)
    else
      match InsertError(t, user, keys, session)
      case Some(e) => Outcome(t, Some(e))
      case None => Outcome(t + [user], None)
  }

  /** A committed row satisfies every constraint, so registering keeps every key unique. */
  lemma RegisterPreservesKeysUnique(t: Table, user: Player, keys: seq<UniqueKey>, session: Session)
    requires KeysUnique(t, keys)
    ensures KeysUnique(Register(t, user, keys, session).table, keys)
  {
    var r := Register(t, user, keys, session);
    if r.err.None? {
      forall k, i, j | 0 <= k < |keys| && 0 <= i < j < |r.table|
        ensures keys[k](r.table[i]) != keys[k](r.table[j])
      {
        if j == |t| {
          assert r.table[j] == user;
          assert r.table[i] == t[i];
          assert !(keys[k](t[i]) == keys[k](user));
        } else {
          assert r.table[i] == t[i] && r.table[j] == t[j];
        }
      }
    }
  }

  /**
    Registering the same player twice when the insert has no failure other
    than the unique constraints: the first call commits one row, the second
    hits every constraint and changes nothing. A table without any unique
    constraint would take the row twice.
   */
  lemma RegisterTwice(t: Table, user: Player, keys: seq<UniqueKey>)
    requires !Conflicts(t, user, keys)
    ensures Register(t, user, keys, Session(None, None)) == Outcome(t + [user], None)
    ensures keys != [] ==>
      Register(t + [user], user, keys, Session(None, None))
        == Outcome(t + [user], Some(Pq(UniqueViolation, UniqueViolationMessage)))
    ensures keys == [] ==> Register(t + [user], user, keys, Session(None, None)) == Outcome(t + [user, user], None)
  {
    if keys != [] {
      assert (t + [user])[|t|] == user;
      assert keys[0]((t + [user])[|t|]) == keys[0](user);
    } else {
      assert t + [user] + [user] == t + [user, user];
    }
  }

  /** A successful registration shows up at the end of its server's list and nowhere else. */
  lemma RegisterThenList(t: Table, user: Player, keys: seq<UniqueKey>, session: Session, server: string)
    requires Register(t, user, keys, session).err.None?
    ensures ListPlayers(Register(t, user, keys, session).table, server)
         == ListPlayers(t, server) + (if user.server == server then [Project(user)] else [])
  {
    ListPlayersAppend(t, [user], server);
    ListPlayersSingleton(user, server);
  }
}
