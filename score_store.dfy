/**
  The request handlers' effect on the store: registration (`register_post`),
  the two submission paths (`submit_form_post` and `api_submit_entry`) and the
  leaderboard query. The players and entries tables are sequences in id
  order; the next ids to hand out are kept alongside them, as SQLite's rowid
  allocation does.
 */
module ScoreStore {
  import opened Wrappers
  import opened UtcTime
  import opened Text
  import opened Records
  import opened Leaderboard

  /** Longest player name the JSON schema accepts. */
  const MaxNameLength: int := 80

  /** Outcome of the form submission: redirect to login, redirect with the limit flag, HTTP 400, or saved. */
  datatype FormOutcome = LoginRequired | LimitReached | ScoresOutOfRange | Saved(entryId: nat)

  /** Outcome of the JSON submission: 422 from schema validation, 409, or the `{ok, entry_id, total}` body. */
  datatype ApiOutcome = Unprocessable | AlreadySubmitted | Accepted(entryId: nat, total: int)

  /** Outcome of registration: HTTP 400 for either field, or the values the session is given. */
  datatype RegisterOutcome = InvalidEmail | NameRequired | SignedIn(userEmail: string, userName: string)

  /** `not email or "@" not in email` rejects; this is its negation. */
  predicate ValidEmail(email: string) {
    email != [] && '@' in email
  }

  /** The JSON schema: a name of 1 to 80 characters and three rounds in range. */
  predicate ApiPayloadValid(playerName: string, r1: int, r2: int, r3: int) {
    1 <= |playerName| <= MaxNameLength && RoundsInRange(r1, r2, r3)
  }

  class Store {
    var players: seq<Player>
    var entries: seq<ScoreEntry>
    var nextPlayerId: nat
    var nextEntryId: nat

    /**
      Ids are unique and below the next ones, every entry joins to a player
      and is well formed, no player has two entries in one UTC day, every
      name is non-empty and every email has an '@'.
     */
    ghost predicate Valid()
      reads this
    {
      PlayerIdsBelow(players, nextPlayerId) &&
      EntryIdsBelow(entries, nextEntryId) &&
      AtMostOncePerDay(entries) &&
      (forall k :: 0 <= k < |entries| ==> HasPlayer(players, entries[k].playerId) && WellFormedEntry(entries[k])) &&
      (forall k :: 0 <= k < |players| ==> players[k].name != [] && (players[k].email.Some? ==> '@' in players[k].email.value))
    }

    /** An empty database; SQLite hands out rowid 1 first. */
    constructor ()
      ensures Valid()
      ensures players == [] && entries == []
      ensures nextPlayerId == 1 && nextEntryId == 1
    {
      players, entries := [], [];
      nextPlayerId, nextEntryId := 1, 1;
    }

    /**
      Adds one entry for an existing player the gate admitted, stamped `now`,
      with the total computed from the rounds.
     */
    method AddEntry(playerId: nat, now: int, r1: int, r2: int, r3: int) returns (id: nat)
      requires Valid()
      requires HasPlayer(players, playerId) && RoundsInRange(r1, r2, r3)
      requires !SubmittedToday(entries, playerId, now)
      modifies this
      ensures Valid()
      ensures id == old(nextEntryId) && nextEntryId == old(nextEntryId) + 1
      ensures entries == old(entries) + [NewEntry(id, playerId, now, r1, r2, r3)]
      ensures players == old(players) && nextPlayerId == old(nextPlayerId)
      ensures forall later :: now <= later < StartOfToday(now) + SecondsPerDay ==> SubmittedToday(entries, playerId, later)
    {
      id := nextEntryId;
      var e := NewEntry(id, playerId, now, r1, r2, r3);
      AdmitKeepsOncePerDay(entries, e);
      entries := entries + [e];
      nextEntryId := nextEntryId + 1;
      forall later | now <= later < StartOfToday(now) + SecondsPerDay
        ensures SubmittedToday(entries, playerId, later)
      {
        SecondSubmissionRefused(entries, |entries| - 1, later);
      }
    }

    /**
      `submit_form_post` for the signed-in player `me` (None when nobody is
      signed in): the day check comes first, then the range check, then
      exactly one entry is stored.
     */
    method SubmitForm(me: Option<nat>, now: int, r1: int, r2: int, r3: int) returns (outcome: FormOutcome)
      requires Valid()
      requires me.Some? ==> HasPlayer(players, me.value)
      modifies this
      ensures Valid()
      ensures players == old(players) && nextPlayerId == old(nextPlayerId)
      ensures me.None? ==> outcome == LoginRequired
      ensures me.Some? && SubmittedToday(old(entries), me.value, now) ==> outcome == LimitReached
      ensures me.Some? && !SubmittedToday(old(entries), me.value, now) && !RoundsInRange(r1, r2, r3) ==> outcome == ScoresOutOfRange
      ensures outcome.Saved? <==> me.Some? && !SubmittedToday(old(entries), me.value, now) && RoundsInRange(r1, r2, r3)
      ensures !outcome.Saved? ==> entries == old(entries) && nextEntryId == old(nextEntryId)
      ensures outcome.Saved? ==>
        outcome.entryId == old(nextEntryId) && nextEntryId == old(nextEntryId) + 1 &&
        entries == old(entries) + [NewEntry(old(nextEntryId), me.value, now, r1, r2, r3)]
      ensures outcome.Saved? ==> forall later :: now <= later < StartOfToday(now) + SecondsPerDay ==> SubmittedToday(entries, me.value, later)
    {
      if me.None? {
        return LoginRequired;
      }
      if SubmittedToday(entries, me.value, now) {
        return LimitReached;
      }
      if !RoundsInRange(r1, r2, r3) {
        return ScoresOutOfRange;
      }
      var id := AddEntry(me.value, now, r1, r2, r3);
      outcome := Saved(id);
    }

    /**
      `api_submit_entry`: after schema validation, the player is found by
      case-insensitive name or created without an email; then the day check,
      then exactly one entry is stored.
     */
    method SubmitApi(playerName: string, now: int, r1: int, r2: int, r3: int) returns (outcome: ApiOutcome)
      requires Valid()
      modifies this
      ensures Valid()
      ensures !ApiPayloadValid(playerName, r1, r2, r3) ==>
        outcome == Unprocessable && players == old(players) && entries == old(entries) &&
        nextPlayerId == old(nextPlayerId) && nextEntryId == old(nextEntryId)
      ensures ApiPayloadValid(playerName, r1, r2, r3) && FindByName(old(players), playerName).None? ==>
        players == old(players) + [Player(old(nextPlayerId), playerName, None)] && nextPlayerId == old(nextPlayerId) + 1 &&
        outcome == Accepted(old(nextEntryId), r1 + r2 + r3) && nextEntryId == old(nextEntryId) + 1 &&
        entries == old(entries) + [NewEntry(old(nextEntryId), old(nextPlayerId), now, r1, r2, r3)]
      ensures ApiPayloadValid(playerName, r1, r2, r3) && FindByName(old(players), playerName).Some? ==>
        var pid := old(players)[FindByName(old(players), playerName).value].id;
        players == old(players) && nextPlayerId == old(nextPlayerId) &&
        (SubmittedToday(old(entries), pid, now) ==>
          outcome == AlreadySubmitted && entries == old(entries) && nextEntryId == old(nextEntryId)) &&
        (!SubmittedToday(old(entries), pid, now) ==>
          outcome == Accepted(old(nextEntryId), r1 + r2 + r3) && nextEntryId == old(nextEntryId) + 1 &&
          entries == old(entries) + [NewEntry(old(nextEntryId), pid, now, r1, r2, r3)])
    {
      if !ApiPayloadValid(playerName, r1, r2, r3) {
        return Unprocessable;
      }
      var found := FindByName(players, playerName);
      var pid: nat;
      if found.Some? {
        pid := players[found.value].id;
      } else {
        pid := CreatePlayer(playerName, None);
      }
      assert found.Some? ==> players[found.value].id == pid;
      if SubmittedToday(entries, pid, now) {
        return AlreadySubmitted;
      }
      var id := AddEntry(pid, now, r1, r2, r3);
      outcome := Accepted(id, r1 + r2 + r3);
    }

    /**
      `register_post`: both fields are stripped and checked, then the player
      is found by case-insensitive email (and renamed), else by
      case-insensitive name (and given the email), else created. The session
      is given the email and the player's name, and a later lookup by that
      email finds a player of that name.
     */
    method Register(rawEmail: string, rawName: string) returns (outcome: RegisterOutcome)
      requires Valid()
      modifies this
      ensures Valid()
      ensures entries == old(entries) && nextEntryId == old(nextEntryId)
      ensures !ValidEmail(Strip(rawEmail)) ==>
        outcome == InvalidEmail && players == old(players) && nextPlayerId == old(nextPlayerId)
      ensures ValidEmail(Strip(rawEmail)) && Strip(rawName) == [] ==>
        outcome == NameRequired && players == old(players) && nextPlayerId == old(nextPlayerId)
      ensures var email, name := Strip(rawEmail), Strip(rawName);
        ValidEmail(email) && name != [] && FindByEmail(old(players), email).Some? ==>
          var i := FindByEmail(old(players), email).value;
          players == old(players)[i := old(players)[i].(name := name)] && nextPlayerId == old(nextPlayerId) &&
          outcome == SignedIn(email, name)
      ensures var email, name := Strip(rawEmail), Strip(rawName);
        ValidEmail(email) && name != [] && FindByEmail(old(players), email).None? && FindByName(old(players), name).Some? ==>
          var j := FindByName(old(players), name).value;
          players == old(players)[j := old(players)[j].(email := Some(email))] && nextPlayerId == old(nextPlayerId) &&
          outcome == SignedIn(email, old(players)[j].name)
      ensures var email, name := Strip(rawEmail), Strip(rawName);
        ValidEmail(email) && name != [] && FindByEmail(old(players), email).None? && FindByName(old(players), name).None? ==>
          players == old(players) + [Player(old(nextPlayerId), name, Some(email))] && nextPlayerId == old(nextPlayerId) + 1 &&
          outcome == SignedIn(email, name)
      ensures outcome.SignedIn? ==>
        FindByEmail(players, outcome.userEmail).Some? && players[FindByEmail(players, outcome.userEmail).value].name == outcome.userName
    {
      var email := Strip(rawEmail);
      var name := Strip(rawName);
      if !ValidEmail(email) {
        return InvalidEmail;
      }
      if name == [] {
        return NameRequired;
      }
      var byEmail := FindByEmail(players, email);
      if byEmail.Some? {
        Rename(byEmail.value, name, email);
        return SignedIn(email, name);
      }
      var byName := FindByName(players, name);
      if byName.Some? {
        var current := players[byName.value].name;
        AttachEmail(byName.value, email);
        return SignedIn(email, current);
      }
      var _ := CreatePlayer(name, Some(email));
      outcome := SignedIn(email, name);
    }

    /** Sets the name of the player at `i`, the one the email lookup found; nothing else changes. */
    method Rename(i: nat, name: string, email: string)
      requires Valid() && name != []
      requires FindByEmail(players, email) == Some(i)
      modifies this
      ensures Valid()
      ensures players == old(players)[i := old(players)[i].(name := name)]
      ensures entries == old(entries) && nextPlayerId == old(nextPlayerId) && nextEntryId == old(nextEntryId)
      ensures FindByEmail(players, email) == Some(i) && players[i].name == name
    {
      if players[i].name != name {
        players := players[i := players[i].(name := name)];
      }
      FindByEmailSeesOnlyEmails(old(players), players, email);
      KeepsIds(old(players), players);
    }

    /** Gives the player at `j` the email; when no player had it, that player is now the one it finds. */
    method AttachEmail(j: nat, email: string)
      requires Valid() && ValidEmail(email) && j < |players|
      requires FindByEmail(players, email).None?
      modifies this
      ensures Valid()
      ensures players == old(players)[j := old(players)[j].(email := Some(email))]
      ensures entries == old(entries) && nextPlayerId == old(nextPlayerId) && nextEntryId == old(nextEntryId)
      ensures FindByEmail(players, email) == Some(j)
    {
      var claimed := players[j].(email := Some(email));
      assert EmailMatches(claimed, email);
      players := players[j := claimed];
      KeepsIds(old(players), players);
    }

    /** Inserts a new player under the next id; when no player had the email, the new player is the one it finds. */
    method CreatePlayer(name: string, email: Option<string>) returns (id: nat)
      requires Valid() && name != []
      requires email.Some? ==> ValidEmail(email.value)
      modifies this
      ensures Valid()
      ensures id == old(nextPlayerId) && nextPlayerId == old(nextPlayerId) + 1
      ensures players == old(players) + [Player(id, name, email)]
      ensures entries == old(entries) && nextEntryId == old(nextEntryId)
      ensures HasPlayer(players, id)
      ensures forall k :: 0 <= k < |entries| ==> entries[k].playerId != id
      ensures email.Some? && FindByEmail(old(players), email.value).None? ==> FindByEmail(players, email.value) == Some(|players| - 1)
    {
      id := nextPlayerId;
      var created := Player(id, name, email);
      forall k | 0 <= k < |entries| ensures entries[k].playerId != id && HasPlayer(players + [created], entries[k].playerId) {
        assert HasPlayer(players, entries[k].playerId);
        HasPlayerBelow(players, nextPlayerId, entries[k].playerId);
        AppendKeepsPlayers(players, created, entries[k].playerId);
      }
      players := players + [created];
      nextPlayerId := nextPlayerId + 1;
      assert players[|players| - 1].id == id;
      if email.Some? && FindByEmail(old(players), email.value).None? {
        assert EmailMatches(created, email.value);
      }
    }

    /**
      `query_leaderboard`: the grouped rows of the window, ordered by summed
      total descending, then numbered from 1.
     */
    method QueryLeaderboard(period: Period, now: int) returns (out: seq<Row>)
      ensures IsRanking(out, Groups(players, entries, Since(period, now)))
      ensures |out| == |Groups(players, entries, Since(period, now))|
      ensures forall i :: 0 <= i < |out| ==> out[i].rank == i + 1
      ensures forall i, j :: 0 <= i < j < |out| ==> out[i].totalScore >= out[j].totalScore
    {
      var groups := Groups(players, entries, Since(period, now));
      var rows := OrderBySumDesc(groups);
      out := NumberRows(rows);
      NumberedIsRanking(out, rows, groups);
      RankingShape(out, groups);
    }
  }

  /** The `enumerate(rows, start=1)` loop: row k of the result is group k with rank k + 1. */
  method NumberRows(rows: seq<Group>) returns (out: seq<Row>)
    ensures |out| == |rows|
    ensures forall k :: 0 <= k < |rows| ==> out[k] == RowOf(k + 1, rows[k])
  {
    out := [];
    var idx := 0;
    while idx < |rows|
      invariant 0 <= idx <= |rows|
      invariant |out| == idx
      invariant forall k :: 0 <= k < idx ==> out[k] == RowOf(k + 1, rows[k])
    {
      out := out + [RowOf(idx + 1, rows[idx])];
      idx := idx + 1;
    }
  }
}
