/**
  The two stored record shapes, `Player` and `ScoreEntry`, the lookups the
  handlers run against them, and the once-per-UTC-day submission gate.
 */
module Records {
  import opened Wrappers
  import opened UtcTime
  import opened Text

  /** Bounds of a single round's score, inclusive. */
  const MinRoundScore: int := 0
  const MaxRoundScore: int := 5000

  /** A registered player. A player created through the JSON API has no email. */
  datatype Player = Player(id: nat, name: string, email: Option<string>)

  /** One submitted game: three round scores and the total stored with them at write time. */
  datatype ScoreEntry = ScoreEntry(
    id: nat, playerId: nat, playedAt: int,
    round1: int, round2: int, round3: int, totalScore: int)

  predicate RoundInRange(x: int) {
    MinRoundScore <= x <= MaxRoundScore
  }

  /** The range check of the form handler (and the field bounds of the JSON schema). */
  predicate RoundsInRange(r1: int, r2: int, r3: int) {
    RoundInRange(r1) && RoundInRange(r2) && RoundInRange(r3)
  }

  /** The entry a handler writes: the given rounds, stamped with `now`, totalled once. */
  function NewEntry(id: nat, playerId: nat, now: int, r1: int, r2: int, r3: int): ScoreEntry {
    ScoreEntry(id, playerId, now, r1, r2, r3, r1 + r2 + r3)
  }

  /** What every stored entry satisfies: rounds in range and a total that is their sum. */
  predicate WellFormedEntry(e: ScoreEntry) {
    RoundsInRange(e.round1, e.round2, e.round3) && e.totalScore == e.round1 + e.round2 + e.round3
  }

  /** A well-formed entry's total lies between 0 and three times the round maximum. */
  lemma WellFormedTotalBounds(e: ScoreEntry)
    requires WellFormedEntry(e)
    ensures 0 <= e.totalScore <= 3 * MaxRoundScore
    ensures e.round1 <= e.totalScore && e.round2 <= e.totalScore && e.round3 <= e.totalScore
  {
  }

  // ---------- Lookups ---------------------------------------------------------

  /** `func.lower(Player.email) == email.lower()`: a player without an email never matches. */
  predicate EmailMatches(p: Player, email: string) {
    p.email.Some? && EqualsIgnoreCase(p.email.value, email)
  }

  /** `func.lower(Player.name) == name.lower()`. */
  predicate NameMatches(p: Player, name: string) {
    EqualsIgnoreCase(p.name, name)
  }

  /** Index of the first player whose email matches case-insensitively, if any. */
  function FindByEmail(players: seq<Player>, email: string): (r: Option<nat>)
    ensures r.Some? ==> r.value < |players| && EmailMatches(players[r.value], email)
    ensures r.Some? ==> forall k :: 0 <= k < r.value ==> !EmailMatches(players[k], email)
    ensures r.None? ==> forall k :: 0 <= k < |players| ==> !EmailMatches(players[k], email)
  {
    if players == [] then None
    else if EmailMatches(players[0], email) then Some(0)
    else match FindByEmail(players[1..], email)
      case None => None
      case Some(k) => Some(k + 1)
  }

  /** Index of the first player whose name matches case-insensitively, if any. */
  function FindByName(players: seq<Player>, name: string): (r: Option<nat>)
    ensures r.Some? ==> r.value < |players| && NameMatches(players[r.value], name)
    ensures r.Some? ==> forall k :: 0 <= k < r.value ==> !NameMatches(players[k], name)
    ensures r.None? ==> forall k :: 0 <= k < |players| ==> !NameMatches(players[k], name)
  {
    if players == [] then None
    else if NameMatches(players[0], name) then Some(0)
    else match FindByName(players[1..], name)
      case None => None
      case Some(k) => Some(k + 1)
  }

  /** The email lookup sees only the emails: changing names leaves its answer alone. */
  lemma {:induction false} FindByEmailSeesOnlyEmails(a: seq<Player>, b: seq<Player>, email: string)
    requires |a| == |b|
    requires forall k :: 0 <= k < |a| ==> a[k].email == b[k].email
    ensures FindByEmail(a, email) == FindByEmail(b, email)
  {
    if a != [] {
      FindByEmailSeesOnlyEmails(a[1..], b[1..], email);
    }
  }

  /** Some player has the given id (the foreign key of an entry). */
  predicate HasPlayer(players: seq<Player>, id: nat) {
    exists k :: 0 <= k < |players| && players[k].id == id
  }

  /** Player ids grow along the sequence and stay below the next id to hand out. */
  predicate PlayerIdsBelow(players: seq<Player>, next: nat) {
    (forall i, j :: 0 <= i < j < |players| ==> players[i].id < players[j].id) &&
    (forall i :: 0 <= i < |players| ==> players[i].id < next)
  }

  /** Entry ids grow along the sequence and stay below the next id to hand out. */
  predicate EntryIdsBelow(entries: seq<ScoreEntry>, next: nat) {
    (forall i, j :: 0 <= i < j < |entries| ==> entries[i].id < entries[j].id) &&
    (forall i :: 0 <= i < |entries| ==> entries[i].id < next)
  }

  /** Appending a player keeps every existing player reachable by id. */
  lemma AppendKeepsPlayers(players: seq<Player>, p: Player, id: nat)
    requires HasPlayer(players, id)
    ensures HasPlayer(players + [p], id)
  {
    var k :| 0 <= k < |players| && players[k].id == id;
    assert (players + [p])[k] == players[k];
  }

  /** Renaming a player or attaching an email keeps every id, so every entry still joins. */
  lemma KeepsIds(before: seq<Player>, after: seq<Player>)
    requires |before| == |after|
    requires forall k :: 0 <= k < |before| ==> before[k].id == after[k].id
    ensures forall id :: HasPlayer(before, id) ==> HasPlayer(after, id)
  {
    forall id | HasPlayer(before, id) ensures HasPlayer(after, id) {
      var k :| 0 <= k < |before| && before[k].id == id;
      assert after[k].id == id;
    }
  }

  /** A player's id is below the next id to hand out, so a newly allocated id is nobody's yet. */
  lemma HasPlayerBelow(players: seq<Player>, next: nat, id: nat)
    requires PlayerIdsBelow(players, next) && HasPlayer(players, id)
    ensures id < next
  {
  }

  // ---------- Submission gate -------------------------------------------------

  /** The gate's query: the player has an entry played at or after `since`. */
  predicate HasEntrySince(entries: seq<ScoreEntry>, playerId: nat, since: int) {
    exists k :: 0 <= k < |entries| && entries[k].playerId == playerId && entries[k].playedAt >= since
  }

  /** The player has already submitted in the UTC day of `now`: the gate refuses. */
  predicate SubmittedToday(entries: seq<ScoreEntry>, playerId: nat, now: int) {
    HasEntrySince(entries, playerId, StartOfToday(now))
  }

  /** No entry is stamped later than `now`: the clock has not gone backwards. */
  predicate NoEntryAfter(entries: seq<ScoreEntry>, now: int) {
    forall k :: 0 <= k < |entries| ==> entries[k].playedAt <= now
  }

  /** The rule the gate enforces: no player has two entries in the same UTC day. */
  predicate AtMostOncePerDay(entries: seq<ScoreEntry>) {
    forall i, j :: 0 <= i < j < |entries| && entries[i].playerId == entries[j].playerId ==>
      StartOfToday(entries[i].playedAt) != StartOfToday(entries[j].playedAt)
  }

  /**
    While the clock has not gone backwards, the gate's "at or after today's
    midnight" query is exactly "an entry in the same UTC day as `now`".
   */
  lemma GateIsSameDay(entries: seq<ScoreEntry>, playerId: nat, now: int)
    requires NoEntryAfter(entries, now)
    ensures SubmittedToday(entries, playerId, now) <==>
      exists k :: 0 <= k < |entries| && entries[k].playerId == playerId &&
        StartOfToday(entries[k].playedAt) == StartOfToday(now)
  {
    if SubmittedToday(entries, playerId, now) {
      var k :| 0 <= k < |entries| && entries[k].playerId == playerId && entries[k].playedAt >= StartOfToday(now);
      SameUtcDay(now, entries[k].playedAt);
    }
  }

  /** After an entry is stored, the same player is refused for the rest of that UTC day. */
  lemma SecondSubmissionRefused(entries: seq<ScoreEntry>, k: nat, later: int)
    requires k < |entries|
    requires entries[k].playedAt <= later < StartOfToday(entries[k].playedAt) + SecondsPerDay
    ensures SubmittedToday(entries, entries[k].playerId, later)
  {
    SameUtcDay(entries[k].playedAt, later);
  }

  /**
    An entry the gate admits keeps the once-per-day rule, whatever the clock
    did: the player's stored entries all lie before the new entry's midnight.
   */
  lemma AdmitKeepsOncePerDay(entries: seq<ScoreEntry>, e: ScoreEntry)
    requires AtMostOncePerDay(entries)
    requires !SubmittedToday(entries, e.playerId, e.playedAt)
    ensures AtMostOncePerDay(entries + [e])
  {
    var all := entries + [e];
    forall i, j | 0 <= i < j < |all| && all[i].playerId == all[j].playerId
      ensures StartOfToday(all[i].playedAt) != StartOfToday(all[j].playedAt)
    {
      if j == |entries| {
        assert all[i] == entries[i];
        assert entries[i].playedAt < StartOfToday(e.playedAt);
      } else {
        assert all[i] == entries[i] && all[j] == entries[j];
      }
    }
  }
}
