/**
  Worked examples: a first game on a Monday morning, a second attempt the
  same afternoon and the next morning, and an email that registers twice
  under two names.
 */
module Scenarios {
  import opened Wrappers
  import opened UtcTime
  import opened Records
  import opened Leaderboard

  /** 2024-01-01 (a Monday) at 09:00:00 UTC. */
  const MondayNine: int := 1704099600

  /** One stored game of 10, 20 and 30 counts once with total 60 and best round 30 in every window. */
  lemma FirstGameInEveryWindow(period: Period)
    ensures var ana := Player(1, "Ana", Some("a@x.com"));
      var entries := [NewEntry(1, 1, MondayNine, 10, 20, 30)];
      Groups([ana], entries, Since(period, MondayNine)) == [Group(1, "Ana", 1, 60, 10, 20, 30)] &&
      BestRound(Group(1, "Ana", 1, 60, 10, 20, 30)) == 30
  {
    var ana := Player(1, "Ana", Some("a@x.com"));
    var e := NewEntry(1, 1, MondayNine, 10, 20, 30);
    assert Weekday(MondayNine) == 0;
    assert StartOfWeek(MondayNine) == StartOfToday(MondayNine) == MondayNine - 9 * 3600;
    assert InWindow(e, Since(period, MondayNine));
    var since := Since(period, MondayNine);
    assert [e][1..] == [] && [ana][1..] == [];
    assert Qualifying([e], 1, since) == [e];
    assert SumTotals([e]) == 60;
    assert GroupOf(ana, [e]) == Group(1, "Ana", 1, 60, 10, 20, 30);
    assert Groups([ana], [e], since) == [PlayerGroup(ana, [e], since)] + Groups([], [e], since);
  }

  /** Whatever rows a ranking of that window gives, they are the single row of Ana ranked first. */
  lemma FirstGameRanked(period: Period, rows: seq<Row>)
    requires IsRanking(rows, Groups([Player(1, "Ana", Some("a@x.com"))], [NewEntry(1, 1, MondayNine, 10, 20, 30)], Since(period, MondayNine)))
    ensures rows == [Row(1, "Ana", 1, 60, 30)]
  {
    var g := Group(1, "Ana", 1, 60, 10, 20, 30);
    FirstGameInEveryWindow(period);
    RankingShape(rows, [g]);
    RankingRowsAreGroups(rows, [g]);
    assert rows[0] == RowOf(1, g);
  }

  /** The same player trying again at 15:00 the same day is refused, and admitted again at 09:00 the next day. */
  lemma AfternoonRetryRefused()
    ensures SubmittedToday([NewEntry(1, 1, MondayNine, 10, 20, 30)], 1, MondayNine + 6 * 3600)
    ensures !SubmittedToday([NewEntry(1, 1, MondayNine, 10, 20, 30)], 1, MondayNine + SecondsPerDay)
  {
    SecondSubmissionRefused([NewEntry(1, 1, MondayNine, 10, 20, 30)], 0, MondayNine + 6 * 3600);
    assert StartOfToday(MondayNine + SecondsPerDay) == MondayNine - 9 * 3600 + SecondsPerDay;
  }
}

/** A client of the store's registration contract. */
module RegistrationScenario {
  import opened Wrappers
  import opened Records
  import opened ScoreStore

  /**
    Registering an email under one name and then again under another
    renames the one player and creates no second one (the `a@x.com`, "Ana"
    then "Anna" example, for any input).
   */
  method RegisterTwice(rawEmail: string, first: string, second: string) returns (s: Store)
    requires ValidEmail(Text.Strip(rawEmail)) && Text.Strip(first) != [] && Text.Strip(second) != []
    ensures s.players == [Player(1, Text.Strip(second), Some(Text.Strip(rawEmail)))]
  {
    var email := Text.Strip(rawEmail);
    s := new Store();
    assert FindByEmail(s.players, email).None? && FindByName(s.players, Text.Strip(first)).None?;
    var signedUp := s.Register(rawEmail, first);
    assert s.players == [Player(1, Text.Strip(first), Some(email))];
    assert FindByEmail(s.players, email) == Some(0) by {
      assert EmailMatches(s.players[0], email);
    }
    var signedIn := s.Register(rawEmail, second);
  }
}
