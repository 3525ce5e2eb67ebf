/**
  `query_leaderboard`'s aggregate: the entries of a window joined to their
  players, grouped by player, summarised (count, sum of totals, best of each
  round column), ordered by summed total descending and numbered from 1.
 */
module Leaderboard {
  import opened Wrappers
  import opened UtcTime
  import opened Records

  /** The window selector: all time, the current UTC day, the current ISO week. */
  datatype Period = All | Today | Week

  /** Lower bound of the window; all time has none. */
  function Since(period: Period, now: int): Option<int> {
    match period
    case All => None
    case Today => Some(StartOfToday(now))
    case Week => Some(StartOfWeek(now))
  }

  /** `ScoreEntry.played_at >= since`, or every entry when there is no bound. */
  predicate InWindow(e: ScoreEntry, since: Option<int>) {
    since.None? || e.playedAt >= since.value
  }

  /** The entries that join to player `playerId` and fall in the window, kept in store order. */
  function Qualifying(entries: seq<ScoreEntry>, playerId: nat, since: Option<int>): seq<ScoreEntry> {
    if entries == [] then []
    else
      var rest := Qualifying(entries[1..], playerId, since);
      if entries[0].playerId == playerId && InWindow(entries[0], since) then [entries[0]] + rest else rest
  }

  /** An entry is counted for a player exactly when it is stored, belongs to them and lies in the window. */
  lemma {:induction false} QualifyingExactly(entries: seq<ScoreEntry>, playerId: nat, since: Option<int>)
    ensures |Qualifying(entries, playerId, since)| <= |entries|
    ensures forall e :: e in Qualifying(entries, playerId, since) <==>
      e in entries && e.playerId == playerId && InWindow(e, since)
  {
    if entries != [] {
      QualifyingExactly(entries[1..], playerId, since);
      assert forall e :: e in entries <==> e == entries[0] || e in entries[1..];
    }
  }

  /**
    Each entry is counted as often as it is stored when it belongs to the
    player and lies in the window, and not at all otherwise, so the row's
    count and sum see every qualifying row exactly once.
   */
  lemma {:induction false} QualifyingMultiplicity(entries: seq<ScoreEntry>, playerId: nat, since: Option<int>)
    ensures forall e :: multiset(Qualifying(entries, playerId, since))[e] ==
                        (if e.playerId == playerId && InWindow(e, since) then multiset(entries)[e] else 0)
  {
    if entries != [] {
      QualifyingMultiplicity(entries[1..], playerId, since);
      assert entries == [entries[0]] + entries[1..];
      assert multiset(entries) == multiset([entries[0]]) + multiset(entries[1..]);
    }
  }

  /** The three round columns of an entry. */
  datatype Column = Round1 | Round2 | Round3

  function RoundAt(e: ScoreEntry, c: Column): int {
    match c
    case Round1 => e.round1
    case Round2 => e.round2
    case Round3 => e.round3
  }

  /** SQL `max(column)` over a non-empty group: an upper bound that some entry attains. */
  function ColumnMax(es: seq<ScoreEntry>, c: Column): int
    requires |es| > 0
  {
    if |es| == 1 then RoundAt(es[0], c)
    else
      var rest := ColumnMax(es[1..], c);
      if RoundAt(es[0], c) >= rest then RoundAt(es[0], c) else rest
  }

  /** The column maximum bounds the column of every entry in the group, and some entry attains it. */
  lemma {:induction false} ColumnMaxIsMax(es: seq<ScoreEntry>, c: Column)
    requires |es| > 0
    ensures forall e :: e in es ==> RoundAt(e, c) <= ColumnMax(es, c)
    ensures exists e :: e in es && RoundAt(e, c) == ColumnMax(es, c)
  {
    assert es[0] in es;
    if |es| > 1 {
      ColumnMaxIsMax(es[1..], c);
      assert forall e :: e in es <==> e == es[0] || e in es[1..];
      if RoundAt(es[0], c) < ColumnMax(es[1..], c) {
        var e :| e in es[1..] && RoundAt(e, c) == ColumnMax(es[1..], c);
        assert e in es;
      }
    }
  }

  /** SQL `coalesce(sum(total_score), 0)`. */
  function SumTotals(es: seq<ScoreEntry>): int {
    if es == [] then 0 else es[0].totalScore + SumTotals(es[1..])
  }

  /** The sum of totals over well-formed entries is between 0 and 15000 per entry. */
  lemma {:induction false} SumTotalsBounds(es: seq<ScoreEntry>)
    requires forall k :: 0 <= k < |es| ==> WellFormedEntry(es[k])
    ensures 0 <= SumTotals(es) <= 3 * MaxRoundScore * |es|
  {
    if es != [] {
      WellFormedTotalBounds(es[0]);
      SumTotalsBounds(es[1..]);
    }
  }

  /** One result row of the grouped SELECT, before ordering and numbering. */
  datatype Group = Group(
    playerId: nat, playerName: string, count: nat, totalScore: int,
    maxR1: int, maxR2: int, maxR3: int)

  /** The aggregate of a player's non-empty group of entries. */
  function GroupOf(p: Player, es: seq<ScoreEntry>): Group
    requires |es| > 0
  {
    Group(p.id, p.name, |es|, SumTotals(es), ColumnMax(es, Round1), ColumnMax(es, Round2), ColumnMax(es, Round3))
  }

  /** The player has at least one entry in the window, so the inner join keeps them. */
  predicate Joined(p: Player, entries: seq<ScoreEntry>, since: Option<int>) {
    |Qualifying(entries, p.id, since)| > 0
  }

  /** The group of a joined player: the aggregate over exactly their entries in the window. */
  function PlayerGroup(p: Player, entries: seq<ScoreEntry>, since: Option<int>): Group
    requires Joined(p, entries, since)
  {
    GroupOf(p, Qualifying(entries, p.id, since))
  }

  /** Inner join and GROUP BY player: one group per player with at least one entry in the window. */
  function Groups(players: seq<Player>, entries: seq<ScoreEntry>, since: Option<int>): seq<Group> {
    if players == [] then []
    else
      var rest := Groups(players[1..], entries, since);
      if Joined(players[0], entries, since) then [PlayerGroup(players[0], entries, since)] + rest else rest
  }

  /** Every group is the group of some joined player. */
  lemma {:induction false} GroupsSound(players: seq<Player>, entries: seq<ScoreEntry>, since: Option<int>)
    ensures forall g :: g in Groups(players, entries, since) ==>
      exists k :: 0 <= k < |players| && Joined(players[k], entries, since) && g == PlayerGroup(players[k], entries, since)
  {
    if players != [] {
      GroupsSound(players[1..], entries, since);
      var tail := players[1..];
      forall g | g in Groups(players, entries, since)
        ensures exists k :: 0 <= k < |players| && Joined(players[k], entries, since) && g == PlayerGroup(players[k], entries, since)
      {
        if g in Groups(tail, entries, since) {
          var k :| 0 <= k < |tail| && Joined(tail[k], entries, since) && g == PlayerGroup(tail[k], entries, since);
          assert tail[k] == players[k + 1];
        } else {
          assert Joined(players[0], entries, since) && g == PlayerGroup(players[0], entries, since);
        }
      }
    }
  }

  /** Every joined player has their group among the groups. */
  lemma {:induction false} GroupsComplete(players: seq<Player>, entries: seq<ScoreEntry>, since: Option<int>)
    ensures forall k :: 0 <= k < |players| && Joined(players[k], entries, since) ==>
      PlayerGroup(players[k], entries, since) in Groups(players, entries, since)
  {
    if players != [] {
      GroupsComplete(players[1..], entries, since);
      var tail := players[1..];
      assert forall g :: g in Groups(tail, entries, since) ==> g in Groups(players, entries, since);
      forall k | 0 <= k < |players| && Joined(players[k], entries, since)
        ensures PlayerGroup(players[k], entries, since) in Groups(players, entries, since)
      {
        if k > 0 {
          assert tail[k - 1] == players[k];
        }
      }
    }
  }

  /** Every group belongs to a player of the store (the inner join drops nothing else in). */
  lemma {:induction false} GroupsBelongToPlayers(players: seq<Player>, entries: seq<ScoreEntry>, since: Option<int>)
    ensures forall g :: g in Groups(players, entries, since) ==> HasPlayer(players, g.playerId)
  {
    GroupsSound(players, entries, since);
    forall g | g in Groups(players, entries, since) ensures HasPlayer(players, g.playerId) {
      var k :| 0 <= k < |players| && Joined(players[k], entries, since) && g == PlayerGroup(players[k], entries, since);
      assert players[k].id == g.playerId;
    }
  }

  /** A lower bound on the players' ids is one on the groups' ids. */
  lemma {:induction false} GroupIdsAbove(players: seq<Player>, entries: seq<ScoreEntry>, since: Option<int>, bound: int)
    requires forall k :: 0 <= k < |players| ==> bound < players[k].id
    ensures forall g :: g in Groups(players, entries, since) ==> bound < g.playerId
  {
    if players != [] {
      GroupIdsAbove(players[1..], entries, since, bound);
    }
  }

  /** The player ids of a sequence of groups strictly increase. */
  predicate GroupIdsIncreasing(gs: seq<Group>) {
    forall i, j :: 0 <= i < j < |gs| ==> gs[i].playerId < gs[j].playerId
  }

  /** With player ids increasing along the store, the groups' ids increase too: one group per player. */
  lemma {:induction false} GroupsOnePerPlayer(players: seq<Player>, entries: seq<ScoreEntry>, since: Option<int>)
    requires forall i, j :: 0 <= i < j < |players| ==> players[i].id < players[j].id
    ensures GroupIdsIncreasing(Groups(players, entries, since))
  {
    if players != [] {
      var tail := players[1..];
      var rest := Groups(tail, entries, since);
      GroupsOnePerPlayer(tail, entries, since);
      if Joined(players[0], entries, since) {
        GroupIdsAbove(tail, entries, since, players[0].id);
        PrependGroup(PlayerGroup(players[0], entries, since), rest);
      }
    }
  }

  /** A group whose id is below every id of an increasing sequence can go in front of it. */
  lemma PrependGroup(g: Group, rest: seq<Group>)
    requires GroupIdsIncreasing(rest)
    requires forall h :: h in rest ==> g.playerId < h.playerId
    ensures GroupIdsIncreasing([g] + rest)
  {
    var gs := [g] + rest;
    forall i, j | 0 <= i < j < |gs| ensures gs[i].playerId < gs[j].playerId {
      assert gs[j] == rest[j - 1];
      if i > 0 {
        assert gs[i] == rest[i - 1];
      } else {
        assert gs[j] in rest;
      }
    }
  }

  /** `max(max_r1, max_r2, max_r3)`: the best single round of a group. */
  function BestRound(g: Group): int {
    if g.maxR1 >= g.maxR2 && g.maxR1 >= g.maxR3 then g.maxR1
    else if g.maxR2 >= g.maxR3 then g.maxR2
    else g.maxR3
  }

  /** One of the entry's three rounds scored exactly `score`. */
  predicate AttainsRound(e: ScoreEntry, score: int) {
    e.round1 == score || e.round2 == score || e.round3 == score
  }

  /** A group's best round bounds every round of every entry counted in it, and one of them attains it. */
  lemma BestRoundIsMaxOfAllRounds(p: Player, es: seq<ScoreEntry>)
    requires |es| > 0
    ensures forall e :: e in es ==>
      e.round1 <= BestRound(GroupOf(p, es)) && e.round2 <= BestRound(GroupOf(p, es)) && e.round3 <= BestRound(GroupOf(p, es))
    ensures exists e :: e in es && AttainsRound(e, BestRound(GroupOf(p, es)))
  {
    var g := GroupOf(p, es);
    ColumnMaxIsMax(es, Round1);
    ColumnMaxIsMax(es, Round2);
    ColumnMaxIsMax(es, Round3);
    forall e | e in es ensures e.round1 <= BestRound(g) && e.round2 <= BestRound(g) && e.round3 <= BestRound(g) {
      assert RoundAt(e, Round1) <= g.maxR1 && RoundAt(e, Round2) <= g.maxR2 && RoundAt(e, Round3) <= g.maxR3;
    }
    var c := if BestRound(g) == g.maxR1 then Round1 else if BestRound(g) == g.maxR2 then Round2 else Round3;
    var e :| e in es && RoundAt(e, c) == ColumnMax(es, c);
  }

  /** A row of the leaderboard, without the float average. */
  datatype Row = Row(rank: nat, playerName: string, count: nat, totalScore: int, maxRound: int)

  function RowOf(rank: nat, g: Group): Row {
    Row(rank, g.playerName, g.count, g.totalScore, BestRound(g))
  }

  /** `enumerate(rows, start=1)`: the row at position i gets rank i + 1. */
  function Numbered(gs: seq<Group>): seq<Row> {
    seq(|gs|, i requires 0 <= i < |gs| => RowOf(i + 1, gs[i]))
  }

  /** `ORDER BY sum(total_score) DESC`. */
  predicate SortedBySumDesc(gs: seq<Group>) {
    forall i, j :: 0 <= i < j < |gs| ==> gs[i].totalScore >= gs[j].totalScore
  }

  /** Inserts a group after every group with at least its sum. */
  function InsertBySum(g: Group, gs: seq<Group>): (r: seq<Group>)
    requires SortedBySumDesc(gs)
    ensures |r| == |gs| + 1
    ensures SortedBySumDesc(r)
    ensures multiset(r) == multiset(gs) + multiset{g}
    ensures r[0] == g || (gs != [] && r[0] == gs[0])
  {
    if gs == [] then [g]
    else if g.totalScore > gs[0].totalScore then [g] + gs
    else
      var rest := InsertBySum(g, gs[1..]);
      assert gs == [gs[0]] + gs[1..];
      assert gs[0].totalScore >= rest[0].totalScore;
      [gs[0]] + rest
  }

  /**
    One ordering the query engine may produce. Only sortedness and being a
    permutation are promised: nothing about ties is.
   */
  function OrderBySumDesc(gs: seq<Group>): (r: seq<Group>)
    ensures SortedBySumDesc(r)
    ensures multiset(r) == multiset(gs)
  {
    if gs == [] then []
    else
      assert gs == [gs[0]] + gs[1..];
      InsertBySum(gs[0], OrderBySumDesc(gs[1..]))
  }

  /** `rows` is a leaderboard of `groups`: some descending ordering of exactly those groups, numbered from 1. */
  ghost predicate IsRanking(rows: seq<Row>, groups: seq<Group>) {
    exists order: seq<Group> :: multiset(order) == multiset(groups) && SortedBySumDesc(order) && rows == Numbered(order)
  }

  /** Numbering keeps the figures of each group and gives position i the rank i + 1. */
  lemma NumberedAt(order: seq<Group>, i: int)
    requires 0 <= i < |order|
    ensures |Numbered(order)| == |order|
    ensures Numbered(order)[i] == RowOf(i + 1, order[i])
  {
  }

  /** A numbering of a descending ordering of the groups is a ranking of them. */
  lemma NumberedIsRanking(rows: seq<Row>, order: seq<Group>, groups: seq<Group>)
    requires multiset(order) == multiset(groups) && SortedBySumDesc(order)
    requires |rows| == |order|
    requires forall k :: 0 <= k < |order| ==> rows[k] == RowOf(k + 1, order[k])
    ensures IsRanking(rows, groups)
  {
    forall k | 0 <= k < |order| ensures rows[k] == Numbered(order)[k] {
      NumberedAt(order, k);
    }
    assert rows == Numbered(order);
  }

  /** A ranking has one row per group, ranks 1..n without gaps and non-increasing sums. */
  lemma RankingShape(rows: seq<Row>, groups: seq<Group>)
    requires IsRanking(rows, groups)
    ensures |rows| == |groups|
    ensures forall i :: 0 <= i < |rows| ==> rows[i].rank == i + 1
    ensures forall i, j :: 0 <= i < j < |rows| ==> rows[i].totalScore >= rows[j].totalScore
  {
    var order :| multiset(order) == multiset(groups) && SortedBySumDesc(order) && rows == Numbered(order);
    assert |order| == |multiset(order)| == |multiset(groups)| == |groups|;
    forall i | 0 <= i < |rows| ensures rows[i] == RowOf(i + 1, order[i]) {
      NumberedAt(order, i);
    }
  }

  /** Every row of a ranking carries, at its own rank, the figures of one of the groups. */
  lemma RankingRowsAreGroups(rows: seq<Row>, groups: seq<Group>)
    requires IsRanking(rows, groups)
    ensures forall i :: 0 <= i < |rows| ==> exists k :: 0 <= k < |groups| && rows[i] == RowOf(i + 1, groups[k])
  {
    var order :| multiset(order) == multiset(groups) && SortedBySumDesc(order) && rows == Numbered(order);
    forall i | 0 <= i < |rows| ensures exists k :: 0 <= k < |groups| && rows[i] == RowOf(i + 1, groups[k]) {
      NumberedAt(order, i);
      assert order[i] in multiset(order);
      var k :| 0 <= k < |groups| && groups[k] == order[i];
      assert rows[i] == RowOf(i + 1, groups[k]);
    }
  }

  /** Every group appears in some row of a ranking. */
  lemma RankingCoversGroups(rows: seq<Row>, groups: seq<Group>)
    requires IsRanking(rows, groups)
    ensures forall g :: g in groups ==> exists i :: 0 <= i < |rows| && rows[i] == RowOf(i + 1, g)
  {
    var order :| multiset(order) == multiset(groups) && SortedBySumDesc(order) && rows == Numbered(order);
    forall g | g in groups ensures exists i :: 0 <= i < |rows| && rows[i] == RowOf(i + 1, g) {
      assert g in multiset(order);
      var i :| 0 <= i < |order| && order[i] == g;
      NumberedAt(order, i);
    }
  }

  /** The row is player k's figures over exactly their entries in the window, at the given rank. */
  predicate IsPlayerRow(row: Row, rank: nat, players: seq<Player>, entries: seq<ScoreEntry>, since: Option<int>) {
    exists k :: 0 <= k < |players| && Joined(players[k], entries, since) &&
                row == RowOf(rank, PlayerGroup(players[k], entries, since))
  }

  /**
    The leaderboard's promise row by row: row i, ranked i + 1, is one player's
    name with the count, the sum and the best round over exactly that
    player's entries in the window.
   */
  lemma LeaderboardRowsArePlayers(players: seq<Player>, entries: seq<ScoreEntry>, since: Option<int>, rows: seq<Row>)
    requires IsRanking(rows, Groups(players, entries, since))
    ensures forall i :: 0 <= i < |rows| ==> IsPlayerRow(rows[i], i + 1, players, entries, since)
  {
    var gs := Groups(players, entries, since);
    GroupsSound(players, entries, since);
    RankingRowsAreGroups(rows, gs);
    forall i | 0 <= i < |rows| ensures IsPlayerRow(rows[i], i + 1, players, entries, since) {
      var j :| 0 <= j < |gs| && rows[i] == RowOf(i + 1, gs[j]);
      assert gs[j] in gs;
      var k :| 0 <= k < |players| && Joined(players[k], entries, since) && gs[j] == PlayerGroup(players[k], entries, since);
    }
  }

  /** Every player with an entry in the window has a row with their figures at its own rank. */
  lemma LeaderboardCoversPlayers(players: seq<Player>, entries: seq<ScoreEntry>, since: Option<int>, rows: seq<Row>)
    requires IsRanking(rows, Groups(players, entries, since))
    ensures forall k :: 0 <= k < |players| && Joined(players[k], entries, since) ==>
      exists i :: 0 <= i < |rows| && rows[i] == RowOf(i + 1, PlayerGroup(players[k], entries, since))
  {
    var gs := Groups(players, entries, since);
    GroupsComplete(players, entries, since);
    RankingCoversGroups(rows, gs);
  }

  /** The today window lies in the week window, which lies in all time. */
  lemma WindowsNested(entries: seq<ScoreEntry>, playerId: nat, now: int, e: ScoreEntry)
    ensures e in Qualifying(entries, playerId, Since(Today, now)) ==> e in Qualifying(entries, playerId, Since(Week, now))
    ensures e in Qualifying(entries, playerId, Since(Week, now)) ==> e in Qualifying(entries, playerId, Since(All, now))
    ensures e in Qualifying(entries, playerId, Since(Today, now)) ==> e.playedAt >= StartOfToday(now)
    ensures e in Qualifying(entries, playerId, Since(Week, now)) ==> e.playedAt >= StartOfWeek(now)
  {
    QualifyingExactly(entries, playerId, Since(Today, now));
    QualifyingExactly(entries, playerId, Since(Week, now));
    QualifyingExactly(entries, playerId, Since(All, now));
  }

  /** With no tie on the sum, the ordering is forced: the higher sum takes rank 1. */
  lemma TwoPlayersRanked(rows: seq<Row>, lower: Group, higher: Group)
    requires lower.totalScore < higher.totalScore
    requires IsRanking(rows, [lower, higher])
    ensures rows == [RowOf(1, higher), RowOf(2, lower)]
  {
    var order :| multiset(order) == multiset([lower, higher]) && SortedBySumDesc(order) && rows == Numbered(order);
    assert |order| == |multiset(order)| == 2;
    assert order[0] in multiset(order) && order[1] in multiset(order);
    assert order == [higher, lower];
  }
}
