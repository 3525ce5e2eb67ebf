# GeoGuessr leaderboard — a verified model of the backend core

The backend keeps two tables. A **player** has an id, a display name and an
optional email. A **score entry** records one played game: three round scores
between 0 and 5000, their total, and the UTC instant it was played.

This project models the part of `backend/main.py` that decides what is
stored and what is shown:

- **UTC boundaries.** `start_of_today_utc` is midnight of the current UTC day.
  `start_of_week_utc` is midnight of the most recent Monday. Instants are
  whole seconds since the epoch, and the weekday is computed as Python's
  `weekday()` computes it (Monday is 0).
- **The once-per-UTC-day rule.** Both submission paths refuse a second entry
  from the same player when that player already has an entry at or after
  today's midnight.
- **Form submission** (`submit_form_post`). The checks run in this order:
  signed in, then the daily limit, then each round in 0..5000. Only then is
  one entry stored, and its total is the sum of the three rounds.
- **JSON submission** (`api_submit_entry`). Schema validation comes first.
  Then the player is looked up by case-insensitive name and created, without
  an email, when none matches. Then the daily limit applies, then the insert.
- **Registration** (`register_post`). Email and name are stripped and
  checked. Then the player is resolved in three steps:
  1. By case-insensitive email: that player is renamed.
  2. Else by case-insensitive name: that player is given the email.
  3. Else a new player is created.

  The session receives the email and the resolved player's name.
- **The leaderboard** (`query_leaderboard`). Entries are inner-joined to
  players and filtered by the period's window (all, today, this week). They
  are grouped per player, with the entry count, summed total and per-round
  maxima. Groups are ordered by summed total, descending, and ranked from 1.
  Each row's best round is the largest round score of any of the player's
  entries in the window.

Modules:

- `UtcTime` holds the day and week boundaries.
- `Text` holds Python's `str.strip()` and ASCII lower-casing.
- `Records` holds the two record shapes, the lookups, the daily gate and its
  invariant.
- `Leaderboard` holds the window filter, the grouping, the ordering and the
  ranking.
- `ScoreStore` holds the class `Store`. It owns the two tables, as sequences
  in id order, and the next ids to hand out. Its methods are the request
  handlers.
- `Scenarios` and `RegistrationScenario` work through the leaderboard and
  registration on small concrete and symbolic stores.

The clock is a parameter. Each handler receives one instant `now`, which is
used both for the limit check and as the entry's timestamp. The leaderboard
query receives `now` as well.

The ranking is stated as `Leaderboard.IsRanking`: some ordering of exactly
the player groups, by summed total descending, numbered from 1, equals the
rows. No order is promised between players with equal sums. SQL gives none
either.

The store is a class whose methods keep the invariant `Store.Valid()`:

- ids are unique and below the next ids;
- every entry belongs to a player;
- every entry's rounds are in range and its total is their sum;
- no player has two entries in the same UTC day (`Records.AtMostOncePerDay`);
- names are non-empty;
- emails contain '@'.

In the model, the once-per-day part holds whatever the clock does, including
when it steps back between requests. An entry is stored only after the gate
has found none of the player's entries at or after today's midnight. So all of
the player's stored entries lie in earlier days. The source reads the clock
twice within one request; what that changes is under "Left out".

## Model

| member | source | states |
|---|---|---|
| UtcTime.Weekday | backend/main.py:128-131 | the weekday used by the week start is always one of 0..6 |
| UtcTime.EpochWeekdays | backend/main.py:128-131 | weekday numbering agrees with Python's: 1970-01-01 is a Thursday (3), 1970-01-05 a Monday (0) |
| UtcTime.WeekdayOfItsDay | backend/main.py:128-131 | an instant in the middle of a day has the weekday of that day's midnight |
| UtcTime.WeekdayNextDay | backend/main.py:128-131 | the weekday advances by one per day and Sunday wraps to Monday |
| UtcTime.StartOfToday | backend/main.py:124-125 | the result is a midnight, not after `t`, and less than one day before it |
| UtcTime.StartOfTodayUnique | backend/main.py:124-125 | that midnight is the only one with this property, so it is exactly the start of `t`'s UTC day |
| UtcTime.SameUtcDay | backend/main.py:124-125 | every instant in the same UTC day has the same start of day |
| UtcTime.StartOfWeek | backend/main.py:128-131 | the result is a Monday midnight, at most six days before today's midnight and less than a week before `t`; on a Monday it is today's midnight |
| UtcTime.StartOfWeekIsLatestMonday | backend/main.py:128-131 | no Monday midnight that is not after `t` lies after the week start, so the week start is the latest Monday midnight |
| Text.IsSpace | backend/main.py:274-275 | the characters `str.strip()` removes: those for which Python's `isspace()` holds (ASCII whitespace, the separators 28..31, NEL, no-break space and the Unicode space and line/paragraph separators) |
| Text.SkipSpaceFrom | backend/main.py:274-275 | the forward scan stops at the first non-whitespace character at or after `i`, or at the end |
| Text.SkipSpaceBack | backend/main.py:274-275 | the backward scan stops just after the last non-whitespace character before `j`, or at `lo` |
| Text.Strip | backend/main.py:274-275 | the result is a contiguous slice of the input; what was cut off on either side is all whitespace; a non-empty result neither starts nor ends with whitespace |
| Text.StripEmptyIffBlank | backend/main.py:276-279 | stripping yields the empty string exactly when the input is all whitespace, which is when the 400 "required" checks reject |
| Text.StripKeepsTrimmed | backend/main.py:274-275 | a string with no whitespace at either end is unchanged by stripping |
| Text.StripIdempotent | backend/main.py:274-275 | stripping twice is stripping once |
| Text.FoldAlike | backend/main.py:282 | two characters compare equal after folding exactly when they are equal or one is the upper-case ASCII letter of the other |
| Text.Lower | backend/main.py:282 | lower-casing keeps the length and lower-cases each position independently |
| Text.EqualsIgnoreCase | backend/main.py:282 | the case-insensitive comparison of the lookups: the two strings have the same lower-cased form |
| Text.EqualsIgnoreCasePointwise | backend/main.py:282 | two strings are equal ignoring case exactly when they have the same length and every pair of characters at the same position folds alike |
| Text.LowerIdempotent | backend/main.py:282 | lower-casing twice is lower-casing once, so comparing lower-cased values is an equivalence |
| Records.NewEntry | backend/main.py:251-259 | the entry both submission paths store: the given player and instant, the three rounds, and their sum as the total (also lines 365-373) |
| Records.RoundsInRange | backend/main.py:248 | each of the three rounds lies in 0..5000, the form's range check and the bounds of the JSON schema (lines 114-116) |
| Records.WellFormedEntry | backend/main.py:251-258 | the shape of every stored entry: rounds in range and the total equal to their sum |
| Records.WellFormedTotalBounds | backend/main.py:248-251 | the stored total of an entry whose rounds passed the range check lies in 0..15000 |
| Records.EmailMatches | backend/main.py:282 | a player matches an email when they have one and it equals the email ignoring case; a player without an email never matches |
| Records.NameMatches | backend/main.py:290 | a player matches a name when their name equals it ignoring case (also the JSON path's lookup, line 352) |
| Records.FindByEmail | backend/main.py:282 | Some(i) is the first player whose email matches case-insensitively; None exactly when no player's email matches |
| Records.FindByName | backend/main.py:290 | Some(i) is the first player whose name matches case-insensitively; None exactly when no name matches |
| Records.FindByEmailSeesOnlyEmails | backend/main.py:283-287 | changing players' names but not their emails leaves the email lookup's answer unchanged |
| Records.HasEntrySince | backend/main.py:235-237 | the gate's query: some stored entry of the player was played at or after the given instant |
| Records.SubmittedToday | backend/main.py:234-238 | the gate refuses: the player has an entry at or after midnight of `now`'s UTC day (the same query at lines 212-216 and 358-362) |
| Records.AtMostOncePerDay | backend/main.py:234-239 | the rule the gate keeps: no two entries of one player lie in the same UTC day |
| Records.GateIsSameDay | backend/main.py:212-216 | the `played_at >= today` query finds an entry exactly when, in a table with no entry after `now`, the player has an entry in the current UTC day |
| Records.SecondSubmissionRefused | backend/main.py:234-239 | once a player has an entry at instant t, the gate refuses that player at every later instant of the same UTC day |
| Records.AdmitKeepsOncePerDay | backend/main.py:234-261 | appending an entry stamped `now` for a player the gate admitted keeps every player to at most one entry per UTC day, whatever the clock did, given that the table already keeps the rule |
| Leaderboard.Since | backend/main.py:143-148 | the window start: none for all time, today's midnight for today, the week's Monday midnight for this week |
| Leaderboard.InWindow | backend/main.py:162-163 | an entry lies in the window when there is no start or it was played at or after the start |
| Leaderboard.Qualifying | backend/main.py:160-163 | the joined, filtered rows of one player: that player's entries in the window, in store order |
| Leaderboard.QualifyingExactly | backend/main.py:160-163 | an entry is in a player's window exactly when it belongs to that player and is at or after the window start (every entry, for the all-time window) |
| Leaderboard.QualifyingMultiplicity | backend/main.py:160-163 | each entry occurs in a player's rows as often as it is stored when it belongs to the player and lies in the window, and not at all otherwise |
| Leaderboard.ColumnMax | backend/main.py:156-158 | SQL `max` of one round column over a non-empty group |
| Leaderboard.ColumnMaxIsMax | backend/main.py:156-158 | the column maximum bounds that round of every entry in the group and is attained by one of them |
| Leaderboard.SumTotals | backend/main.py:154 | the sum of the entries' totals, 0 for no entries |
| Leaderboard.SumTotalsBounds | backend/main.py:154 | the summed total of well-formed entries lies between 0 and 15000 times their number |
| Leaderboard.GroupOf | backend/main.py:150-158 | one result row of the grouped select: the player's id and name, the number of entries, their summed total and the three column maxima |
| Leaderboard.Joined | backend/main.py:160 | the inner join keeps a player exactly when they have at least one entry in the window |
| Leaderboard.PlayerGroup | backend/main.py:150-163 | the aggregate over exactly the player's entries in the window |
| Leaderboard.Groups | backend/main.py:150-165 | the grouped select, before ordering: one aggregate per player that has entries in the window |
| Leaderboard.GroupsSound | backend/main.py:160-165 | every group produced is the aggregate of a player who has at least one entry in the window, so players without one yield none (inner join) |
| Leaderboard.GroupsComplete | backend/main.py:160-165 | every player with at least one entry in the window has their aggregate among the groups |
| Leaderboard.GroupsBelongToPlayers | backend/main.py:160 | every group's player id is an existing player's id |
| Leaderboard.GroupsOnePerPlayer | backend/main.py:165 | with unique, increasing player ids the groups have strictly increasing ids: one group per player |
| Leaderboard.BestRound | backend/main.py:170 | `max_round`: the largest of the three column maxima |
| Leaderboard.BestRoundIsMaxOfAllRounds | backend/main.py:156-170 | a group's best round bounds every round score of every entry in the group and equals one of them |
| Leaderboard.SortedBySumDesc | backend/main.py:165 | `ORDER BY sum(total_score) DESC`: no group has a larger sum than one before it |
| Leaderboard.InsertBySum | backend/main.py:165 | inserting into a list sorted by summed total descending keeps it sorted and adds exactly that group |
| Leaderboard.OrderBySumDesc | backend/main.py:165 | the groups come out sorted by summed total descending and are a permutation of the input |
| Leaderboard.RowOf | backend/main.py:171-180 | one output row: the rank, the player name, the count, the summed total and the best round |
| Leaderboard.Numbered | backend/main.py:169-180 | the rows of an ordered list of groups, ranked 1, 2, … in order |
| Leaderboard.IsRanking | backend/main.py:165-181 | what the returned rows are: some ordering of exactly the groups, by sum descending, numbered from 1; ties may come in either order |
| Leaderboard.NumberedIsRanking | backend/main.py:165-181 | numbering a descending permutation of the groups from 1 yields a ranking of those groups |
| Leaderboard.RankingShape | backend/main.py:168-181 | a ranking has one row per group, rank i+1 at position i, and non-increasing totals |
| Leaderboard.RankingRowsAreGroups | backend/main.py:168-181 | every ranked row carries, at its own rank, the name, count, total and best round of one of the groups (named by its index) |
| Leaderboard.RankingCoversGroups | backend/main.py:168-181 | every group appears as a row of the ranking |
| Leaderboard.IsPlayerRow | backend/main.py:169-180 | a row at a given rank is some joined player's name, count, sum and best round over exactly that player's entries in the window |
| Leaderboard.LeaderboardRowsArePlayers | backend/main.py:141-181 | every row of the leaderboard, at rank i + 1, is one player's figures over exactly that player's entries in the window |
| Leaderboard.LeaderboardCoversPlayers | backend/main.py:141-181 | every player with an entry in the window has a row carrying their figures at its own rank |
| Leaderboard.WindowsNested | backend/main.py:143-148 | an entry in today's window is in this week's window, and one in this week's window is in the all-time window |
| Leaderboard.TwoPlayersRanked | backend/main.py:165-181 | of two groups with different sums, the larger sum is ranked 1 and the smaller ranked 2 |
| ScoreStore.ValidEmail | backend/main.py:276-277 | the negation of the rejection: the stripped email is non-empty and contains '@' |
| ScoreStore.ApiPayloadValid | backend/main.py:112-116 | the JSON schema: a name of 1 to 80 characters and three rounds in 0..5000 |
| ScoreStore.Store.Valid | backend/main.py:55-77 | the store invariant: unique ids below the next ones, every entry joined to a player and well formed, at most one entry per player per UTC day, non-empty names, and an '@' in every email |
| ScoreStore.Store.constructor | backend/main.py:55-81 | an empty database satisfies the store invariant and hands out id 1 first |
| ScoreStore.Store.AddEntry | backend/main.py:251-261 | for a player the gate admitted, the new entry is appended with the next id, `now` and the summed total; the invariant, once-per-day included, holds whatever the clock did; the gate refuses the player for the rest of the day |
| ScoreStore.Store.SubmitForm | backend/main.py:221-262 | not signed in gives the login redirect; else an entry today gives the limit redirect; else a round out of range gives 400; exactly in the remaining case one entry is saved; players never change and entries change only when saved |
| ScoreStore.Store.SubmitApi | backend/main.py:349-376 | a payload failing the schema changes nothing; an unknown name creates a player with no email and stores the entry; a known name stores under that player unless the player already submitted today (409, nothing stored) |
| ScoreStore.Store.Register | backend/main.py:271-317 | a bad email or a blank name changes nothing; otherwise exactly one of rename-by-email, attach-email-by-name or create happens; the session's name is the resolved player's; a lookup by the session email then finds a player of that name |
| ScoreStore.Store.Rename | backend/main.py:283-287 | only the matched player's name changes, to the new name, and the email still finds that player |
| ScoreStore.Store.AttachEmail | backend/main.py:290-295 | only the name-matched player's email changes, and the email now finds that player |
| ScoreStore.Store.CreatePlayer | backend/main.py:297-301 | a new player with the next id is appended; no entry belongs to it yet; the email, when new, finds it |
| ScoreStore.Store.QueryLeaderboard | backend/main.py:141-181 | the rows are a ranking of exactly the player groups of the period's window: one row per group, ranks 1.., totals non-increasing |
| ScoreStore.NumberRows | backend/main.py:168-181 | row k is group k with rank k+1, for every k |
| Scenarios.FirstGameInEveryWindow | backend/main.py:141-181 | on a store holding one registered player's first game, built as the submission paths build it, every window's grouped select holds exactly that player's aggregate, with count 1, the computed total 60 and best round 30 |
| Scenarios.FirstGameRanked | backend/main.py:141-181 | on that store, whatever the period, the leaderboard rows are exactly Ana ranked 1 with count 1, total 60 and best round 30 |
| Scenarios.AfternoonRetryRefused | backend/main.py:234-239 | a game at 09:00 makes the gate refuse the same player at 15:00 the same Monday, and admit them the next day |
| RegistrationScenario.RegisterTwice | backend/main.py:281-301 | registering the same email twice with different names leaves one player, carrying the second name and the email |

## Left out

- The web layer is out: FastAPI routing, templates, redirects as HTTP responses, the session middleware, `GET /login`, `POST /login`, `logout` and `health`.
  Outcomes are datatype constructors. The signed-in player (`current_user`) is a parameter of `SubmitForm`.
- The database engine is out: table creation, the `email` column migration and indexes, transactions and commit/rollback.
  The tables are sequences. Ids are handed out from a counter starting at 1, as SQLite's rowid does for a fresh table.
- Concurrency is out, and with it the race between two simultaneous submissions that both pass the daily check.
- The clock is out. The source calls `utcnow()` once for the limit check and again for `played_at`. The model uses one instant `now` for both. So the once-per-day invariant holds in the model for any clock. In the source, a clock step backwards between those two calls can stamp an entry in the day before the one just checked, and that can put two entries of one player in one UTC day.
  Timestamps have whole-second resolution; microseconds are dropped.
- Weekday or week start before 1970: nothing is lost. The arithmetic is the same as Python's for any instant Python's `datetime` can represent (years 1 to 9999). Outside that range the source raises and the model does not.
- The `IntegrityError` branch of registration (lines 302-313) is out. It is reached only on legacy databases with a UNIQUE constraint on names.
  In the model's schema the insert never fails, so the branch is unreachable.
- Records.FindByEmail and Records.FindByName return the first match. The source's `scalar_one_or_none` raises when several rows match. The model does not capture that error.
- Text.Lower folds only ASCII letters. This matches SQLite's `lower()`. Python's `.lower()` on the other side of the comparison is Unicode-aware.
  The two differ only for names and emails with non-ASCII letters.
- Form-field and JSON coercion to int is out: FastAPI's `int` parsing and Pydantic's type errors. The rounds arrive as integers.
  Schema failures of the JSON path are the single outcome `Unprocessable`.
- The `average_score` column is out. It is a floating-point average.
- The integer width of SQLite columns is not modelled. Integers are unbounded, and every value of an integer round or total column is within 0..15000. Ids and timestamps are unbounded.
- The `GET /submit` page is not a separate operation. Its `limit_reached` flag is `Records.SubmittedToday`, the same predicate the POST uses.
- ScoreStore.Store.Register: the store invariant requires a non-empty name. The source does not enforce the 80-character name limit on this path, and neither does the model.
