# Tournament backend core, modelled in Dafny

This project models the core of a tournament-management backend. Teams register into one of two
groups. An administrator submits batches of match results. The server computes the standings of
each group for a round.

The model covers five parts of the backend:

- **The standings computation** (`MatchController.get_match_rankings`). Result rows are paired by
  match id and tallied into goals, wins, draws and losses. Roster teams that have not played are
  added with zeros. Each group is sorted by the four-part ranking key: points, goals, alternate
  points, then earlier registration. A backward pass assigns `position`, `is_tied` and
  `is_qualified`.
- **The batch result write path** (`MatchController.create_results`). It runs pre-lock checks,
  takes the match lock, checks the fixtures already stored for the round, then creates the matches
  and two result rows per fixture in one transaction. The lock is released on every exit. A commit
  that raises is rolled back and answered with a 500.
- **The older write path** (`MatchResultsController.create_results`), where the client chooses the
  match ids. Its second commit calls `commit_transaction` on `MatchResultsRepository`, which does
  not define it. So once the first commit has made the batch permanent, the call answers 500: it
  never returns True.
- **The lease lock** (`DistributedLock`): `get` is set-if-absent with a per-instance token, retried
  until a timeout; `give` is compare-and-delete.
- **The request validators**: team names, DD/MM registration dates in the leap year 1972, group
  numbers, usernames, passwords, roles, result pairs and round numbers.

The state that the source changes in place is modelled with classes:
- the key-value store and the lock (`Lock.KeyValueStore`, `Lock.DistributedLock`);
- the database session with its open transaction (`Store.Database`);
- the two controllers.

Loops of the source are methods with loop invariants. Each one is proved equal to a specification
function, and the lemmas state what that function means. The answers of the repositories and of
the store are inputs of the model.

Module layout:
- `Validation`: shared `Checked`/`Option` results and character classes.
- One module per schema file: `TeamSchema`, `UserSchema`, `MatchResultsSchema`,
  `GameMatchSchema`, `RankSchema`.
- `Lock`.
- The standings:
  - `Tally`: pairing and tallying;
  - `RankingOrder`: key and stable sort;
  - `Positions` and `PositionFacts`: the backward pass;
  - `Standings`: grouping and the response;
  - `StandingsFacts`: what the response means.
- The write paths:
  - `Store`: tables and the transaction;
  - `BatchChecks`: the batch scan;
  - `MatchWrite`: the specification of `create_results`;
  - `MatchCore`: the controller;
  - `MatchResultsPath`: the older controller.

## Model

| member | source | states |
|---|---|---|
| Validation.StripSeparators | backend/src/schemas/team.py:29 | removing spaces, hyphens and underscores keeps only characters of the input and leaves no separator |
| Validation.StrippedIsAlnumIff | backend/src/schemas/team.py:29 | the stripped name is non-empty and alphanumeric exactly when every character is a letter, digit or separator and at least one is a letter or digit |
| TeamSchema.ValidateTeamName | backend/src/schemas/team.py:20-31 | empty and over-50 names are rejected with their messages; a name is accepted iff it has 1..50 characters and is alphanumeric after stripping; a separators-only name is rejected; an accepted name is returned unchanged |
| TeamSchema.DaysInMonth1972 | backend/src/schemas/team.py:41-46 | every month of 1972 has 29..31 days, and only February has 29 |
| TeamSchema.TwoDigitValue | backend/src/schemas/team.py:39 | two digits read as a number in 0..99 |
| TeamSchema.ValidateRegistrationDate | backend/src/schemas/team.py:34-47 | accepted iff the text is five characters DD/MM with two numeric halves naming a real day and month of 1972; accepted text is returned unchanged; every rejection has the format message |
| TeamSchema.FormattedDateAccepted | backend/src/schemas/team.py:34-47 | every real day of 1972, written as DD/MM, is accepted and reads back as the same day and month |
| TeamSchema.AcceptedDateIsFormatted | backend/src/schemas/team.py:34-47 | every accepted date is a real day of 1972 and is exactly the DD/MM rendering of its own day and month |
| TeamSchema.DateExamples | backend/src/schemas/team.py:41-46 | 29/02 is accepted; 30/02, 31/04, 00/05, 10/13 and 1/2/3 are rejected |
| TeamSchema.ValidateGroupNumber | backend/src/schemas/team.py:50-56 | accepted iff the group is 1 or 2, returned unchanged |
| UserSchema.LowerChar | backend/src/schemas/user.py:16-18 | lower-casing leaves no upper-case letter, keeps letters/digits and separators in their class, and fixes everything else |
| UserSchema.Lower | backend/src/schemas/user.py:16-18 | lower-casing a string keeps its length and lower-cases each character in place |
| UserSchema.LowerIsLower | backend/src/schemas/user.py:16-18 | a lower-cased string has no upper-case letter, and lower-casing twice equals lower-casing once |
| UserSchema.MakeLower | backend/src/schemas/user.py:16-18 | `make_lower` always succeeds with a same-length value free of upper-case letters |
| UserSchema.CheckUsername | backend/src/schemas/user.py:20-31 | the username check accepts iff the value has 1..50 characters and is alphanumeric after stripping, and returns it unchanged |
| UserSchema.ValidateUsername | backend/src/schemas/user.py:16-32 | the two username validators in order: an accepted username had 1..50 characters and is stored lower-cased; an empty or over-50 value is rejected with its message |
| UserSchema.LowerKeepsCharClasses | backend/src/schemas/user.py:16-31 | lower-casing changes neither whether all characters are name characters nor whether some is alphanumeric |
| UserSchema.UsernameAcceptance | backend/src/schemas/user.py:16-31 | the two username validators in sequence accept iff the raw input has 1..50 characters and is alphanumeric after stripping; the stored value is the lower-cased input; the raw and lower-cased inputs are judged alike |
| UserSchema.ValidatePassword | backend/src/schemas/user.py:33-41 | accepted iff the password has 1..72 characters, returned unchanged |
| UserSchema.ParseUserRole | backend/src/schemas/user.py:5-8 | only "player", "manager" and "admin" parse, each to the role with that name |
| UserSchema.RoleNameRoundTrip | backend/src/schemas/user.py:5-8 | every role's name parses back to the role |
| UserSchema.ValidateUserRole | backend/src/schemas/user.py:50-56 | every parsed role passes the role check unchanged |
| UserSchema.ValidateSessionTeamId | backend/src/schemas/user.py:63-69 | a session value is rejected iff its role is player or manager and it has no team id; otherwise it is returned unchanged |
| MatchResultsSchema.ValidateResult | backend/src/schemas/match_results.py:14-20 | a result list is accepted iff it has exactly two entries, and is returned unchanged |
| MatchResultsSchema.ValidateResults | backend/src/schemas/match_results.py:25-31 | a batch is accepted iff it is non-empty, and is returned unchanged |
| GameMatchSchema.ValidateRoundNumber | backend/src/schemas/game_match.py:8-14 | a round number is accepted iff it lies in 1..3, and is returned unchanged |
| GameMatchSchema.ValidateGameMatch | backend/src/schemas/game_match.py:8-18 | a game match (and so a `CreateGameMatch`) is accepted iff its round lies in 1..3, and is returned unchanged |
| GameMatchSchema.ValidateCreateGameMatch | backend/src/schemas/game_match.py:16-18 | `CreateGameMatch` runs exactly the base check: accepted iff its round lies in 1..3, and returned unchanged |
| GameMatchSchema.ValidateBatchCreateGameMatch | backend/src/schemas/game_match.py:20-21 | a batch is accepted iff every element passes the round check; a rejection carries the message of a failing element |
| GameMatchSchema.BatchRoundsInRange | backend/src/schemas/game_match.py:16-21 | a batch is accepted iff every round in it lies in 1..3 |
| RankSchema.NewTeamRank | backend/src/schemas/rank.py:4-14 | a rank built without `is_qualified` is not qualified, and keeps every field it was given |
| RankSchema.ValidateRankingRound | backend/src/schemas/rank.py:24-30 | a ranking round is accepted iff it lies in 1..3, and is returned unchanged |
| Lock.Visible | backend/src/redis/lock.py:27 | a GET sees a value iff the key is present and its expiry is still ahead of the clock |
| Lock.FreeStaysFree | backend/src/redis/lock.py:26-30 | a key that is free at some time stays free later while nobody writes it |
| Lock.AfterGive | backend/src/redis/lock.py:34-41 | compare-and-delete removes the key iff it is visible with the caller's token and that token is not empty (an empty value reads as false); otherwise the store is unchanged |
| Lock.GiveTwiceHarmless | backend/src/redis/lock.py:34-41 | after one give a non-empty caller token is no longer visible, and a second give changes nothing |
| Lock.ReleaseAfterHold | backend/src/redis/lock.py:27-40 | a lock just written by its holder with a non-empty token is removed by the holder's first give, leaving the store as before the write apart from the lock key; later gives change nothing |
| Lock.GiveRespectsOwnership | backend/src/redis/lock.py:17-19 | a give by one token never removes a lock visible with another token |
| Lock.KeyValueStore.SetIfAbsent | backend/src/redis/lock.py:27 | SET NX EX writes the entry with expiry now+ttl iff the key is free, and reports whether it wrote |
| Lock.KeyValueStore.Get | backend/src/redis/lock.py:37 | GET returns the visible value |
| Lock.KeyValueStore.Delete | backend/src/redis/lock.py:39 | DELETE removes exactly that key |
| Lock.KeyValueStore.Sleep | backend/src/redis/lock.py:30 | sleeping advances only the clock, by the interval |
| Lock.DistributedLock.constructor | backend/src/redis/lock.py:13-19 | a lock keeps its key, its positive ttl and its own token, which is never empty (a uuid4 string) |
| Lock.DistributedLock.Get | backend/src/redis/lock.py:21-31 | on success: the key holds this instance's token with the instance ttl, written at the first poll that found the key free, strictly before the timeout. On failure: the store is unchanged, the clock stopped within one interval past the timeout, and the key was still taken at the last poll |
| Lock.DistributedLock.Give | backend/src/redis/lock.py:34-41 | returns true iff this instance held the lock with a non-empty token, and the store becomes the compare-and-delete of its token |
| Lock.LockKeysIndependent | backend/src/redis/lock.py:8-9 | the team and match lock keys differ, so writing the team lock never changes whether the match lock is free |
| Tally.FirstSeen | backend/src/controllers/match_core.py:156-158 | the match-maker map holds, for each match id among the rows, a row of that match |
| Tally.Pairs | backend/src/controllers/match_core.py:156-161 | at most one pair per row is formed |
| Tally.PairsShareMatch | backend/src/controllers/match_core.py:156-161 | every pair joins the first row of a match with a later row of the same match |
| Tally.PairCount | backend/src/controllers/match_core.py:156-161 | every row is either the first of its match or makes exactly one pair |
| Tally.Sides | backend/src/controllers/match_core.py:166-176 | a team takes part in a pair at most twice |
| Tally.Contribution | backend/src/controllers/match_core.py:166-176 | a pair gives each of its sides one outcome: the higher scorer a win and the other a loss, equal goals a draw each; goals are the side's own |
| Tally.OutcomesCoverPlayed | backend/src/controllers/match_core.py:156-176 | each team's wins, draws and losses add up to the number of pairs it played, and no count is negative |
| Tally.ZeroTotal | backend/src/controllers/match_core.py:156-176 | a team that played no pair has all-zero totals |
| Tally.AddOnceDistinct | backend/src/controllers/match_core.py:164-165 | `setdefault` adds a team to the insertion order at most once |
| Tally.TeamsInOrder | backend/src/controllers/match_core.py:164-165 | the teams with a rank are exactly those that played at least one pair |
| Tally.TeamsInOrderDistinct | backend/src/controllers/match_core.py:164-165 | no team appears twice in the tally's insertion order |
| Tally.FirstMention | backend/src/controllers/match_core.py:162-165 | the row a team entered the tally through is one of that team's rows |
| Tally.RankOf | backend/src/controllers/match_core.py:162-176 | a team's tallied line has its totals over all pairs, the name and registration day of its first row, and no flags set |
| Tally.TallyOf | backend/src/controllers/match_core.py:156-176 | the tally has a line exactly for the teams that played a pair |
| Tally.GroupsOf | backend/src/controllers/match_core.py:162-163 | the group map has a group exactly for the teams that played a pair |
| Tally.TalliedIsDetermined | backend/src/controllers/match_core.py:156-176 | a loop state that satisfies the tally invariant is exactly the tally and group map of the pairs |
| Tally.TallyIsDetermined | backend/src/controllers/match_core.py:156-176 | a `team_rank_mapper` keyed by the teams of the pairs, each holding its tallied line, is exactly the tally of the pairs |
| Tally.GroupsAreDetermined | backend/src/controllers/match_core.py:156-176 | a `group_mapper` keyed by the teams of the pairs, each holding its first-mention group, is exactly the group map of the pairs |
| Tally.Fresh | backend/src/controllers/match_core.py:164-165 | a new line starts with zero goals, wins, draws and losses |
| Tally.Credit | backend/src/controllers/match_core.py:166-176 | crediting adds exactly the contribution to each counter and leaves the identity fields alone |
| Tally.RankOfStep | backend/src/controllers/match_core.py:162-176 | after one more pair, a team's line is its previous (or fresh) line credited with that pair's contribution |
| Tally.EnterPair | backend/src/controllers/match_core.py:164-165 | both sides get a line; existing lines are kept and new ones are fresh |
| Tally.EnterPairGroups | backend/src/controllers/match_core.py:162-163 | both sides get a group; existing groups are kept and new ones come from the side's row |
| Tally.Enter | backend/src/controllers/match_core.py:162-165 | entering a side's row adds it to the order, the tally and the group map only when absent |
| Tally.ScorePair | backend/src/controllers/match_core.py:166-176 | scoring a pair credits every line with its contribution and adds no team |
| Tally.ScoreGoals | backend/src/controllers/match_core.py:166-167 | each side adds exactly its own goals to its team's line; no other counter or team changes |
| Tally.ScoreOutcome | backend/src/controllers/match_core.py:168-176 | the higher scorer's line gains a win and the other a loss, or both gain a draw; goals and other teams are unchanged |
| Tally.TalliedStep | backend/src/controllers/match_core.py:160-176 | entering and scoring one more pair preserves the tally invariant |
| Tally.ScanStep | backend/src/controllers/match_core.py:156-161 | each row either records its match as first seen or forms the next pair |
| Tally.TallyRow | backend/src/controllers/match_core.py:156-176 | one iteration of the row loop keeps the match maker equal to the first-seen map and the tally invariant over the pairs so far |
| Tally.TallyResults | backend/src/controllers/match_core.py:156-176 | the row loop ends with the tally invariant over all pairs of the rows |
| RankingOrder.KeyOf | backend/src/controllers/match_core.py:190 | a line's sort key is (3·wins + draws, goals, 5·wins + 3·draws + losses, minus registration day) |
| RankingOrder.KeyGETotalOrder | backend/src/controllers/match_core.py:190 | the key order is reflexive, total, antisymmetric and transitive |
| RankingOrder.SameKeyIsKeyEquality | backend/src/controllers/match_core.py:197 | the four-field tie test holds exactly when the two keys are equal |
| RankingOrder.Insert | backend/src/controllers/match_core.py:190 | inserting into a sorted list gives a sorted permutation with one more element |
| RankingOrder.SortByKey | backend/src/controllers/match_core.py:190 | the sort returns a permutation in non-increasing key order |
| RankingOrder.InsertStable | backend/src/controllers/match_core.py:190 | inserting a line into a sorted list puts it just before the lines with the same key, whose order is kept |
| RankingOrder.SortIsStable | backend/src/controllers/match_core.py:190 | lines with equal keys keep their original relative order, as Python's stable sort keeps them |
| Positions.RunEnd | backend/src/controllers/match_core.py:196-205 | the end of a team's run of equal keys is at or after it and is the list end or before a different key |
| Positions.RankedAt | backend/src/controllers/match_core.py:191-207 | the backward pass rewrites only position and flags: key, id and name are kept |
| Positions.Ranked | backend/src/controllers/match_core.py:191-207 | the ranked list has the group's length and is ranked element-wise |
| Positions.PassStep | backend/src/controllers/match_core.py:196-207 | one step of the backward loop, with its `cur_pos` and `tie_count` updates, extends the ranked suffix by one team |
| Positions.PassStart | backend/src/controllers/match_core.py:191-195 | the last team gets position n and is qualified iff n is within the cut-off |
| Positions.PassEnd | backend/src/controllers/match_core.py:196-207 | when the loop ends, the partial ranking is the full ranking |
| Positions.PassSlot | backend/src/controllers/match_core.py:196-207 | one iteration leaves `cur_pos` at the run end plus one and `tie_count` at the distance to it |
| Positions.AssignPositions | backend/src/controllers/match_core.py:191-207 | the backward pass over a sorted group returns exactly its ranking |
| PositionFacts.RunSharesKey | backend/src/controllers/match_core.py:196-205 | all teams of a run share its key |
| PositionFacts.PositionShape | backend/src/controllers/match_core.py:191-205 | positions lie in 1..n, the last is n, they never decrease down the list, a tied block shares the position of its last member, and an untied team at index i gets i+1 |
| PositionFacts.FlagMeaning | backend/src/controllers/match_core.py:194-207 | `is_tied` holds iff a neighbour has an equal key; `is_qualified` holds iff the position is within the cut-off |
| PositionFacts.CountAtLeast | backend/src/controllers/match_core.py:191-205 | the count of teams at least as good is at most the group size |
| PositionFacts.CountOfPrefix | backend/src/controllers/match_core.py:191-205 | in a sorted list, the teams at least as good as a key are exactly a prefix |
| PositionFacts.PositionCountsTeamsAtLeastAsGood | backend/src/controllers/match_core.py:191-205 | in a sorted group, a team's position is the number of teams whose key is at least its own |
| Standings.PlayedLines | backend/src/controllers/match_core.py:179-180 | each tallied team is filed under its group, in insertion order |
| Standings.IdleLine | backend/src/controllers/match_core.py:186 | an idle roster team's line has its id, name and registration day, zero counts and no flags |
| Standings.IdleLines | backend/src/controllers/match_core.py:184-186 | idle lines are filed only for roster teams without a tallied line, and carry no flags |
| Standings.Members | backend/src/controllers/match_core.py:178-186 | a group's members are among the filed lines |
| Standings.GroupKeys | backend/src/controllers/match_core.py:180-187 | there are no more group keys than filed lines |
| Standings.GroupKeysAreFiledGroups | backend/src/controllers/match_core.py:180-187 | a group is a key of the group dict iff some line was filed under it |
| Standings.MembersAreFiledLines | backend/src/controllers/match_core.py:180-186 | a line is in a group's list iff it was filed under that group |
| Standings.GroupKeysDistinct | backend/src/controllers/match_core.py:180-187 | the group dict has each key once |
| Standings.KeyedGroupsAreNonEmpty | backend/src/controllers/match_core.py:187-189 | every keyed group has at least one member, so the `continue` for empty groups never fires |
| Standings.UnkeyedGroupIsEmpty | backend/src/controllers/match_core.py:180-187 | a group that is not a key has no members |
| Standings.File | backend/src/controllers/match_core.py:180 | `setdefault(...).append` files one more line and keeps the group dict in step with the filed lines |
| Standings.FilePlayed | backend/src/controllers/match_core.py:178-180 | the first grouping loop files the tallied lines |
| Standings.FileIdle | backend/src/controllers/match_core.py:183-186 | the roster loop files the idle teams' zero lines after the played ones |
| Standings.FileIdleTeam | backend/src/controllers/match_core.py:184-186 | one roster team adds its zero line to its own group exactly when it has no tallied line |
| Standings.IdleOf | backend/src/controllers/match_core.py:184-186 | a roster team contributes one line, of its own id and group, exactly when it is absent from the tally |
| Standings.GroupTeams | backend/src/controllers/match_core.py:177-186 | the group dict holds the tallied lines followed by the idle lines, by group |
| Standings.RankGroups | backend/src/controllers/match_core.py:187-207 | each group becomes its sorted list with positions and flags |
| Standings.ResultsInGroup | backend/src/repositories/match_core.py:78-93 | the results query keeps only rows of the filtered group, and keeps them all without a filter |
| Standings.RosterInGroup | backend/src/repositories/team.py:68-84 | the roster query returns exactly the teams of the filtered group, or all teams |
| Standings.Respond | backend/src/controllers/match_core.py:210-217 | the response carries the round number and one ranking per group key |
| Standings.RespondFromFiled | backend/src/controllers/match_core.py:210-217 | building the response from the ranked group dict gives the reference response |
| Standings.Assemble | backend/src/controllers/match_core.py:210-216 | the response has the round number and one entry per group key, in key order, holding that group's ranked list |
| Standings.CollectGroups | backend/src/controllers/match_core.py:141-186 | tallying and grouping file exactly the lines of the pairs plus the idle roster teams, each group once |
| Standings.GetMatchRankings | backend/src/controllers/match_core.py:137-217 | the method raises (`Rejected`, with the validator's message) exactly when `GetRankingResponse` refuses the round, i.e. outside 1..3; otherwise it returns the reference standings response of its inputs |
| StandingsFacts.EntryOf | backend/src/controllers/match_core.py:187-217 | each entry of the response is a group with its members sorted and positioned |
| StandingsFacts.TallyUnflagged | backend/src/controllers/match_core.py:164-165 | a tallied line has no flags before the backward pass |
| StandingsFacts.LinesUnflagged | backend/src/controllers/match_core.py:164-186 | no filed line has flags before the backward pass |
| StandingsFacts.SortedMemberIsFiled | backend/src/controllers/match_core.py:180-190 | every team of a sorted group is a filed line of that group with no flags |
| StandingsFacts.GroupIsSortedPermutation | backend/src/controllers/match_core.py:187-207 | a group's list is a non-empty, sorted permutation of its filed lines with only position and flags rewritten |
| StandingsFacts.EarlierRegistrantFirst | backend/src/controllers/match_core.py:190 | down a list the key never increases; level on points, goals and alternate points, the earlier registrant comes first |
| StandingsFacts.PositionsAndFlags | backend/src/controllers/match_core.py:191-207 | in the response, a position counts the teams at least as good, lies in 1..n, is n for the last team, never decreases and is shared by a tied block; tied iff a neighbour has an equal key; qualified iff the position is within the cut-off |
| StandingsFacts.IdleLineFiled | backend/src/controllers/match_core.py:184-186 | every roster team without a tallied line has its zero line filed under its group |
| StandingsFacts.IdleLineFromRoster | backend/src/controllers/match_core.py:184-186 | every idle line comes from a roster team of that group |
| StandingsFacts.FiledLineIsListed | backend/src/controllers/match_core.py:177-217 | every filed line appears in its group's list with only position and flags changed |
| StandingsFacts.IdleTeamListed | backend/src/controllers/match_core.py:182-186 | every roster team with no paired result is listed in its group with zero goals, wins, draws and losses |
| StandingsFacts.PlayedTeamListed | backend/src/controllers/match_core.py:156-180 | every team with a pair is listed in the group of its first row, with its own goals and its outcomes, which add up to its pairs played |
| StandingsFacts.FirstMentionIsPairSide | backend/src/controllers/match_core.py:160-165 | a team's first row is a side of one of the pairs |
| StandingsFacts.IdleLinesInGroup | backend/src/repositories/team.py:83-84 | with a group filter, every idle line is in that group |
| StandingsFacts.FirstMentionInGroup | backend/src/repositories/match_core.py:83-84 | with a group filter, a tallied team's group is the filtered group |
| StandingsFacts.LinesOfOneGroup | backend/src/controllers/match_core.py:177-186 | when rows and roster are of one group, every filed line is in that group |
| StandingsFacts.FilterKeepsGroup | backend/src/controllers/match_core.py:141-186 | with a group filter, every group of the response is the filtered group |
| StandingsFacts.RosterInGroupDistinct | backend/src/repositories/team.py:68-84 | filtering a roster with distinct ids keeps them distinct |
| StandingsFacts.IdleLinesDistinct | backend/src/controllers/match_core.py:184-186 | idle lines have distinct team ids when the roster does |
| StandingsFacts.LinesDistinct | backend/src/controllers/match_core.py:179-186 | no team is filed twice: tallied ids are distinct and idle teams are only those without a tallied line |
| StandingsFacts.MembersDistinct | backend/src/controllers/match_core.py:180-186 | a group's members have distinct ids |
| StandingsFacts.MembersDisjoint | backend/src/controllers/match_core.py:180-186 | two different groups share no team id |
| StandingsFacts.TwiceCounted | backend/src/controllers/match_core.py:190 | a line at two indices occurs at least twice in the list |
| StandingsFacts.OnceCounted | backend/src/controllers/match_core.py:190 | in a list with distinct ids, each line occurs at most once |
| StandingsFacts.PermutationKeepsIdsDistinct | backend/src/controllers/match_core.py:190 | sorting keeps ids distinct |
| StandingsFacts.SameGroupDistinct | backend/src/controllers/match_core.py:187-207 | within a ranked group, two indices hold different teams |
| StandingsFacts.OtherGroupsDistinct | backend/src/controllers/match_core.py:187-207 | two ranked groups hold different teams |
| StandingsFacts.RespondDistinct | backend/src/controllers/match_core.py:210-217 | two different slots of a response built from distinct filed lines hold different teams |
| StandingsFacts.NoTeamListedTwice | backend/src/controllers/match_core.py:179-217 | with distinct roster ids, no team id appears twice in the standings response |
| BatchChecks.OpponentsMeaning | backend/src/controllers/match_core.py:44-49 | `match_up_dict[n]` contains m exactly when some fixture of the batch pairs n with m in either order |
| BatchChecks.NamesMeaning | backend/src/controllers/match_core.py:41-42 | the name set holds exactly the names of the batch's fixtures |
| BatchChecks.DuplicatesMeaning | backend/src/controllers/match_core.py:43-51 | the in-batch duplicate list is non-empty exactly when two fixtures pair the same two teams, in either order |
| BatchChecks.OpponentsSymmetric | backend/src/controllers/match_core.py:43-51 | `match_up_dict` is symmetric: `b` is among `a`'s opponents exactly when `a` is among `b`'s |
| BatchChecks.SelfMatches | backend/src/controllers/match_core.py:39-40 | the self-match list is empty exactly when no fixture pairs a team with itself |
| BatchChecks.UnnamedHasNoOpponents | backend/src/controllers/match_core.py:44-49 | a team that is not in the batch has no opponents |
| BatchChecks.LookupIsOpponents | backend/src/controllers/match_core.py:44-46 | the `setdefault` lookup returns the team's opponents so far |
| BatchChecks.OpponentMapStep | backend/src/controllers/match_core.py:44-49 | adding both directions of one more fixture keeps the map equal to the opponents relation |
| BatchChecks.ScanFixture | backend/src/controllers/match_core.py:38-49 | one iteration of the scan keeps the map, the duplicate list, the name set and the self-match list equal to their definitions over the fixtures so far |
| BatchChecks.ScanBatch | backend/src/controllers/match_core.py:34-49 | the scan loop ends with all four equal to their definitions over the whole batch |
| Store.NewMatches | backend/src/controllers/match_results.py:54 | one new match per id, in order, each in the given round |
| Store.Database.constructor | backend/src/repositories/match_core.py:12-15 | a session starts with no open transaction |
| Store.Database.FlushMatches | backend/src/repositories/match_core.py:29-37 | flushing new matches adds them to the open transaction only |
| Store.Database.FlushResults | backend/src/repositories/match_core.py:61-66 | flushing result rows adds them to the open transaction only |
| Store.Database.Commit | backend/src/repositories/match_core.py:117-123 | a commit that succeeds appends the pending rows to the committed tables (a second commit adds nothing); one that raises rolls them back, leaves the committed tables unchanged and reports failure; either way no transaction stays open |
| Store.Database.Rollback | backend/src/repositories/match_core.py:113-115 | a rollback discards the pending rows and leaves the committed tables unchanged |
| MatchWrite.TeamsNamed | backend/src/repositories/team.py:46-66 | the name query returns no more teams than the roster holds |
| MatchWrite.TeamsNamedMembers | backend/src/repositories/team.py:60 | a team is returned iff it is in the roster and its name is asked for |
| MatchWrite.TeamsNamedCount | backend/src/repositories/team.py:60 | with unique names, the number of teams returned is the number of asked names that exist |
| MatchWrite.FoundNames | backend/src/repositories/team.py:60 | the names returned are the asked names that exist |
| MatchWrite.UnknownNamesMeaning | backend/src/controllers/match_core.py:57-60 | the count check fails exactly when some name is not in the roster, and the reported set is exactly the names missing from the roster |
| MatchWrite.TeamsNamedDistinct | backend/src/repositories/team.py:60 | the returned teams have distinct names |
| MatchWrite.IndexMeaning | backend/src/controllers/match_core.py:61-65 | the id and group maps are keyed by the returned names and give each team's own id and group; every id in the map belongs to a returned team |
| MatchWrite.KnownNamesCovered | backend/src/controllers/match_core.py:57-65 | once the count check passes, every batch name is in the roster and both maps cover both sides of every fixture |
| MatchWrite.CrossGroupMeaning | backend/src/controllers/match_core.py:67-71 | the map-based cross-group test holds exactly when some fixture pairs teams of different roster groups |
| MatchWrite.SameNameSameTeam | backend/src/controllers/match_core.py:61-65 | with unique names, two roster teams with the same name are the same team |
| MatchWrite.PrecheckMeaning | backend/src/controllers/match_core.py:34-71 | the pre-lock checks pass exactly when no two fixtures pair the same teams, no team plays itself, every name is in the roster, and, below round 3, no fixture spans two groups; when duplicates and self-matches are absent and names are missing, the reply is exactly those names |
| MatchWrite.Precheck | backend/src/controllers/match_core.py:34-71 | the pre-lock checks only answer input errors (duplicate pair, self-match, unknown teams, cross-group); a duplicate pair is reported before anything else; round 3 never rejects a cross-group fixture |
| MatchWrite.NameOfId | backend/src/repositories/match_core.py:101 | the join from a row's team id to its name finds the roster team with that id, or none exists |
| MatchWrite.MatchUpsNamed | backend/src/repositories/match_core.py:99-107 | the match-up query returns only rows of the batch's team ids, each with the name of its team |
| MatchWrite.Kept | backend/src/repositories/match_core.py:99-107 | a single stored row contributes at most a row of an asked team, named as the roster names it |
| MatchWrite.OpenersMeaning | backend/src/controllers/match_core.py:82-85 | a match id has an opener iff some queried row has it, and the opener is that match's first row |
| MatchWrite.FirstIsOpener | backend/src/controllers/match_core.py:82-85 | the first row of a match id is recorded as its opener |
| MatchWrite.StoredClashSound | backend/src/controllers/match_core.py:82-88 | every reported stored clash is a pair of teams the batch pairs, seen as the first row and a later row of one stored match |
| MatchWrite.StoredClashComplete | backend/src/controllers/match_core.py:82-91 | a later row of a stored match whose team the batch pairs with that match's first team is always reported |
| MatchWrite.ResultRows | backend/src/controllers/match_core.py:102-106 | the rows number 2n: fixture k gets the k-th created id, first its first side's team id and goals, then its second side's |
| MatchWrite.RowsPerMatch | backend/src/controllers/match_core.py:102-106 | with distinct created ids, exactly rows 2k and 2k+1 carry fixture k's id |
| MatchWrite.MatchUpsAppend | backend/src/repositories/match_core.py:99-107 | the query over two row lists is the concatenation of the queries |
| MatchWrite.MatchUpsFrom | backend/src/repositories/match_core.py:99-107 | every queried row comes from a stored result row with the same match id |
| MatchWrite.MatchUpsOne | backend/src/repositories/match_core.py:99-107 | a stored row of the round whose team is asked for is returned with its team's name |
| MatchWrite.StoredMatchQueried | backend/src/repositories/match_core.py:99-107 | two stored rows of one match of the round, for asked teams, come back in stored order as the first and a later row of that match |
| MatchWrite.StoredFixtureRejects | backend/src/controllers/match_core.py:80-91 | a stored fixture of the round whose first row and a later row are two teams the batch pairs makes the locked step reject the batch as a duplicate |
| MatchWrite.AfterLock | backend/src/controllers/match_core.py:79-133 | under the lock the outcome is a stored-round duplicate or a creation outcome, never a pre-lock error or a lock failure |
| MatchWrite.Creation | backend/src/controllers/match_core.py:94-135 | the creation outcome is a raise, an id-count mismatch, a refusal or a commit; the batch is committed exactly when one id per fixture came back, the rows were stored and the first commit succeeded; a raising first commit is a 500 with nothing committed, a raising second commit a 500 after the batch was committed; the answer is `Created` exactly when the batch is committed, the second commit succeeds and the round lies in 1..3, since the broadcast's standings raise for any other round |
| MatchWrite.IdOwner | backend/src/repositories/match_core.py:101 | with unique ids, a roster team's id names that team |
| MatchWrite.QueriedNamesInBatch | backend/src/controllers/match_core.py:81-87 | every queried row names a team of the batch, so the `match_up_dict` lookup never misses |
| MatchWrite.CreatedRows | backend/src/controllers/match_core.py:102-106 | the rows built from the name-to-id map number two per fixture |
| MatchCore.MatchController.constructor | backend/src/controllers/match_core.py:15-21 | the controller keeps its session and its lock |
| MatchCore.MatchController.CreateGameMatches | backend/src/repositories/match_core.py:17-46 | on success, the repository returns ids and flushes one new match of the round per id; on a raise, it has rolled back; the committed tables never change |
| MatchCore.MatchController.CreateMatchResults | backend/src/repositories/match_core.py:61-76 | on success, the rows are flushed; on a raise, the transaction is rolled back; the committed tables never change |
| MatchCore.MatchController.Create | backend/src/controllers/match_core.py:94-131 | the outcome is the creation outcome of the replies, commit replies included. Exactly the committing outcomes (`Created`, and the 500 of a raising second commit) add the new matches and the rows of `ResultRows`; every other path, a raising first commit included, leaves the committed tables unchanged. The lock is untouched or released by compare-and-delete |
| MatchCore.MatchController.Finish | backend/src/controllers/match_core.py:102-131 | once one id per fixture is back: a stored reply goes on to the commits; a refused or raising reply leaves the committed tables unchanged; the outcome is the reference creation outcome; the lock is untouched or released by compare-and-delete |
| MatchCore.MatchController.CommitTwice | backend/src/controllers/match_core.py:109-131 | the two commits: a raising first commit is rolled back and answered 500 with nothing committed; a raising second commit is answered 500 after the first committed the pending matches and rows; otherwise both are committed and the lock is given back, and the answer is `Created` for a round in 1..3 and a 500 after the commit for any other round, whose broadcast standings raise |
| MatchCore.MatchController.Locked | backend/src/controllers/match_core.py:79-131 | under the lock, the outcome is the reference `AfterLock` of the stored round and the replies, commit replies included. The committing outcomes append the matches and `CreatedRows`; every other outcome, a failed commit included, commits nothing |
| MatchCore.MatchController.StoredRoundClashes | backend/src/controllers/match_core.py:81-88 | the stored-round query and loop return exactly the reference clashes of the round, and the name-to-id map covers every fixture |
| MatchCore.MatchController.Prechecks | backend/src/controllers/match_core.py:34-71 | the check sequence returns the reference pre-lock rejection; when none, the name maps and match-up map are those the locked step needs |
| MatchCore.MatchController.CreateResults | backend/src/controllers/match_core.py:23-135 | a pre-lock rejection is returned with nothing changed. Otherwise the outcome is `LockFailed` or the locked step's outcome, and a free lock is always taken. A failed lock leaves the store unchanged, the lock held elsewhere at the last poll. A taken lock is released on exit, on every path including a failed commit. Only `Created` and the 500 answered after the first commit (a raising second commit, or a round outside 1..3 whose broadcast standings raise) change the committed tables, by exactly the batch's matches and rows; a raising first commit answers 500 with nothing committed |
| MatchCore.MatchController.Guarded | backend/src/controllers/match_core.py:77-135 | after the pre-lock checks: a lock that cannot be had gives `LockFailed` with the store unchanged and the key taken at the last poll; a free key is always taken; once taken, the outcome is `AfterLock` and the lock key ends released |
| MatchCore.MatchController.HoldAndRelease | backend/src/controllers/match_core.py:79-135 | with the lock just written over a store, the locked step runs and the `finally` leaves that store minus the lock key, whatever the outcome |
| MatchCore.MatchController.IndexTeams | backend/src/controllers/match_core.py:61-65 | the map-building loop returns exactly the name-to-id and name-to-group maps |
| MatchCore.MatchController.FindCrossGroup | backend/src/controllers/match_core.py:67-71 | the loop finds a cross-group fixture iff there is one |
| MatchCore.MatchController.FindStoredClashes | backend/src/controllers/match_core.py:82-88 | the stored-round loop returns exactly the reference list of stored clashes |
| MatchCore.MatchController.BuildRows | backend/src/controllers/match_core.py:102-106 | the row-building loop returns exactly `ResultRows` |
| MatchResultsPath.MatchIds | backend/src/controllers/match_results.py:22-26 | one requested id per request |
| MatchResultsPath.MatchIdsAt | backend/src/controllers/match_results.py:26 | entry k of the id list is request k's match id |
| MatchResultsPath.SelfMatchIdsMeaning | backend/src/controllers/match_results.py:24-34 | the self-match list is empty exactly when no request pairs a team with itself, and lists only ids of such requests |
| MatchResultsPath.RepeatedIdCheck | backend/src/controllers/match_results.py:36-38 | the set of ids is smaller than the list exactly when some id is repeated |
| MatchResultsPath.StoredIds | backend/src/repositories/game_match.py:33-42 | the existing-match query is empty exactly when no stored match has a requested id, and returns only requested ids |
| MatchResultsPath.LegacyPrecheckMeaning | backend/src/controllers/match_results.py:22-51 | the checks pass exactly when no request pairs a team with itself, no match id is repeated, every name is in the roster, and no requested id is already stored |
| MatchResultsPath.LegacyPrecheck | backend/src/controllers/match_results.py:22-51 | the checks only answer input errors (self-match, repeated id, missing teams, existing matches); a self-match is reported first, with its ids; an existing-match rejection lists at least one id |
| MatchResultsPath.LegacyCreation | backend/src/controllers/match_results.py:53-73 | the creation never returns True: it answers a raise, False, or the 500 that follows the first commit; the batch is committed exactly when the matches were created, the rows stored and the first commit succeeded; a stored reply always ends in a 500 |
| MatchResultsPath.LegacyRows | backend/src/controllers/match_results.py:57-58 | the rows number 2n: first every request's first side in order, then every request's second side, each with its request's match id |
| MatchResultsPath.MatchResultsController.constructor | backend/src/controllers/match_results.py:11-15 | the controller keeps its session |
| MatchResultsPath.MatchResultsController.ScanRequests | backend/src/controllers/match_results.py:22-30 | the request loop returns exactly the id list, the self-match id list and the name set |
| MatchResultsPath.MatchResultsController.Checks | backend/src/controllers/match_results.py:22-51 | the check sequence returns the reference rejection; when none, every name is found and the id map is built from the found teams |
| MatchResultsPath.MatchResultsController.Write | backend/src/controllers/match_results.py:53-73 | the outcome is the reference creation outcome of the replies. `CommittedThenFailed` (a 500 after the first commit) commits one match per requested id and the rows of `LegacyRows`; every other path commits nothing |
| MatchResultsPath.MatchResultsController.StoreRows | backend/src/controllers/match_results.py:59-73 | with the matches flushed, a stored reply commits both through the first commit and then answers 500, because the second commit calls a method the results repository does not define; a raising first commit answers 500 with nothing committed; a refusal or a raise rolls both back |
| MatchResultsPath.MatchResultsController.CreateResults | backend/src/controllers/match_results.py:17-73 | a rejection is returned with nothing changed. Otherwise the outcome is the creation outcome, which never returns True. Only `CommittedThenFailed`, the 500 answered after the first commit, changes the committed tables, adding the matches of the requested ids in this round and the rows in the source's layout |
| MatchResultsPath.WrittenRows | backend/src/controllers/match_results.py:44-58 | the rows written for a checked batch number two per request |

## Left out

- Real concurrency. The model does not cover interleaved `create_results` calls or the non-atomic GET-then-DELETE of `give`. Each call runs alone against the store.
- Wall-clock time and the float sleep interval. The store has an explicit integer clock in milliseconds. Only `Sleep` advances it, and entries expire against it.
- The redis connection, SQLAlchemy and the SQL text. Query answers are functions of the stored tables, in stored order. What the repositories answer when they write (ids, success or a raised status) is an input of the model.
- Exceptions other than `HTTPException`. They become a status of 500, as the controllers turn them into one; the error text is not modelled.
- The WebSocket fan-out of the broadcast after a successful write (match_core.py:113-121). The only failure modelled there is the standings response refusing a round outside 1..3, which the controller answers with a 500 after the commit; the sending itself is treated as a plain success.
- `print("before lock")` is output only.
- `day_of_year_to_ddmm` is not in backend/src/utils/date_util.py. The model takes it as the parameter `toDdmm` and treats the result as an opaque string.
- The roster's day of year is source drift absorbed by the model. The `Team` table has no `registration_day_of_year` column, only `registration_date_unix` (models/team.py:12), yet the standings query (repositories/match_core.py:82) and the roster loop (controllers/match_core.py:186) read `registration_day_of_year`. The model takes roster and result records that carry a day of year, as those reads expect; how the source would obtain one is not modelled.
- Unicode semantics of `isalnum`, `isnumeric` and `lower`. The model uses ASCII letters and digits.
- `datetime.strptime` is replaced by an explicit day-of-month table for 1972.
- In-place mutation of lists and dicts inside `get_match_rankings` and `create_results` is modelled as sequence and map values that the loops reassign; aliasing between them is not modelled.
- The uniqueness of team names and ids is a stated invariant of the session. The source's `team` model does not declare the name unique.
- The `give()` at match_core.py:132 is not awaited, so it never runs. The model treats it as a no-op; the `finally` release covers that path.
- The schema name `CreateMatchResults` imported by match_core.py is not in the schema file. Both write paths take `CreateMatchResultsRequest` entries.
- `MatchRepository.create_match_results` never returns False, and the older `MatchResultsRepository` is an empty stub. Both replies are inputs, so every branch of the controllers is modelled.
- What a commit meets (success or a database error) is an input as well, one per commit call. A database error inside `commit` is modelled only through that reply.
- Sessions, routers, middleware, configuration, the admin/authentication/team controllers, password hashing and the frontend are not part of this model.
- The duplicate and self-match messages, and the text of the other HTTP details, are not modelled. The pairs and names they list are.
- UserSchema.ValidatePassword: the error message says 50 characters while the bound checked is 72. The model follows the checked bound and does not model the message text.
- `Score` and `AlternateScore` are stated through `RankingOrder.KeyOf`. There is no separate row for them.
- `Lock.DistributedLock.Get` models the timeout as the clock moving by whole intervals. It does not model a redis call taking time.
