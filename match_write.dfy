/** What `MatchController.create_results` decides, as functions of the batch and the stored
    state: the roster lookup, the pre-lock checks, the stored match-ups of the round, the
    clashes with them, the created rows and the final outcome. */
module MatchWrite {
  import opened Validation
  import opened MatchResultsSchema
  import opened Standings
  import opened BatchChecks
  import opened Store
  import opened RankSchema

  // ---------------------------------------------------------------- roster lookup

  /** The names of `teams`. */
  function NamesOf(teams: seq<RosterTeam>): set<string> {
    if teams == [] then {} else NamesOf(teams[..|teams| - 1]) + {teams[|teams| - 1].teamName}
  }

  lemma {:induction false} NamesOfMeaning(teams: seq<RosterTeam>, n: string)
    ensures n in NamesOf(teams) <==> exists k | 0 <= k < |teams| :: teams[k].teamName == n
  {
    if teams != [] {
      var prefix := teams[..|teams| - 1];
      NamesOfMeaning(prefix, n);
      if exists k | 0 <= k < |prefix| :: prefix[k].teamName == n {
        var k :| 0 <= k < |prefix| && prefix[k].teamName == n;
        assert teams[k] == prefix[k];
      }
    }
  }

  /** `get_teams_by_team_names`: the stored teams whose name is in `names`, in stored order. */
  function TeamsNamed(roster: seq<RosterTeam>, names: set<string>): (r: seq<RosterTeam>)
    ensures |r| <= |roster|
  {
    if roster == [] then []
    else
      var last := roster[|roster| - 1];
      TeamsNamed(roster[..|roster| - 1], names) + (if last.teamName in names then [last] else [])
  }

  /** The lookup returns exactly the stored teams with a requested name. */
  lemma {:induction false} TeamsNamedMembers(roster: seq<RosterTeam>, names: set<string>, t: RosterTeam)
    ensures t in TeamsNamed(roster, names) <==> t in roster && t.teamName in names
  {
    if roster != [] {
      var prefix := roster[..|roster| - 1];
      TeamsNamedMembers(prefix, names, t);
      assert roster == prefix + [roster[|roster| - 1]];
    }
  }

  /** With unique names the lookup finds one team per known name: as many teams as names in
      both `names` and the roster. */
  lemma {:induction false} TeamsNamedCount(roster: seq<RosterTeam>, names: set<string>)
    requires NamesDistinct(roster)
    ensures |TeamsNamed(roster, names)| == |names * NamesOf(roster)|
  {
    if roster != [] {
      var prefix, last := roster[..|roster| - 1], roster[|roster| - 1];
      assert NamesDistinct(prefix);
      TeamsNamedCount(prefix, names);
      NamesOfMeaning(prefix, last.teamName);
      if last.teamName in names {
        assert names * NamesOf(roster) == (names * NamesOf(prefix)) + {last.teamName};
      } else {
        assert names * NamesOf(roster) == names * NamesOf(prefix);
      }
    }
  }

  /** A subset as large as its superset is the whole of it. */
  lemma SubsetOfSameSize<T>(a: set<T>, b: set<T>)
    requires a <= b && |a| == |b|
    ensures a == b
  {
    if a != b {
      var x :| x in b && x !in a;
      assert a <= b - {x};
      SubsetCardinality(a, b - {x});
    }
  }

  lemma {:induction false} SubsetCardinality<T>(a: set<T>, b: set<T>)
    requires a <= b
    ensures |a| <= |b|
  {
    if a != {} {
      var x :| x in a;
      SubsetCardinality(a - {x}, b - {x});
    }
  }

  lemma NamesOfSnoc(teams: seq<RosterTeam>, t: RosterTeam)
    ensures NamesOf(teams + [t]) == NamesOf(teams) + {t.teamName}
  {
    assert (teams + [t])[..|teams|] == teams;
  }

  lemma IntersectAdd<T>(a: set<T>, b: set<T>, x: T)
    ensures a * (b + {x}) == (a * b) + (if x in a then {x} else {})
  {
  }

  /** The names the lookup finds are the requested names that are stored. */
  lemma {:induction false} FoundNames(roster: seq<RosterTeam>, names: set<string>)
    ensures NamesOf(TeamsNamed(roster, names)) == names * NamesOf(roster)
  {
    if roster != [] {
      var prefix, last := roster[..|roster| - 1], roster[|roster| - 1];
      FoundNames(prefix, names);
      var found := TeamsNamed(prefix, names);
      IntersectAdd(names, NamesOf(prefix), last.teamName);
      if last.teamName in names {
        NamesOfSnoc(found, last);
      } else {
        assert TeamsNamed(roster, names) == found;
      }
    }
  }

  /** The existence check (`len(existing_teams) != len(team_name_set)`) fails exactly when
      some name is not a stored team, and then the names it reports are exactly the
      missing ones. */
  lemma UnknownNamesMeaning(roster: seq<RosterTeam>, names: set<string>)
    requires NamesDistinct(roster)
    ensures |TeamsNamed(roster, names)| != |names| <==> !(names <= NamesOf(roster))
    ensures names - NamesOf(TeamsNamed(roster, names)) == names - NamesOf(roster)
  {
    TeamsNamedCount(roster, names);
    FoundNames(roster, names);
    var known := names * NamesOf(roster);
    if names <= NamesOf(roster) {
      assert known == names;
    } else if |known| == |names| {
      SubsetOfSameSize(known, names);
    }
  }

  /** The lookup keeps the roster's unique names. */
  lemma {:induction false} TeamsNamedDistinct(roster: seq<RosterTeam>, names: set<string>)
    requires NamesDistinct(roster)
    ensures NamesDistinct(TeamsNamed(roster, names))
  {
    if roster != [] {
      var prefix, last := roster[..|roster| - 1], roster[|roster| - 1];
      assert NamesDistinct(prefix);
      TeamsNamedDistinct(prefix, names);
      var found := TeamsNamed(prefix, names);
      if last.teamName in names {
        forall k | 0 <= k < |found|
          ensures found[k].teamName != last.teamName
        {
          TeamsNamedMembers(prefix, names, found[k]);
        }
      } else {
        assert TeamsNamed(roster, names) == found;
      }
    }
  }

  // ---------------------------------------------------------------- name-indexed maps

  /** `team_name_to_id_map`, filled in the order of `teams` (a later team overwrites). */
  function IdsByName(teams: seq<RosterTeam>): map<string, int> {
    if teams == [] then map[]
    else
      var last := teams[|teams| - 1];
      IdsByName(teams[..|teams| - 1])[last.teamName := last.teamId]
  }

  /** `team_name_to_group_map`, filled in the order of `teams`. */
  function GroupsByName(teams: seq<RosterTeam>): map<string, int> {
    if teams == [] then map[]
    else
      var last := teams[|teams| - 1];
      GroupsByName(teams[..|teams| - 1])[last.teamName := last.groupNumber]
  }

  /** Both maps are keyed by exactly the names of `teams`; with unique names each name maps to
      its own team's id and group, and every id in the map is the id of a team of `teams`. */
  lemma {:induction false} IndexMeaning(teams: seq<RosterTeam>)
    ensures IdsByName(teams).Keys == NamesOf(teams) && GroupsByName(teams).Keys == NamesOf(teams)
    ensures NamesDistinct(teams) ==> forall k | 0 <= k < |teams| ::
      teams[k].teamName in IdsByName(teams) && teams[k].teamName in GroupsByName(teams)
      && IdsByName(teams)[teams[k].teamName] == teams[k].teamId
      && GroupsByName(teams)[teams[k].teamName] == teams[k].groupNumber
    ensures forall id | id in IdsByName(teams).Values :: exists k | 0 <= k < |teams| :: teams[k].teamId == id
  {
    if teams != [] {
      var prefix, last := teams[..|teams| - 1], teams[|teams| - 1];
      IndexMeaning(prefix);
      if NamesDistinct(teams) {
        assert NamesDistinct(prefix);
        forall k | 0 <= k < |prefix|
          ensures teams[k].teamName != last.teamName && teams[k] == prefix[k]
        {
        }
      }
      forall id | id in IdsByName(teams).Values
        ensures exists k | 0 <= k < |teams| :: teams[k].teamId == id
      {
        var n :| n in IdsByName(teams) && IdsByName(teams)[n] == id;
        if n != last.teamName {
          assert id in IdsByName(prefix).Values;
          var k :| 0 <= k < |prefix| && prefix[k].teamId == id;
          assert teams[k] == prefix[k];
        } else {
          assert teams[|teams| - 1].teamId == id;
        }
      }
    }
  }

  // ---------------------------------------------------------------- pre-lock checks

  /** Every name the fixtures mention is a key of `lookup`. */
  predicate Covers(batch: seq<CreateMatchResultsRequest>, lookup: map<string, int>)
    requires WellFormed(batch)
  {
    forall k | 0 <= k < |batch| :: Home(batch[k]) in lookup && Away(batch[k]) in lookup
  }

  /** Some fixture spans two groups. */
  predicate CrossGroupIn(batch: seq<CreateMatchResultsRequest>, groupOf: map<string, int>)
    requires WellFormed(batch)
  {
    exists k | 0 <= k < |batch| ::
      Home(batch[k]) in groupOf && Away(batch[k]) in groupOf && groupOf[Home(batch[k])] != groupOf[Away(batch[k])]
  }

  /** The outcome of a call, with the HTTP status the source answers with. */
  datatype WriteOutcome =
    | DuplicatePairs(pairs: seq<(string, string)>)   // 400, within the batch
    | SelfMatched(pairs: seq<(string, string)>)      // 400
    | UnknownTeams(names: set<string>)               // 400
    | CrossGroup                                     // 400, rounds 1 and 2
    | LockFailed                                     // 500
    | StoredDuplicates(pairs: seq<(string, string)>) // 400, against the stored round
    | IdCountMismatch                                // 500
    | Raised(status: int)                            // a repository call raised with this status
    | CommittedThenRaised                            // 500, raised by the second commit after the
                                                     // first one committed the batch
    | Created                                        // returns True
    | NotCreated                                     // returns False

  /** The outcomes after which the batch's matches and rows are committed. */
  predicate Commits(outcome: WriteOutcome) {
    outcome == Created || outcome == CommittedThenRaised
  }

  /** The checks made before the lock is taken, in the source's order; `None` when all pass.
      They only answer input errors (400), the in-batch duplicate before the self-match, and
      the final round never rejects a cross-group fixture. */
  function Precheck(batch: seq<CreateMatchResultsRequest>, roster: seq<RosterTeam>, roundNumber: int): (r: Option<WriteOutcome>)
    requires WellFormed(batch)
    ensures r.Some? ==> r.value.DuplicatePairs? || r.value.SelfMatched? || r.value.UnknownTeams? || r.value == CrossGroup
    ensures Duplicates(batch) != [] ==> r == Some(DuplicatePairs(Duplicates(batch)))
    ensures roundNumber >= 3 ==> r != Some(CrossGroup)
  {
    var names := Names(batch);
    var existing := TeamsNamed(roster, names);
    if Duplicates(batch) != [] then Some(DuplicatePairs(Duplicates(batch)))
    else if SelfMatches(batch) != [] then Some(SelfMatched(SelfMatches(batch)))
    else if |existing| != |names| then Some(UnknownTeams(names - NamesOf(existing)))
    else if roundNumber < 3 && CrossGroupIn(batch, GroupsByName(existing)) then Some(CrossGroup)
    else None
  }

  /** Once the existence check passes, the lookup maps cover every fixture. */
  lemma KnownNamesCovered(batch: seq<CreateMatchResultsRequest>, roster: seq<RosterTeam>)
    requires WellFormed(batch) && NamesDistinct(roster)
    requires |TeamsNamed(roster, Names(batch))| == |Names(batch)|
    ensures Names(batch) <= NamesOf(roster)
    ensures Names(batch) == NamesOf(TeamsNamed(roster, Names(batch)))
    ensures Covers(batch, IdsByName(TeamsNamed(roster, Names(batch))))
    ensures Covers(batch, GroupsByName(TeamsNamed(roster, Names(batch))))
  {
    var existing := TeamsNamed(roster, Names(batch));
    UnknownNamesMeaning(roster, Names(batch));
    FoundNames(roster, Names(batch));
    IndexMeaning(existing);
    forall k | 0 <= k < |batch|
      ensures Home(batch[k]) in Names(batch) && Away(batch[k]) in Names(batch)
    {
      NamesMeaning(batch, Home(batch[k]));
      NamesMeaning(batch, Away(batch[k]));
    }
  }

  /** Two stored teams carrying these names sit in different groups. */
  predicate SpansGroups(roster: seq<RosterTeam>, a: string, b: string) {
    exists t, u | t in roster && u in roster :: t.teamName == a && u.teamName == b && t.groupNumber != u.groupNumber
  }

  /** The cross-group check, read on the roster: it fires exactly when some fixture's two
      teams are stored in different groups. */
  lemma CrossGroupMeaning(batch: seq<CreateMatchResultsRequest>, roster: seq<RosterTeam>)
    requires WellFormed(batch) && NamesDistinct(roster)
    requires |TeamsNamed(roster, Names(batch))| == |Names(batch)|
    ensures CrossGroupIn(batch, GroupsByName(TeamsNamed(roster, Names(batch))))
        <==> exists k | 0 <= k < |batch| :: SpansGroups(roster, Home(batch[k]), Away(batch[k]))
  {
    var existing := TeamsNamed(roster, Names(batch));
    var groupOf := GroupsByName(existing);
    KnownNamesCovered(batch, roster);
    TeamsNamedDistinct(roster, Names(batch));
    IndexMeaning(existing);
    forall k | 0 <= k < |batch|
      ensures groupOf[Home(batch[k])] != groupOf[Away(batch[k])] <==> SpansGroups(roster, Home(batch[k]), Away(batch[k]))
    {
      var a, b := Home(batch[k]), Away(batch[k]);
      NamesOfMeaning(existing, a);
      NamesOfMeaning(existing, b);
      var i :| 0 <= i < |existing| && existing[i].teamName == a;
      var j :| 0 <= j < |existing| && existing[j].teamName == b;
      TeamsNamedMembers(roster, Names(batch), existing[i]);
      TeamsNamedMembers(roster, Names(batch), existing[j]);
      if SpansGroups(roster, a, b) {
        var t, u :| t in roster && u in roster && t.teamName == a && u.teamName == b && t.groupNumber != u.groupNumber;
        SameNameSameTeam(roster, t, existing[i]);
        SameNameSameTeam(roster, u, existing[j]);
      }
    }
  }

  lemma SameNameSameTeam(roster: seq<RosterTeam>, t: RosterTeam, u: RosterTeam)
    requires NamesDistinct(roster) && t in roster && u in roster && t.teamName == u.teamName
    ensures t == u
  {
  }

  /** The pre-lock checks pass exactly when no two fixtures pair the same two names, no team
      plays itself, every name is a stored team, and below the final round every fixture
      stays inside one group. */
  lemma PrecheckMeaning(batch: seq<CreateMatchResultsRequest>, roster: seq<RosterTeam>, roundNumber: int)
    requires WellFormed(batch) && NamesDistinct(roster)
    ensures Precheck(batch, roster, roundNumber) == None <==>
      && (forall i, j | 0 <= i < j < |batch| :: !SamePair(batch, i, j))
      && (forall k | 0 <= k < |batch| :: Home(batch[k]) != Away(batch[k]))
      && Names(batch) <= NamesOf(roster)
      && (roundNumber < 3 ==> forall k | 0 <= k < |batch| :: !SpansGroups(roster, Home(batch[k]), Away(batch[k])))
    ensures Precheck(batch, roster, roundNumber) == Some(UnknownTeams(Names(batch) - NamesOf(roster)))
      <==> Duplicates(batch) == [] && SelfMatches(batch) == [] && !(Names(batch) <= NamesOf(roster))
  {
    DuplicatesMeaning(batch);
    UnknownNamesMeaning(roster, Names(batch));
    if |TeamsNamed(roster, Names(batch))| == |Names(batch)| {
      CrossGroupMeaning(batch, roster);
    }
  }

  // ---------------------------------------------------------------- stored match-ups

  /** `MatchResultSparse`: one stored result row joined with its team's name. */
  datatype MatchUp = MatchUp(teamName: string, matchId: int, teamId: int)

  /** The stored match `id` belongs to round `roundNumber`. */
  predicate InRound(matches: seq<GameMatch>, id: int, roundNumber: int) {
    exists k | 0 <= k < |matches| :: matches[k].matchId == id && matches[k].roundNumber == roundNumber
  }

  /** The name of the stored team with this id, if any. */
  function NameOfId(roster: seq<RosterTeam>, id: int): (r: Option<string>)
    ensures r.Some? ==> exists k | 0 <= k < |roster| :: roster[k].teamId == id && roster[k].teamName == r.value
    ensures r.None? ==> forall k | 0 <= k < |roster| :: roster[k].teamId != id
  {
    if roster == [] then None
    else if roster[|roster| - 1].teamId == id then Some(roster[|roster| - 1].teamName)
    else
      var r := NameOfId(roster[..|roster| - 1], id);
      assert forall k | 0 <= k < |roster| - 1 :: roster[..|roster| - 1][k] == roster[k];
      r
  }

  /** `get_matchups_by_round_and_team_ids`: the stored result rows of the round whose team is
      one of `ids`, with the team's name, in stored order. */
  function MatchUps(results: seq<ResultRow>, matches: seq<GameMatch>, roster: seq<RosterTeam>,
                    roundNumber: int, ids: set<int>): seq<MatchUp>
  {
    if results == [] then []
    else MatchUps(results[..|results| - 1], matches, roster, roundNumber, ids) + Kept(results[|results| - 1], matches, roster, roundNumber, ids)
  }

  /** Every row is of a team among `ids`, named as the roster names it. */
  predicate Named(rows: seq<MatchUp>, roster: seq<RosterTeam>, ids: set<int>) {
    forall i | 0 <= i < |rows| :: rows[i].teamId in ids && Some(rows[i].teamName) == NameOfId(roster, rows[i].teamId)
  }

  /** Every row the query returns is of a team among `ids`, named as the roster names it. */
  lemma {:induction false} MatchUpsNamed(results: seq<ResultRow>, matches: seq<GameMatch>, roster: seq<RosterTeam>,
                                         roundNumber: int, ids: set<int>)
    ensures Named(MatchUps(results, matches, roster, roundNumber, ids), roster, ids)
  {
    if results != [] {
      var prev := MatchUps(results[..|results| - 1], matches, roster, roundNumber, ids);
      var kept := Kept(results[|results| - 1], matches, roster, roundNumber, ids);
      MatchUpsNamed(results[..|results| - 1], matches, roster, roundNumber, ids);
      var r := prev + kept;
      forall i | 0 <= i < |r|
        ensures r[i].teamId in ids && Some(r[i].teamName) == NameOfId(roster, r[i].teamId)
      {
        if i < |prev| { assert r[i] == prev[i]; } else { assert r[i] == kept[i - |prev|]; }
      }
    }
  }

  /** What one stored row adds to the query: its named row when its match is in the round and
      its team is among `ids`, nothing otherwise. */
  function Kept(row: ResultRow, matches: seq<GameMatch>, roster: seq<RosterTeam>, roundNumber: int,
                ids: set<int>): (r: seq<MatchUp>)
    ensures forall i | 0 <= i < |r| :: r[i].teamId in ids && Some(r[i].teamName) == NameOfId(roster, r[i].teamId)
  {
    var name := NameOfId(roster, row.teamId);
    if InRound(matches, row.matchId, roundNumber) && row.teamId in ids && name.Some?
    then [MatchUp(name.value, row.matchId, row.teamId)] else []
  }

  /** `match_id_opponent_map`: for each match id, the name on the first row seen for it. */
  function Openers(rows: seq<MatchUp>): map<int, string> {
    if rows == [] then map[]
    else
      var prefix, row := rows[..|rows| - 1], rows[|rows| - 1];
      if row.matchId in Openers(prefix) then Openers(prefix) else Openers(prefix)[row.matchId := row.teamName]
  }

  /** Row `i` is the first row of its match. */
  predicate FirstOfMatch(rows: seq<MatchUp>, i: int) {
    0 <= i < |rows| && forall h | 0 <= h < i :: rows[h].matchId != rows[i].matchId
  }

  /** A match id has an opener exactly when some row carries it, and the opener is the name
      on its first row. */
  lemma {:induction false} OpenersMeaning(rows: seq<MatchUp>, m: int)
    ensures m in Openers(rows) <==> exists i | 0 <= i < |rows| :: rows[i].matchId == m
    ensures m in Openers(rows) ==> exists i :: FirstOfMatch(rows, i) && rows[i].matchId == m && rows[i].teamName == Openers(rows)[m]
  {
    if rows != [] {
      var prefix, row := rows[..|rows| - 1], rows[|rows| - 1];
      OpenersMeaning(prefix, m);
      assert forall i | 0 <= i < |prefix| :: prefix[i] == rows[i];
      if m in Openers(prefix) {
        var i :| FirstOfMatch(prefix, i) && prefix[i].matchId == m && prefix[i].teamName == Openers(prefix)[m];
        assert FirstOfMatch(rows, i);
      } else if row.matchId == m {
        assert FirstOfMatch(rows, |rows| - 1);
      }
    }
  }

  /** The first row of a match is its opener. */
  lemma FirstIsOpener(rows: seq<MatchUp>, i: int)
    requires FirstOfMatch(rows, i)
    ensures rows[i].matchId in Openers(rows) && Openers(rows)[rows[i].matchId] == rows[i].teamName
  {
    OpenersMeaning(rows, rows[i].matchId);
    var j :| FirstOfMatch(rows, j) && rows[j].matchId == rows[i].matchId && rows[j].teamName == Openers(rows)[rows[i].matchId];
    assert i == j;
  }

  /** The duplicates found against the stored round: a later row of a stored match whose team
      the batch pairs with the match's opener reports (opener, team). */
  function StoredClashes(rows: seq<MatchUp>, batch: seq<CreateMatchResultsRequest>): seq<(string, string)>
    requires WellFormed(batch)
  {
    if rows == [] then []
    else
      var prefix, row := rows[..|rows| - 1], rows[|rows| - 1];
      var openers := Openers(prefix);
      StoredClashes(prefix, batch)
        + (if row.matchId in openers && row.teamName in Opponents(batch, openers[row.matchId])
           then [(openers[row.matchId], row.teamName)] else [])
  }

  /** Every reported clash names a stored match's first row and a later row of the same
      match, whose two teams the batch pairs. */
  lemma {:induction false} StoredClashSound(rows: seq<MatchUp>, batch: seq<CreateMatchResultsRequest>, x: string, y: string)
    requires WellFormed(batch) && (x, y) in StoredClashes(rows, batch)
    ensures exists k :: Pairs(batch, k, x, y)
    ensures exists i, j | 0 <= i < j < |rows| ::
      FirstOfMatch(rows, i) && rows[j].matchId == rows[i].matchId && rows[i].teamName == x && rows[j].teamName == y
  {
    var prefix, row := rows[..|rows| - 1], rows[|rows| - 1];
    var openers := Openers(prefix);
    assert forall i | 0 <= i < |prefix| :: prefix[i] == rows[i];
    if (x, y) in StoredClashes(prefix, batch) {
      StoredClashSound(prefix, batch, x, y);
      var i, j :| 0 <= i < j < |prefix| && FirstOfMatch(prefix, i) && prefix[j].matchId == prefix[i].matchId
        && prefix[i].teamName == x && prefix[j].teamName == y;
      assert FirstOfMatch(rows, i);
    } else {
      OpponentsMeaning(batch, x, y);
      OpenersMeaning(prefix, row.matchId);
      var i :| FirstOfMatch(prefix, i) && prefix[i].matchId == row.matchId && prefix[i].teamName == openers[row.matchId];
      assert FirstOfMatch(rows, i);
    }
  }

  /** A stored match whose first row and a later row carry two teams the batch pairs is
      always reported. */
  lemma {:induction false} StoredClashComplete(rows: seq<MatchUp>, batch: seq<CreateMatchResultsRequest>, i: int, j: int, k: int)
    requires WellFormed(batch) && FirstOfMatch(rows, i) && i < j < |rows| && rows[j].matchId == rows[i].matchId
    requires Pairs(batch, k, rows[i].teamName, rows[j].teamName)
    ensures StoredClashes(rows, batch) != []
  {
    var prefix := rows[..|rows| - 1];
    assert forall h | 0 <= h < |prefix| :: prefix[h] == rows[h];
    assert FirstOfMatch(prefix, i);
    if j < |rows| - 1 {
      StoredClashComplete(prefix, batch, i, j, k);
    } else {
      FirstIsOpener(prefix, i);
      OpponentsMeaning(batch, rows[i].teamName, rows[j].teamName);
    }
  }

  // ---------------------------------------------------------------- created rows

  /** The result rows of the batch: fixture `k` gets two rows with the `k`-th created id, its
      first side and then its second, each with its own goals. */
  function ResultRows(batch: seq<CreateMatchResultsRequest>, ids: seq<int>, idOf: map<string, int>): (r: seq<ResultRow>)
    requires WellFormed(batch) && |ids| == |batch| && Covers(batch, idOf)
    ensures |r| == 2 * |batch|
    ensures forall k | 0 <= k < |batch| ::
      && r[2 * k] == ResultRow(ids[k], idOf[Home(batch[k])], batch[k].result[0].goalsScored)
      && r[2 * k + 1] == ResultRow(ids[k], idOf[Away(batch[k])], batch[k].result[1].goalsScored)
  {
    if batch == [] then []
    else
      var n := |batch| - 1;
      var f := batch[n];
      var r := ResultRows(batch[..n], ids[..n], idOf)
        + [ResultRow(ids[n], idOf[Home(f)], f.result[0].goalsScored), ResultRow(ids[n], idOf[Away(f)], f.result[1].goalsScored)];
      assert forall k | 0 <= k < n :: batch[..n][k] == batch[k] && ids[..n][k] == ids[k];
      r
  }

  /** With distinct created ids, each new match gets exactly its two rows. */
  lemma RowsPerMatch(batch: seq<CreateMatchResultsRequest>, ids: seq<int>, idOf: map<string, int>, k: int, j: int)
    requires WellFormed(batch) && |ids| == |batch| && Covers(batch, idOf)
    requires forall a, b | 0 <= a < b < |ids| :: ids[a] != ids[b]
    requires 0 <= k < |batch| && 0 <= j < 2 * |batch|
    ensures ResultRows(batch, ids, idOf)[j].matchId == ids[k] <==> j == 2 * k || j == 2 * k + 1
  {
    var r := ResultRows(batch, ids, idOf);
    assert r[j].matchId == ids[j / 2] by {
      assert j == 2 * (j / 2) || j == 2 * (j / 2) + 1;
    }
  }

  /** The query keeps the stored order: querying two stretches of the store one after the
      other gives the rows of each in turn. */
  lemma {:induction false} MatchUpsAppend(a: seq<ResultRow>, b: seq<ResultRow>, matches: seq<GameMatch>,
                                          roster: seq<RosterTeam>, roundNumber: int, ids: set<int>)
    ensures MatchUps(a + b, matches, roster, roundNumber, ids)
         == MatchUps(a, matches, roster, roundNumber, ids) + MatchUps(b, matches, roster, roundNumber, ids)
  {
    if b == [] {
      assert a + b == a;
    } else {
      var b', last := b[..|b| - 1], b[|b| - 1];
      var kept := Kept(last, matches, roster, roundNumber, ids);
      calc {
        MatchUps(a + b, matches, roster, roundNumber, ids);
      == { assert a + b == (a + b') + [last]; }
        MatchUps((a + b') + [last], matches, roster, roundNumber, ids);
      == { MatchUpsSnoc(a + b', last, matches, roster, roundNumber, ids); }
        MatchUps(a + b', matches, roster, roundNumber, ids) + kept;
      == { MatchUpsAppend(a, b', matches, roster, roundNumber, ids); }
        MatchUps(a, matches, roster, roundNumber, ids) + (MatchUps(b', matches, roster, roundNumber, ids) + kept);
      == { MatchUpsSnoc(b', last, matches, roster, roundNumber, ids); assert b' + [last] == b; }
        MatchUps(a, matches, roster, roundNumber, ids) + MatchUps(b, matches, roster, roundNumber, ids);
      }
    }
  }

  /** One more stored row adds what it keeps. */
  lemma MatchUpsSnoc(results: seq<ResultRow>, row: ResultRow, matches: seq<GameMatch>, roster: seq<RosterTeam>,
                     roundNumber: int, ids: set<int>)
    ensures MatchUps(results + [row], matches, roster, roundNumber, ids)
         == MatchUps(results, matches, roster, roundNumber, ids) + Kept(row, matches, roster, roundNumber, ids)
  {
    assert (results + [row])[..|results|] == results;
  }

  /** Every row the query returns carries the match id of a stored result row. */
  lemma {:induction false} MatchUpsFrom(results: seq<ResultRow>, matches: seq<GameMatch>, roster: seq<RosterTeam>,
                                        roundNumber: int, ids: set<int>, i: int)
    requires 0 <= i < |MatchUps(results, matches, roster, roundNumber, ids)|
    ensures exists h | 0 <= h < |results| :: results[h].matchId == MatchUps(results, matches, roster, roundNumber, ids)[i].matchId
  {
    var prefix := results[..|results| - 1];
    var rows := MatchUps(prefix, matches, roster, roundNumber, ids);
    if i < |rows| {
      MatchUpsFrom(prefix, matches, roster, roundNumber, ids, i);
      var h :| 0 <= h < |prefix| && prefix[h].matchId == rows[i].matchId;
      assert results[h] == prefix[h];
    } else {
      assert results[|results| - 1].matchId == MatchUps(results, matches, roster, roundNumber, ids)[i].matchId;
    }
  }

  /** A single stored row the query keeps. */
  lemma MatchUpsOne(row: ResultRow, matches: seq<GameMatch>, roster: seq<RosterTeam>, roundNumber: int,
                    ids: set<int>, name: string)
    requires InRound(matches, row.matchId, roundNumber) && row.teamId in ids && NameOfId(roster, row.teamId) == Some(name)
    ensures MatchUps([row], matches, roster, roundNumber, ids) == [MatchUp(name, row.matchId, row.teamId)]
  {
    assert [row][..0] == [];
  }

  /** A stored match of the round whose first stored row and a later row belong to `t` and
      `u` puts those two rows into the query, the first one as the opener of the match. */
  lemma StoredMatchQueried(results: seq<ResultRow>, matches: seq<GameMatch>, roster: seq<RosterTeam>, roundNumber: int,
                           ids: set<int>, p: int, q: int, t: RosterTeam, u: RosterTeam)
    requires 0 <= p < q < |results| && results[p].matchId == results[q].matchId
    requires forall h | 0 <= h < p :: results[h].matchId != results[p].matchId
    requires InRound(matches, results[p].matchId, roundNumber)
    requires results[p].teamId == t.teamId && results[q].teamId == u.teamId && t.teamId in ids && u.teamId in ids
    requires NameOfId(roster, t.teamId) == Some(t.teamName) && NameOfId(roster, u.teamId) == Some(u.teamName)
    ensures var rows := MatchUps(results, matches, roster, roundNumber, ids);
      exists i, j | 0 <= i < j < |rows| ::
        FirstOfMatch(rows, i) && rows[j].matchId == rows[i].matchId && rows[i].teamName == t.teamName && rows[j].teamName == u.teamName
  {
    var before, mid, after := results[..p], results[p + 1..q], results[q + 1..];
    var P := MatchUp(t.teamName, results[p].matchId, t.teamId);
    var Q := MatchUp(u.teamName, results[q].matchId, u.teamId);
    var A := MatchUps(before, matches, roster, roundNumber, ids);
    var B := MatchUps(mid, matches, roster, roundNumber, ids);
    var C := MatchUps(after, matches, roster, roundNumber, ids);
    QueryAroundTwoRows(results, matches, roster, roundNumber, ids, p, q, t.teamName, u.teamName);
    forall x | x in A ensures x.matchId != P.matchId {
      var h :| 0 <= h < |A| && A[h] == x;
      MatchUpsFrom(before, matches, roster, roundNumber, ids, h);
    }
    OpenerThenLater(A, B, C, P, Q);
  }

  /** The query over the stored rows splits around rows `p` and `q`. */
  lemma QueryAroundTwoRows(results: seq<ResultRow>, matches: seq<GameMatch>, roster: seq<RosterTeam>, roundNumber: int,
                           ids: set<int>, p: int, q: int, tName: string, uName: string)
    requires 0 <= p < q < |results|
    requires InRound(matches, results[p].matchId, roundNumber) && InRound(matches, results[q].matchId, roundNumber)
    requires results[p].teamId in ids && results[q].teamId in ids
    requires NameOfId(roster, results[p].teamId) == Some(tName) && NameOfId(roster, results[q].teamId) == Some(uName)
    ensures MatchUps(results, matches, roster, roundNumber, ids)
         == MatchUps(results[..p], matches, roster, roundNumber, ids)
            + [MatchUp(tName, results[p].matchId, results[p].teamId)]
            + MatchUps(results[p + 1..q], matches, roster, roundNumber, ids)
            + [MatchUp(uName, results[q].matchId, results[q].teamId)]
            + MatchUps(results[q + 1..], matches, roster, roundNumber, ids)
  {
    QueryAroundRow(results, matches, roster, roundNumber, ids, q, uName);
    var pre := results[..q];
    assert pre[p] == results[p];
    QueryAroundRow(pre, matches, roster, roundNumber, ids, p, tName);
    assert pre[..p] == results[..p] && pre[p + 1..] == results[p + 1..q];
  }

  /** The query over the stored rows splits around a kept row `p`. */
  lemma QueryAroundRow(results: seq<ResultRow>, matches: seq<GameMatch>, roster: seq<RosterTeam>, roundNumber: int,
                       ids: set<int>, p: int, name: string)
    requires 0 <= p < |results|
    requires InRound(matches, results[p].matchId, roundNumber) && results[p].teamId in ids
    requires NameOfId(roster, results[p].teamId) == Some(name)
    ensures MatchUps(results, matches, roster, roundNumber, ids)
         == MatchUps(results[..p], matches, roster, roundNumber, ids)
            + [MatchUp(name, results[p].matchId, results[p].teamId)]
            + MatchUps(results[p + 1..], matches, roster, roundNumber, ids)
  {
    var before, after := results[..p], results[p + 1..];
    assert results == (before + [results[p]]) + after;
    MatchUpsAppend(before + [results[p]], after, matches, roster, roundNumber, ids);
    MatchUpsAppend(before, [results[p]], matches, roster, roundNumber, ids);
    MatchUpsOne(results[p], matches, roster, roundNumber, ids, name);
  }

  /** In `A + [P] + B + [Q] + C`, with no row of `A` in `P`'s match, `P` opens its match and
      `Q` comes later in it. */
  lemma OpenerThenLater(A: seq<MatchUp>, B: seq<MatchUp>, C: seq<MatchUp>, P: MatchUp, Q: MatchUp)
    requires P.matchId == Q.matchId
    requires forall x | x in A :: x.matchId != P.matchId
    ensures var rows := A + [P] + B + [Q] + C;
      exists i, j | 0 <= i < j < |rows| ::
        FirstOfMatch(rows, i) && rows[j].matchId == rows[i].matchId && rows[i].teamName == P.teamName && rows[j].teamName == Q.teamName
  {
    var rows := A + [P] + B + [Q] + C;
    var i, j := |A|, |A| + 1 + |B|;
    assert rows[i] == P && rows[j] == Q;
    forall h | 0 <= h < i
      ensures rows[h].matchId != rows[i].matchId
    {
      assert rows[h] == A[h];
    }
    assert FirstOfMatch(rows, i);
  }

  // ---------------------------------------------------------------- outcome

  /** What `create_match_results`' repository calls answer, supplied as inputs. */
  datatype IdsReply = Ids(ids: seq<int>) | IdsRaised(status: int)
  datatype ResultsReply = ResultsStored | ResultsNotStored | ResultsRaised(status: int)
  /** What the two `commit_transaction` calls of the success branch meet. */
  datatype CommitReplies = CommitReplies(first: CommitReply, second: CommitReply)

  /** The team ids the locked query is restricted to (`team_name_to_id_map.values()`). */
  function BatchTeamIds(batch: seq<CreateMatchResultsRequest>, roster: seq<RosterTeam>): set<int>
    requires WellFormed(batch)
  {
    IdsByName(TeamsNamed(roster, Names(batch))).Values
  }

  /** The duplicates found against the fixtures already stored for the round. */
  function RoundClashes(batch: seq<CreateMatchResultsRequest>, roster: seq<RosterTeam>, matches: seq<GameMatch>,
                        results: seq<ResultRow>, roundNumber: int): seq<(string, string)>
    requires WellFormed(batch)
  {
    StoredClashes(MatchUps(results, matches, roster, roundNumber, BatchTeamIds(batch, roster)), batch)
  }

  /** The outcome once the lock is held: the stored-round check, then the created ids, then
      the result rows. */
  function AfterLock(batch: seq<CreateMatchResultsRequest>, roster: seq<RosterTeam>, matches: seq<GameMatch>,
                     results: seq<ResultRow>, roundNumber: int, idsReply: IdsReply, resultsReply: ResultsReply,
                     commits: CommitReplies): (r: WriteOutcome)
    requires WellFormed(batch)
    ensures r.StoredDuplicates? || r.Raised? || r == IdCountMismatch || r == NotCreated || Commits(r)
  {
    var clashes := RoundClashes(batch, roster, matches, results, roundNumber);
    if clashes != [] then StoredDuplicates(clashes) else Creation(batch, roundNumber, idsReply, resultsReply, commits)
  }

  /** The outcome of the creation step: the created ids, the result rows, then the two
      commits and the broadcast of the round's standings. A commit that raises is answered
      with a 500 after a rollback; when it is the second one, the first has already committed
      the batch. The broadcast builds a `GetRankingResponse` for the round, which raises for a
      round outside 1 to 3: that too is a 500 answered after the batch was committed. */
  function Creation(batch: seq<CreateMatchResultsRequest>, roundNumber: int, idsReply: IdsReply,
                    resultsReply: ResultsReply, commits: CommitReplies): (r: WriteOutcome)
    ensures r.Raised? || r == IdCountMismatch || r == NotCreated || Commits(r)
    ensures Commits(r) <==>
      idsReply.Ids? && |idsReply.ids| == |batch| && |batch| > 0 && resultsReply == ResultsStored && commits.first.Committed?
    ensures r == Created <==> Commits(r) && commits.second.Committed? && 1 <= roundNumber <= 3
  {
    match idsReply
    case IdsRaised(status) => Raised(status)
    case Ids(ids) =>
      if |ids| == 0 then NotCreated
      else if |ids| != |batch| then IdCountMismatch
      else match resultsReply
        case ResultsStored =>
          if commits.first == CommitRaised then Raised(500)
          else if commits.second == CommitRaised then CommittedThenRaised
          else if ValidateRankingRound(roundNumber).Rejected? then CommittedThenRaised
          else Created
        case ResultsNotStored => NotCreated
        case ResultsRaised(status) => Raised(status)
  }

  /** A batch that passes the pre-lock checks but pairs two teams that already played each
      other in this round (a stored match of the round whose first stored row is `t`'s and a
      later row `u`'s) is rejected under the lock, whatever the repository would answer. */
  lemma StoredFixtureRejects(batch: seq<CreateMatchResultsRequest>, roster: seq<RosterTeam>, matches: seq<GameMatch>,
                             results: seq<ResultRow>, roundNumber: int, idsReply: IdsReply, resultsReply: ResultsReply,
                             commits: CommitReplies, p: int, q: int, k: int, t: RosterTeam, u: RosterTeam)
    requires WellFormed(batch) && NamesDistinct(roster) && IdsDistinct(roster)
    requires Precheck(batch, roster, roundNumber) == None
    requires 0 <= p < q < |results| && results[p].matchId == results[q].matchId
    requires forall h | 0 <= h < p :: results[h].matchId != results[p].matchId
    requires InRound(matches, results[p].matchId, roundNumber)
    requires t in roster && u in roster && results[p].teamId == t.teamId && results[q].teamId == u.teamId
    requires Pairs(batch, k, t.teamName, u.teamName)
    ensures AfterLock(batch, roster, matches, results, roundNumber, idsReply, resultsReply, commits).StoredDuplicates?
  {
    var names := Names(batch);
    var existing := TeamsNamed(roster, names);
    NamesMeaning(batch, t.teamName);
    NamesMeaning(batch, u.teamName);
    TeamsNamedMembers(roster, names, t);
    TeamsNamedMembers(roster, names, u);
    TeamsNamedDistinct(roster, names);
    IndexMeaning(existing);
    var i :| 0 <= i < |existing| && existing[i] == t;
    var j :| 0 <= j < |existing| && existing[j] == u;
    assert IdsByName(existing)[t.teamName] == t.teamId;
    assert IdsByName(existing)[u.teamName] == u.teamId;
    IdOwner(roster, t);
    IdOwner(roster, u);
    var ids := BatchTeamIds(batch, roster);
    StoredMatchQueried(results, matches, roster, roundNumber, ids, p, q, t, u);
    var rows := MatchUps(results, matches, roster, roundNumber, ids);
    var a, b :| 0 <= a < b < |rows| && FirstOfMatch(rows, a) && rows[b].matchId == rows[a].matchId
      && rows[a].teamName == t.teamName && rows[b].teamName == u.teamName;
    StoredClashComplete(rows, batch, a, b, k);
  }

  /** With unique ids, a stored team's id names that team. */
  lemma IdOwner(roster: seq<RosterTeam>, t: RosterTeam)
    requires IdsDistinct(roster) && t in roster
    ensures NameOfId(roster, t.teamId) == Some(t.teamName)
  {
    var r := NameOfId(roster, t.teamId);
    if r.Some? {
      var k :| 0 <= k < |roster| && roster[k].teamId == t.teamId && roster[k].teamName == r.value;
      var h :| 0 <= h < |roster| && roster[h] == t;
    }
  }

  /** Every row names one of `names`. */
  predicate NamesWithin(rows: seq<MatchUp>, names: set<string>) {
    forall i | 0 <= i < |rows| :: rows[i].teamName in names
  }

  /** The locked query only returns teams of the batch, so every opener it yields is a key of
      `match_up_dict`. */
  lemma QueriedNamesInBatch(batch: seq<CreateMatchResultsRequest>, roster: seq<RosterTeam>, matches: seq<GameMatch>,
                            results: seq<ResultRow>, roundNumber: int)
    requires WellFormed(batch) && IdsDistinct(roster)
    ensures NamesWithin(MatchUps(results, matches, roster, roundNumber, BatchTeamIds(batch, roster)), Names(batch))
  {
    var existing := TeamsNamed(roster, Names(batch));
    var rows := MatchUps(results, matches, roster, roundNumber, BatchTeamIds(batch, roster));
    MatchUpsNamed(results, matches, roster, roundNumber, BatchTeamIds(batch, roster));
    IndexMeaning(existing);
    forall i | 0 <= i < |rows|
      ensures rows[i].teamName in Names(batch)
    {
      var k :| 0 <= k < |existing| && existing[k].teamId == rows[i].teamId;
      TeamsNamedMembers(roster, Names(batch), existing[k]);
      IdOwner(roster, existing[k]);
    }
  }

  /** The rows written for a batch that passed the pre-lock checks. */
  function CreatedRows(batch: seq<CreateMatchResultsRequest>, roster: seq<RosterTeam>, ids: seq<int>): (r: seq<ResultRow>)
    requires WellFormed(batch) && NamesDistinct(roster) && |ids| == |batch|
    requires |TeamsNamed(roster, Names(batch))| == |Names(batch)|
    ensures |r| == 2 * |batch|
  {
    KnownNamesCovered(batch, roster);
    ResultRows(batch, ids, IdsByName(TeamsNamed(roster, Names(batch))))
  }
}
