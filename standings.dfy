/** The rest of `MatchController.get_match_rankings`: splitting the tallied teams into groups,
    adding the roster teams that have no paired result yet, sorting each group and assigning
    positions and flags. */
module Standings {
  import opened Validation
  import opened RankSchema
  import opened RankingOrder
  import opened Positions
  import opened PositionFacts
  import opened Tally

  /** A roster team as the ranking reads it (`team_id`, `team_name`, `group_number`,
      `registration_day_of_year`). */
  datatype RosterTeam = RosterTeam(teamId: int, teamName: string, groupNumber: int, registrationDayOfYear: int)

  /** A standings line together with the group it is filed under. */
  datatype GroupLine = GroupLine(group: int, line: TeamRank)

  /** The lines of the tallied teams, in the tally's key order, each filed under the group of
      its first mention. */
  function PlayedLines(order: seq<int>, tally: map<int, TeamRank>, groupOf: map<int, int>): (r: seq<GroupLine>)
    requires forall k | 0 <= k < |order| :: order[k] in tally && order[k] in groupOf
    ensures |r| == |order|
    ensures forall k | 0 <= k < |r| :: r[k] == GroupLine(groupOf[order[k]], tally[order[k]])
  {
    if order == [] then []
    else
      var t := order[|order| - 1];
      PlayedLines(order[..|order| - 1], tally, groupOf) + [GroupLine(groupOf[t], tally[t])]
  }

  /** The zero line of a roster team that has not played. */
  function IdleLine(team: RosterTeam, toDdmm: int -> string): (r: TeamRank)
    ensures r.teamId == team.teamId && r.teamName == team.teamName
    ensures r.goals == 0 && r.wins == 0 && r.draws == 0 && r.losses == 0
    ensures !r.isTied && !r.isQualified
    ensures r.registrationDayOfYear == team.registrationDayOfYear
  {
    NewTeamRank(1, false, team.teamId, team.teamName, 0, 0, 0, 0,
                toDdmm(team.registrationDayOfYear), team.registrationDayOfYear)
  }

  /** The zero line a roster team contributes: one when it is absent from the tally, none otherwise. */
  function IdleOf(team: RosterTeam, tally: map<int, TeamRank>, toDdmm: int -> string): (r: seq<GroupLine>)
    ensures |r| <= 1
    ensures forall e | e in r :: e.group == team.groupNumber && e.line.teamId == team.teamId
    ensures r == [] <==> team.teamId in tally
  {
    if team.teamId !in tally then [GroupLine(team.groupNumber, IdleLine(team, toDdmm))] else []
  }

  /** The lines of the roster teams absent from the tally, in roster order. */
  function IdleLines(roster: seq<RosterTeam>, tally: map<int, TeamRank>, toDdmm: int -> string): (r: seq<GroupLine>)
    ensures forall e | e in r :: e.line.teamId !in tally && !e.line.isTied && !e.line.isQualified
  {
    if roster == [] then []
    else
      IdleLines(roster[..|roster| - 1], tally, toDdmm) + IdleOf(roster[|roster| - 1], tally, toDdmm)
  }

  /** The lines filed under group `g`, in the order they were filed. */
  function Members(entries: seq<GroupLine>, g: int): (r: seq<TeamRank>)
    ensures |r| <= |entries|
  {
    if entries == [] then []
    else
      var e := entries[|entries| - 1];
      Members(entries[..|entries| - 1], g) + (if e.group == g then [e.line] else [])
  }

  /** The groups in order of their first filed line: the key order of `group_dict`. */
  function GroupKeys(entries: seq<GroupLine>): (r: seq<int>)
    ensures |r| <= |entries|
  {
    if entries == [] then []
    else AddOnce(GroupKeys(entries[..|entries| - 1]), entries[|entries| - 1].group)
  }

  /** A group has a key exactly when some line was filed under it. */
  lemma {:induction false} GroupKeysAreFiledGroups(entries: seq<GroupLine>, g: int)
    ensures g in GroupKeys(entries) <==> exists k | 0 <= k < |entries| :: entries[k].group == g
  {
    if entries != [] {
      var prefix := entries[..|entries| - 1];
      GroupKeysAreFiledGroups(prefix, g);
      if exists k | 0 <= k < |prefix| :: prefix[k].group == g {
        var k :| 0 <= k < |prefix| && prefix[k].group == g;
        assert entries[k].group == g;
      }
    }
  }

  /** Group `g`'s members are exactly the lines filed under `g`. */
  lemma {:induction false} MembersAreFiledLines(entries: seq<GroupLine>, g: int, x: TeamRank)
    ensures x in Members(entries, g) <==> GroupLine(g, x) in entries
  {
    if entries != [] {
      var prefix := entries[..|entries| - 1];
      MembersAreFiledLines(prefix, g, x);
      assert entries == prefix + [entries[|entries| - 1]];
    }
  }

  lemma {:induction false} GroupKeysDistinct(entries: seq<GroupLine>)
    ensures Distinct(GroupKeys(entries))
  {
    if entries != [] {
      GroupKeysDistinct(entries[..|entries| - 1]);
      AddOnceDistinct(GroupKeys(entries[..|entries| - 1]), entries[|entries| - 1].group);
    }
  }

  /** Every group that has a key has at least one member, so the source's skip of an empty group
      never fires. */
  lemma KeyedGroupsAreNonEmpty(entries: seq<GroupLine>, g: int)
    requires g in GroupKeys(entries)
    ensures |Members(entries, g)| > 0
  {
    GroupKeysAreFiledGroups(entries, g);
    var k :| 0 <= k < |entries| && entries[k].group == g;
    MembersAreFiledLines(entries, g, entries[k].line);
  }

  /** A group without a key has no members. */
  lemma {:induction false} UnkeyedGroupIsEmpty(entries: seq<GroupLine>, g: int)
    requires g !in GroupKeys(entries)
    ensures Members(entries, g) == []
  {
    if entries != [] {
      UnkeyedGroupIsEmpty(entries[..|entries| - 1], g);
    }
  }

  /** `group_dict` after filing `entries`. */
  ghost predicate Filed(groups: map<int, seq<TeamRank>>, keys: seq<int>, entries: seq<GroupLine>) {
    && keys == GroupKeys(entries)
    && (forall g :: g in groups <==> g in keys)
    && (forall g | g in groups :: groups[g] == Members(entries, g))
  }

  /** `group_dict.setdefault(g, []).append(line)`. */
  method File(groups: map<int, seq<TeamRank>>, keys: seq<int>, ghost entries: seq<GroupLine>, e: GroupLine)
    returns (groups': map<int, seq<TeamRank>>, keys': seq<int>)
    requires Filed(groups, keys, entries)
    ensures Filed(groups', keys', entries + [e])
  {
    groups', keys' := groups, keys;
    if e.group !in groups' {
      groups' := groups'[e.group := []];
      keys' := keys' + [e.group];
    }
    groups' := groups'[e.group := groups'[e.group] + [e.line]];
    var entries' := entries + [e];
    assert entries'[..|entries'| - 1] == entries;
    forall g | g in groups' ensures groups'[g] == Members(entries', g) {
      if g == e.group && e.group !in groups {
        UnkeyedGroupIsEmpty(entries, g);
      }
    }
  }

  /** The first half of the grouping: every tallied team, in the tally's key order, is filed
      under the group of its first mention. */
  method FilePlayed(order: seq<int>, tally: map<int, TeamRank>, groupOf: map<int, int>)
    returns (groups: map<int, seq<TeamRank>>, keys: seq<int>)
    requires forall k | 0 <= k < |order| :: order[k] in tally && order[k] in groupOf
    ensures Filed(groups, keys, PlayedLines(order, tally, groupOf))
  {
    groups, keys := map[], [];
    ghost var entries: seq<GroupLine> := [];
    var i := 0;
    while i < |order|
      invariant 0 <= i <= |order|
      invariant entries == PlayedLines(order[..i], tally, groupOf)
      invariant Filed(groups, keys, entries)
    {
      var t := order[i];
      var e := GroupLine(groupOf[t], tally[t]);
      groups, keys := File(groups, keys, entries, e);
      PlayedLinesStep(order, tally, groupOf, i);
      entries := entries + [e];
      i := i + 1;
    }
    assert order[..i] == order;
  }

  /** One more tallied team appends its line. */
  lemma PlayedLinesStep(order: seq<int>, tally: map<int, TeamRank>, groupOf: map<int, int>, i: int)
    requires forall k | 0 <= k < |order| :: order[k] in tally && order[k] in groupOf
    requires 0 <= i < |order|
    ensures PlayedLines(order[..i + 1], tally, groupOf)
         == PlayedLines(order[..i], tally, groupOf) + [GroupLine(groupOf[order[i]], tally[order[i]])]
  {
    assert order[..i + 1][..i] == order[..i];
  }

  /** The second half: every roster team missing from the tally is filed, with zero counters,
      under its own group. */
  method FileIdle(groups: map<int, seq<TeamRank>>, keys: seq<int>, ghost played: seq<GroupLine>,
                  roster: seq<RosterTeam>, tally: map<int, TeamRank>, toDdmm: int -> string)
    returns (groups': map<int, seq<TeamRank>>, keys': seq<int>)
    requires Filed(groups, keys, played)
    ensures Filed(groups', keys', played + IdleLines(roster, tally, toDdmm))
  {
    groups', keys' := groups, keys;
    ghost var entries := played;
    var j := 0;
    assert roster[..0] == [];
    while j < |roster|
      invariant 0 <= j <= |roster|
      invariant entries == played + IdleLines(roster[..j], tally, toDdmm)
      invariant Filed(groups', keys', entries)
    {
      groups', keys' := FileIdleTeam(groups', keys', entries, roster[j], tally, toDdmm);
      IdleLinesStep(played, roster, tally, toDdmm, j);
      entries := entries + IdleOf(roster[j], tally, toDdmm);
      j := j + 1;
    }
    assert roster[..j] == roster;
  }

  /** Files one roster team's zero line when it is absent from the tally. */
  method FileIdleTeam(groups: map<int, seq<TeamRank>>, keys: seq<int>, ghost entries: seq<GroupLine>,
                      team: RosterTeam, tally: map<int, TeamRank>, toDdmm: int -> string)
    returns (groups': map<int, seq<TeamRank>>, keys': seq<int>)
    requires Filed(groups, keys, entries)
    ensures Filed(groups', keys', entries + IdleOf(team, tally, toDdmm))
  {
    if team.teamId !in tally {
      groups', keys' := File(groups, keys, entries, GroupLine(team.groupNumber, IdleLine(team, toDdmm)));
    } else {
      groups', keys' := groups, keys;
      assert entries + [] == entries;
    }
  }

  /** One more roster team appends its zero line, if any, to what is already filed. */
  lemma IdleLinesStep(played: seq<GroupLine>, roster: seq<RosterTeam>, tally: map<int, TeamRank>,
                      toDdmm: int -> string, j: int)
    requires 0 <= j < |roster|
    ensures played + IdleLines(roster[..j + 1], tally, toDdmm)
         == (played + IdleLines(roster[..j], tally, toDdmm)) + IdleOf(roster[j], tally, toDdmm)
  {
    assert roster[..j + 1][..j] == roster[..j];
  }

  /** Splits the tally into groups (in the tally's key order), then adds every roster team
      missing from the tally, with zero counters, to its own group. */
  method GroupTeams(order: seq<int>, tally: map<int, TeamRank>, groupOf: map<int, int>,
                    roster: seq<RosterTeam>, toDdmm: int -> string)
    returns (groups: map<int, seq<TeamRank>>, keys: seq<int>)
    requires forall k | 0 <= k < |order| :: order[k] in tally && order[k] in groupOf
    ensures Filed(groups, keys, PlayedLines(order, tally, groupOf) + IdleLines(roster, tally, toDdmm))
  {
    groups, keys := FilePlayed(order, tally, groupOf);
    groups, keys := FileIdle(groups, keys, PlayedLines(order, tally, groupOf), roster, tally, toDdmm);
  }

  /** A group's list once sorted and positioned. */
  function Positioned(group: seq<TeamRank>, qualifyingCount: int): seq<TeamRank> {
    Ranked(SortByKey(group), qualifyingCount)
  }

  /** An empty group stays empty, so skipping it changes nothing. */
  lemma EmptyGroupPositioned(qualifyingCount: int)
    ensures Positioned([], qualifyingCount) == []
  {
    assert |SortByKey([])| == 0;
  }

  /** Sorts every keyed group and runs the backward pass over it, in key order, replacing the
      group's list (a group left empty is skipped, as in the source). */
  method RankGroups(groups: map<int, seq<TeamRank>>, keys: seq<int>, qualifyingCount: int)
    returns (ranked: map<int, seq<TeamRank>>)
    requires Distinct(keys)
    requires forall g :: g in groups <==> g in keys
    ensures ranked.Keys == groups.Keys
    ensures forall g | g in ranked :: ranked[g] == Ranked(SortByKey(groups[g]), qualifyingCount)
  {
    ranked := groups;
    var k := 0;
    while k < |keys|
      invariant 0 <= k <= |keys|
      invariant ranked.Keys == groups.Keys
      invariant forall g | g in ranked ::
        ranked[g] == if g in keys[..k] then Positioned(groups[g], qualifyingCount) else groups[g]
    {
      var g := keys[k];
      assert keys[..k + 1] == keys[..k] + [g];
      assert g in keys;
      assert g !in keys[..k] by {
        forall j | 0 <= j < k
          ensures keys[..k][j] != g
        {
          assert keys[..k][j] == keys[j];
        }
      }
      if |ranked[g]| == 0 {
        EmptyGroupPositioned(qualifyingCount);
      } else {
        var sorted := SortByKey(ranked[g]);
        var positioned := AssignPositions(sorted, qualifyingCount);
        ranked := ranked[g := positioned];
      }
      k := k + 1;
    }
    assert keys[..k] == keys;
  }

  /** The rows the results query returns for a group filter: all rows, or the rows of
      group `g` only. */
  function ResultsInGroup(rows: seq<ResultDetail>, filter: Option<int>): (r: seq<ResultDetail>)
    ensures forall x | x in r :: x in rows && (filter.Some? ==> x.groupNumber == filter.value)
  {
    if rows == [] || filter.None? then rows
    else
      var x := rows[|rows| - 1];
      ResultsInGroup(rows[..|rows| - 1], filter) + (if x.groupNumber == filter.value then [x] else [])
  }

  /** The teams the roster query returns for a group filter. */
  function RosterInGroup(roster: seq<RosterTeam>, filter: Option<int>): (r: seq<RosterTeam>)
    ensures forall x | x in r :: x in roster && (filter.Some? ==> x.groupNumber == filter.value)
    ensures forall x | x in roster && (filter.Some? ==> x.groupNumber == filter.value) :: x in r
  {
    if roster == [] || filter.None? then roster
    else
      var x := roster[|roster| - 1];
      RosterInGroup(roster[..|roster| - 1], filter) + (if x.groupNumber == filter.value then [x] else [])
  }

  /** Every standings line filed, in filing order: the tallied teams, then the idle roster teams. */
  function Lines(ps: seq<MatchPair>, roster: seq<RosterTeam>, toDdmm: int -> string): seq<GroupLine> {
    var order := TeamsInOrder(ps);
    assert forall k | 0 <= k < |order| :: Played(ps, order[k]) > 0;
    PlayedLines(order, TallyOf(ps, toDdmm), GroupsOf(ps)) + IdleLines(roster, TallyOf(ps, toDdmm), toDdmm)
  }

  /** The pairs formed from the rows of the filtered results query. */
  function PairsFor(rows: seq<ResultDetail>, filter: Option<int>): seq<MatchPair> {
    Pairs(ResultsInGroup(rows, filter))
  }

  /** The filed lines for a query with the given filter. */
  function LinesFor(rows: seq<ResultDetail>, roster: seq<RosterTeam>, filter: Option<int>, toDdmm: int -> string): seq<GroupLine> {
    Lines(PairsFor(rows, filter), RosterInGroup(roster, filter), toDdmm)
  }

  /** The response built from the filed lines: one entry per filed group, in key order, holding
      the group's lines sorted and positioned. */
  function Respond(entries: seq<GroupLine>, qualifyingCount: int, roundNumber: int): (r: GetRankingResponse)
    ensures r.roundNumber == roundNumber
    ensures |r.groupRankings| == |GroupKeys(entries)|
  {
    var keys := GroupKeys(entries);
    GetRankingResponse(roundNumber, seq(|keys|, j requires 0 <= j < |keys| =>
      GroupRanking(keys[j], Ranked(SortByKey(Members(entries, keys[j])), qualifyingCount))))
  }

  /** The response `get_match_rankings` builds for a round, a cut-off and a group filter. */
  function RankingResponse(rows: seq<ResultDetail>, roster: seq<RosterTeam>, qualifyingCount: int, roundNumber: int,
                     filter: Option<int>, toDdmm: int -> string): GetRankingResponse
  {
    Respond(LinesFor(rows, roster, filter, toDdmm), qualifyingCount, roundNumber)
  }

  /** Entry `j` of the response is group `keys[j]` with its ranked list. */
  lemma RespondEntry(groups: map<int, seq<TeamRank>>, keys: seq<int>, entries: seq<GroupLine>,
                     ranked: map<int, seq<TeamRank>>, qualifyingCount: int, roundNumber: int, j: int)
    requires Filed(groups, keys, entries)
    requires ranked.Keys == groups.Keys
    requires forall g | g in ranked :: ranked[g] == Ranked(SortByKey(groups[g]), qualifyingCount)
    requires 0 <= j < |keys|
    ensures keys[j] in ranked
    ensures j < |Respond(entries, qualifyingCount, roundNumber).groupRankings|
    ensures Respond(entries, qualifyingCount, roundNumber).groupRankings[j] == GroupRanking(keys[j], ranked[keys[j]])
  {
    var g := keys[j];
    assert g in keys;
    assert groups[g] == Members(entries, g);
  }

  /** The response read off the ranked groups in key order. */
  function Assemble(keys: seq<int>, ranked: map<int, seq<TeamRank>>, roundNumber: int): (r: GetRankingResponse)
    requires forall j | 0 <= j < |keys| :: keys[j] in ranked
    ensures r.roundNumber == roundNumber && |r.groupRankings| == |keys|
    ensures forall j | 0 <= j < |keys| :: r.groupRankings[j] == GroupRanking(keys[j], ranked[keys[j]])
  {
    GetRankingResponse(roundNumber, seq(|keys|, j requires 0 <= j < |keys| => GroupRanking(keys[j], ranked[keys[j]])))
  }

  /** Reading the ranked groups off in key order gives the response. */
  lemma RespondFromFiled(groups: map<int, seq<TeamRank>>, keys: seq<int>, entries: seq<GroupLine>,
                         ranked: map<int, seq<TeamRank>>, qualifyingCount: int, roundNumber: int)
    requires Filed(groups, keys, entries)
    requires ranked.Keys == groups.Keys
    requires forall g | g in ranked :: ranked[g] == Ranked(SortByKey(groups[g]), qualifyingCount)
    ensures forall j | 0 <= j < |keys| :: keys[j] in ranked
    ensures Assemble(keys, ranked, roundNumber) == Respond(entries, qualifyingCount, roundNumber)
  {
    forall j | 0 <= j < |keys| ensures keys[j] in ranked {
      RespondEntry(groups, keys, entries, ranked, qualifyingCount, roundNumber, j);
    }
    var mine := Assemble(keys, ranked, roundNumber).groupRankings;
    var theirs := Respond(entries, qualifyingCount, roundNumber).groupRankings;
    assert |mine| == |theirs|;
    forall j | 0 <= j < |keys| ensures mine[j] == theirs[j] {
      RespondEntry(groups, keys, entries, ranked, qualifyingCount, roundNumber, j);
    }
    assert mine == theirs;
  }

  /** The tally and grouping half of `get_match_rankings`: the groups it files are the groups
      of the pairs' tally plus the idle roster teams. */
  method CollectGroups(results: seq<ResultDetail>, teams: seq<RosterTeam>, toDdmm: int -> string)
    returns (groups: map<int, seq<TeamRank>>, keys: seq<int>)
    ensures Filed(groups, keys, Lines(Pairs(results), teams, toDdmm))
    ensures Distinct(keys)
  {
    var tally, groupOf, order := TallyResults(results, toDdmm);
    ghost var ps := Pairs(results);
    TalliedIsDetermined(tally, groupOf, order, ps, toDdmm);
    assert forall k | 0 <= k < |order| :: Played(ps, order[k]) > 0;
    groups, keys := GroupTeams(order, tally, groupOf, teams, toDdmm);
    GroupKeysDistinct(Lines(ps, teams, toDdmm));
  }

  /** `get_match_rankings`: the two queries' answers are the parameters `rows` and `roster` before
      filtering; the date formatter is the parameter `toDdmm`. The standings are computed first and
      then handed to `GetRankingResponse`, whose round validator raises for a round outside 1 to 3;
      that raise is the `Rejected` answer. */
  method GetMatchRankings(rows: seq<ResultDetail>, roster: seq<RosterTeam>, qualifyingCount: int, roundNumber: int,
                          filter: Option<int>, toDdmm: int -> string)
    returns (response: Checked<GetRankingResponse>)
    ensures response.Rejected? <==> ValidateRankingRound(roundNumber).Rejected?
    ensures response.Rejected? ==> response.message == "Round number should be between 1 and 3"
    ensures response.Accepted? ==> response.value == RankingResponse(rows, roster, qualifyingCount, roundNumber, filter, toDdmm)
  {
    var results := ResultsInGroup(rows, filter);
    var teams := RosterInGroup(roster, filter);
    var groups, keys := CollectGroups(results, teams, toDdmm);
    var ranked := RankGroups(groups, keys, qualifyingCount);
    RespondFromFiled(groups, keys, Lines(Pairs(results), teams, toDdmm), ranked, qualifyingCount, roundNumber);
    var round := ValidateRankingRound(roundNumber);
    if round.Rejected? {
      response := Rejected(round.message);
    } else {
      response := Accepted(Assemble(keys, ranked, round.value));
    }
  }
}
