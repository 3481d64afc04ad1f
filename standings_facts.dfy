/** What the standings response means: each group's list is its filed lines sorted by the
    ranking key, positions count the teams at least as good, the flags follow their neighbours
    and the cut-off, idle roster teams are listed with zeros, and no team is listed twice. */
module StandingsFacts {
  import opened Validation
  import opened RankSchema
  import opened RankingOrder
  import opened Positions
  import opened PositionFacts
  import opened Tally
  import opened Standings

  /** Entry `j` of the response is group `keys[j]` with its members sorted and positioned. */
  lemma EntryOf(rows: seq<ResultDetail>, roster: seq<RosterTeam>, q: int, round: int,
                filter: Option<int>, toDdmm: int -> string, j: nat)
    requires j < |RankingResponse(rows, roster, q, round, filter, toDdmm).groupRankings|
    ensures var entries := LinesFor(rows, roster, filter, toDdmm);
            var g := GroupKeys(entries)[j];
            RankingResponse(rows, roster, q, round, filter, toDdmm).groupRankings[j]
              == GroupRanking(g, Ranked(SortByKey(Members(entries, g)), q))
  {
  }

  /** A tallied line carries no tie or qualification flag yet. */
  lemma TallyUnflagged(ps: seq<MatchPair>, toDdmm: int -> string, t: int)
    requires t in TallyOf(ps, toDdmm)
    ensures !TallyOf(ps, toDdmm)[t].isTied && !TallyOf(ps, toDdmm)[t].isQualified
  {
    assert TallyOf(ps, toDdmm)[t] == RankOf(ps, t, toDdmm);
  }

  /** No filed line carries a tie or qualification flag yet. */
  lemma LinesUnflagged(ps: seq<MatchPair>, roster: seq<RosterTeam>, toDdmm: int -> string, k: nat)
    requires k < |Lines(ps, roster, toDdmm)|
    ensures !Lines(ps, roster, toDdmm)[k].line.isTied && !Lines(ps, roster, toDdmm)[k].line.isQualified
  {
    var order := TeamsInOrder(ps);
    var tally := TallyOf(ps, toDdmm);
    assert forall k | 0 <= k < |order| :: Played(ps, order[k]) > 0;
    var played := PlayedLines(order, tally, GroupsOf(ps));
    var idle := IdleLines(roster, tally, toDdmm);
    assert Lines(ps, roster, toDdmm) == played + idle;
    if k < |played| {
      TallyUnflagged(ps, toDdmm, order[k]);
    } else {
      assert idle[k - |played|] in idle;
    }
  }

  /** Every line of a group's sorted list is a filed, unflagged line of that group. */
  lemma SortedMemberIsFiled(ps: seq<MatchPair>, roster: seq<RosterTeam>, toDdmm: int -> string, g: int, x: TeamRank)
    requires x in SortByKey(Members(Lines(ps, roster, toDdmm), g))
    ensures GroupLine(g, x) in Lines(ps, roster, toDdmm)
    ensures !x.isTied && !x.isQualified
  {
    var entries := Lines(ps, roster, toDdmm);
    var m := Members(entries, g);
    assert x in multiset(SortByKey(m));
    assert x in m;
    MembersAreFiledLines(entries, g, x);
    var k :| 0 <= k < |entries| && entries[k] == GroupLine(g, x);
    LinesUnflagged(ps, roster, toDdmm, k);
  }

  /** A group's list: its filed lines in ranking-key order, a permutation of them, with only
      the position and the two flags rewritten. Every group in the response is non-empty. */
  lemma GroupIsSortedPermutation(rows: seq<ResultDetail>, roster: seq<RosterTeam>, q: int, round: int,
                                 filter: Option<int>, toDdmm: int -> string, j: nat, i: nat)
    requires j < |RankingResponse(rows, roster, q, round, filter, toDdmm).groupRankings|
    ensures var entries := LinesFor(rows, roster, filter, toDdmm);
            var g := GroupKeys(entries)[j];
            var s := SortByKey(Members(entries, g));
            var r := RankingResponse(rows, roster, q, round, filter, toDdmm).groupRankings[j].teamRankings;
            && |r| == |s| > 0
            && Sorted(s)
            && multiset(s) == multiset(Members(entries, g))
            && (i < |r| ==> r[i] == s[i].(position := r[i].position, isTied := r[i].isTied, isQualified := r[i].isQualified))
  {
    var entries := LinesFor(rows, roster, filter, toDdmm);
    var g := GroupKeys(entries)[j];
    EntryOf(rows, roster, q, round, filter, toDdmm, j);
    KeyedGroupsAreNonEmpty(entries, g);
  }

  /** Down a group's list, the ranking key never increases; among teams level on points, goals
      and alternate points, the earlier registrant comes first. */
  lemma EarlierRegistrantFirst(rows: seq<ResultDetail>, roster: seq<RosterTeam>, q: int, round: int,
                               filter: Option<int>, toDdmm: int -> string, j: nat, i: nat, k: nat)
    requires j < |RankingResponse(rows, roster, q, round, filter, toDdmm).groupRankings|
    requires i < k < |RankingResponse(rows, roster, q, round, filter, toDdmm).groupRankings[j].teamRankings|
    ensures var r := RankingResponse(rows, roster, q, round, filter, toDdmm).groupRankings[j].teamRankings;
            && KeyGE(KeyOf(r[i]), KeyOf(r[k]))
            && (Score(r[i]) == Score(r[k]) && r[i].goals == r[k].goals && AlternateScore(r[i]) == AlternateScore(r[k])
                ==> r[i].registrationDayOfYear <= r[k].registrationDayOfYear)
  {
    var entries := LinesFor(rows, roster, filter, toDdmm);
    var g := GroupKeys(entries)[j];
    var s := SortByKey(Members(entries, g));
    EntryOf(rows, roster, q, round, filter, toDdmm, j);
    assert KeyGE(KeyOf(s[i]), KeyOf(s[k]));
  }

  /** Positions and flags of team `i` of group `j`: its position is the number of teams of the
      group whose key is at least its own; positions lie in 1..n, never decrease down the list,
      the last team gets n and a tied block shares the position of its last member; the team is
      tied exactly when a neighbour has an equal key, and qualified exactly when its position is
      within the cut-off. */
  lemma PositionsAndFlags(rows: seq<ResultDetail>, roster: seq<RosterTeam>, q: int, round: int,
                          filter: Option<int>, toDdmm: int -> string, j: nat, i: nat)
    requires j < |RankingResponse(rows, roster, q, round, filter, toDdmm).groupRankings|
    requires i < |RankingResponse(rows, roster, q, round, filter, toDdmm).groupRankings[j].teamRankings|
    ensures var entries := LinesFor(rows, roster, filter, toDdmm);
            var s := SortByKey(Members(entries, GroupKeys(entries)[j]));
            var r := RankingResponse(rows, roster, q, round, filter, toDdmm).groupRankings[j].teamRankings;
            && r[i].position == CountAtLeast(s, KeyOf(r[i]))
            && 1 <= r[i].position <= |r|
            && (i == |r| - 1 ==> r[i].position == |r|)
            && (i + 1 < |r| ==> r[i].position <= r[i + 1].position)
            && (i + 1 < |r| && KeyOf(r[i]) == KeyOf(r[i + 1]) ==> r[i].position == r[i + 1].position)
            && (r[i].isTied <==> (i + 1 < |r| && KeyOf(r[i]) == KeyOf(r[i + 1])) || (0 < i && KeyOf(r[i - 1]) == KeyOf(r[i])))
            && (r[i].isQualified <==> r[i].position <= q)
  {
    var entries := LinesFor(rows, roster, filter, toDdmm);
    var g := GroupKeys(entries)[j];
    var s := SortByKey(Members(entries, g));
    EntryOf(rows, roster, q, round, filter, toDdmm, j);
    SortedMemberIsFiled(PairsFor(rows, filter), RosterInGroup(roster, filter), toDdmm, g, s[i]);
    RankedFacts(s, q, i);
  }

  /** The positions and flags of slot `i` of a sorted, unflagged list once ranked. */
  lemma RankedFacts(s: seq<TeamRank>, q: int, i: nat)
    requires Sorted(s) && i < |s| && !s[i].isTied && !s[i].isQualified
    ensures var r := Ranked(s, q);
            && r[i].position == CountAtLeast(s, KeyOf(r[i]))
            && 1 <= r[i].position <= |r|
            && (i == |r| - 1 ==> r[i].position == |r|)
            && (i + 1 < |r| ==> r[i].position <= r[i + 1].position)
            && (i + 1 < |r| && KeyOf(r[i]) == KeyOf(r[i + 1]) ==> r[i].position == r[i + 1].position)
            && (r[i].isTied <==> (i + 1 < |r| && KeyOf(r[i]) == KeyOf(r[i + 1])) || (0 < i && KeyOf(r[i - 1]) == KeyOf(r[i])))
            && (r[i].isQualified <==> r[i].position <= q)
  {
    PositionCountsTeamsAtLeastAsGood(s, q, i);
    PositionShape(s, q, i);
    FlagMeaning(s, q, i);
    if i + 1 < |s| { SameKeyIsKeyEquality(s[i], s[i + 1]); }
  }

  /** Each idle roster team's zero line is filed. */
  lemma {:induction false} IdleLineFiled(roster: seq<RosterTeam>, tally: map<int, TeamRank>, toDdmm: int -> string, team: RosterTeam)
    requires team in roster && team.teamId !in tally
    ensures GroupLine(team.groupNumber, IdleLine(team, toDdmm)) in IdleLines(roster, tally, toDdmm)
  {
    var prefix := roster[..|roster| - 1];
    if team != roster[|roster| - 1] {
      assert team in prefix by { assert roster == prefix + [roster[|roster| - 1]]; }
      IdleLineFiled(prefix, tally, toDdmm, team);
    }
  }

  /** Every idle line is the zero line of a team of the roster, filed under that team's group. */
  lemma {:induction false} IdleLineFromRoster(roster: seq<RosterTeam>, tally: map<int, TeamRank>, toDdmm: int -> string, e: GroupLine)
    requires e in IdleLines(roster, tally, toDdmm)
    ensures exists team | team in roster :: e.group == team.groupNumber && e.line.teamId == team.teamId
  {
    var prefix := roster[..|roster| - 1];
    var last := roster[|roster| - 1];
    if e in IdleLines(prefix, tally, toDdmm) {
      IdleLineFromRoster(prefix, tally, toDdmm, e);
      var team :| team in prefix && e.group == team.groupNumber && e.line.teamId == team.teamId;
      assert team in roster;
    } else {
      assert last in roster;
    }
  }

  /** A filed line shows up in its group's list, with only the position and the flags
      rewritten. */
  lemma FiledLineIsListed(rows: seq<ResultDetail>, roster: seq<RosterTeam>, q: int, round: int,
                          filter: Option<int>, toDdmm: int -> string, g: int, x: TeamRank)
    requires GroupLine(g, x) in LinesFor(rows, roster, filter, toDdmm)
    ensures var resp := RankingResponse(rows, roster, q, round, filter, toDdmm).groupRankings;
            exists j, i | 0 <= j < |resp| && 0 <= i < |resp[j].teamRankings| ::
              && resp[j].groupNumber == g
              && resp[j].teamRankings[i] == x.(position := resp[j].teamRankings[i].position,
                                               isTied := resp[j].teamRankings[i].isTied,
                                               isQualified := resp[j].teamRankings[i].isQualified)
  {
    var resp := RankingResponse(rows, roster, q, round, filter, toDdmm).groupRankings;
    var entries := LinesFor(rows, roster, filter, toDdmm);
    var keys := GroupKeys(entries);
    var k :| 0 <= k < |entries| && entries[k] == GroupLine(g, x);
    GroupKeysAreFiledGroups(entries, g);
    var j :| 0 <= j < |keys| && keys[j] == g;
    MembersAreFiledLines(entries, g, x);
    var m := Members(entries, g);
    var s := SortByKey(m);
    assert x in multiset(m);
    assert x in s;
    var i :| 0 <= i < |s| && s[i] == x;
    EntryOf(rows, roster, q, round, filter, toDdmm, j);
    GroupIsSortedPermutation(rows, roster, q, round, filter, toDdmm, j, i);
    assert resp[j].groupNumber == g;
  }

  /** Every roster team with no paired result is listed in its own group with zero goals, wins,
      draws and losses. */
  lemma IdleTeamListed(rows: seq<ResultDetail>, roster: seq<RosterTeam>, q: int, round: int,
                       filter: Option<int>, toDdmm: int -> string, team: RosterTeam)
    requires team in RosterInGroup(roster, filter)
    requires Played(PairsFor(rows, filter), team.teamId) == 0
    ensures var resp := RankingResponse(rows, roster, q, round, filter, toDdmm).groupRankings;
            exists j, i | 0 <= j < |resp| && 0 <= i < |resp[j].teamRankings| ::
              && resp[j].groupNumber == team.groupNumber
              && resp[j].teamRankings[i].teamId == team.teamId
              && resp[j].teamRankings[i].teamName == team.teamName
              && resp[j].teamRankings[i].goals == 0 && resp[j].teamRankings[i].wins == 0
              && resp[j].teamRankings[i].draws == 0 && resp[j].teamRankings[i].losses == 0
  {
    var ps := PairsFor(rows, filter);
    var teams := RosterInGroup(roster, filter);
    var tally := TallyOf(ps, toDdmm);
    IdleLineFiled(teams, tally, toDdmm, team);
    var order := TeamsInOrder(ps);
    assert forall k | 0 <= k < |order| :: Played(ps, order[k]) > 0;
    assert LinesFor(rows, roster, filter, toDdmm)
        == PlayedLines(order, tally, GroupsOf(ps)) + IdleLines(teams, tally, toDdmm);
    FiledLineIsListed(rows, roster, q, round, filter, toDdmm, team.groupNumber, IdleLine(team, toDdmm));
  }

  /** Every team with a paired result is listed, in the group of the row through which it first
      entered the tally, with its own goals and its wins, draws and losses over the pairs, which
      add up to the number of pairs it played. */
  lemma PlayedTeamListed(rows: seq<ResultDetail>, roster: seq<RosterTeam>, q: int, round: int,
                         filter: Option<int>, toDdmm: int -> string, t: int)
    requires Played(PairsFor(rows, filter), t) > 0
    ensures var ps := PairsFor(rows, filter);
            var resp := RankingResponse(rows, roster, q, round, filter, toDdmm).groupRankings;
            && Total(ps, t).wins + Total(ps, t).draws + Total(ps, t).losses == Played(ps, t)
            && exists j, i | 0 <= j < |resp| && 0 <= i < |resp[j].teamRankings| ::
              && resp[j].groupNumber == FirstMention(ps, t).groupNumber
              && resp[j].teamRankings[i].teamId == t
              && resp[j].teamRankings[i].teamName == FirstMention(ps, t).teamName
              && resp[j].teamRankings[i].goals == Total(ps, t).goals
              && resp[j].teamRankings[i].wins == Total(ps, t).wins
              && resp[j].teamRankings[i].draws == Total(ps, t).draws
              && resp[j].teamRankings[i].losses == Total(ps, t).losses
  {
    var ps := PairsFor(rows, filter);
    OutcomesCoverPlayed(ps, t);
    var order := TeamsInOrder(ps);
    var tally := TallyOf(ps, toDdmm);
    assert forall k | 0 <= k < |order| :: Played(ps, order[k]) > 0;
    var played := PlayedLines(order, tally, GroupsOf(ps));
    assert LinesFor(rows, roster, filter, toDdmm) == played + IdleLines(RosterInGroup(roster, filter), tally, toDdmm);
    var k :| 0 <= k < |order| && order[k] == t;
    assert played[k] in LinesFor(rows, roster, filter, toDdmm);
    assert played[k] == GroupLine(FirstMention(ps, t).groupNumber, RankOf(ps, t, toDdmm));
    FiledLineIsListed(rows, roster, q, round, filter, toDdmm, FirstMention(ps, t).groupNumber, RankOf(ps, t, toDdmm));
  }

  /** The row a team first entered the tally through is one of the pairs' rows. */
  lemma {:induction false} FirstMentionIsPairSide(ps: seq<MatchPair>, t: int)
    requires t in TeamsInOrder(ps)
    ensures exists p | p in ps :: FirstMention(ps, t) == p.first || FirstMention(ps, t) == p.second
  {
    var prefix := ps[..|ps| - 1];
    if t in TeamsInOrder(prefix) {
      FirstMentionIsPairSide(prefix, t);
      var p :| p in prefix && (FirstMention(prefix, t) == p.first || FirstMention(prefix, t) == p.second);
      assert p in ps;
    } else {
      assert ps[|ps| - 1] in ps;
    }
  }

  /** When every roster team belongs to group `g`, every idle line is filed under `g`. */
  lemma {:induction false} IdleLinesInGroup(teams: seq<RosterTeam>, tally: map<int, TeamRank>, toDdmm: int -> string, g: int)
    requires forall x | x in teams :: x.groupNumber == g
    ensures forall e | e in IdleLines(teams, tally, toDdmm) :: e.group == g
  {
    if teams != [] {
      var prefix := teams[..|teams| - 1];
      assert forall x | x in prefix :: x in teams;
      IdleLinesInGroup(prefix, tally, toDdmm, g);
    }
  }

  /** When every row belongs to group `g`, so does every team's first mention. */
  lemma FirstMentionInGroup(results: seq<ResultDetail>, g: int, t: int)
    requires forall x | x in results :: x.groupNumber == g
    requires t in GroupsOf(Pairs(results))
    ensures GroupsOf(Pairs(results))[t] == g
  {
    var ps := Pairs(results);
    assert GroupsOf(ps)[t] == FirstMention(ps, t).groupNumber;
    FirstMentionIsPairSide(ps, t);
    PairsShareMatch(results);
  }

  /** When every row and every roster team belongs to group `g`, every line is filed under `g`. */
  lemma LinesOfOneGroup(results: seq<ResultDetail>, teams: seq<RosterTeam>, toDdmm: int -> string, g: int)
    requires forall x | x in results :: x.groupNumber == g
    requires forall x | x in teams :: x.groupNumber == g
    ensures forall e | e in Lines(Pairs(results), teams, toDdmm) :: e.group == g
  {
    var ps := Pairs(results);
    var order := TeamsInOrder(ps);
    var tally := TallyOf(ps, toDdmm);
    var groupOf := GroupsOf(ps);
    assert forall k | 0 <= k < |order| :: Played(ps, order[k]) > 0;
    var played := PlayedLines(order, tally, groupOf);
    var idle := IdleLines(teams, tally, toDdmm);
    forall k | 0 <= k < |played| ensures played[k].group == g {
      FirstMentionInGroup(results, g, order[k]);
    }
    IdleLinesInGroup(teams, tally, toDdmm, g);
    assert Lines(ps, teams, toDdmm) == played + idle;
  }

  /** With a group filter, every group of the response is the filtered group. */
  lemma FilterKeepsGroup(rows: seq<ResultDetail>, roster: seq<RosterTeam>, q: int, round: int,
                         g: int, toDdmm: int -> string, j: nat)
    requires j < |RankingResponse(rows, roster, q, round, Some(g), toDdmm).groupRankings|
    ensures RankingResponse(rows, roster, q, round, Some(g), toDdmm).groupRankings[j].groupNumber == g
  {
    var filter := Some(g);
    var entries := LinesFor(rows, roster, filter, toDdmm);
    var key := GroupKeys(entries)[j];
    EntryOf(rows, roster, q, round, filter, toDdmm, j);
    GroupKeysAreFiledGroups(entries, key);
    var k :| 0 <= k < |entries| && entries[k].group == key;
    LinesOfOneGroup(ResultsInGroup(rows, filter), RosterInGroup(roster, filter), toDdmm, g);
    assert entries[k] in entries;
  }

  /** No two roster teams share an id (`team_id` is the table's primary key). */
  predicate RosterIdsDistinct(roster: seq<RosterTeam>) {
    forall a, b | 0 <= a < b < |roster| :: roster[a].teamId != roster[b].teamId
  }

  /** No two lines of a list share a team id. */
  predicate LineIdsDistinct(s: seq<TeamRank>) {
    forall a, b | 0 <= a < b < |s| :: s[a].teamId != s[b].teamId
  }

  /** No two filed lines share a team id. */
  predicate FiledIdsDistinct(entries: seq<GroupLine>) {
    forall a, b | 0 <= a < b < |entries| :: entries[a].line.teamId != entries[b].line.teamId
  }

  lemma {:induction false} RosterInGroupDistinct(roster: seq<RosterTeam>, filter: Option<int>)
    requires RosterIdsDistinct(roster)
    ensures RosterIdsDistinct(RosterInGroup(roster, filter))
  {
    if roster != [] && filter.Some? {
      var prefix := roster[..|roster| - 1];
      var last := roster[|roster| - 1];
      RosterInGroupDistinct(prefix, filter);
      var r := RosterInGroup(prefix, filter);
      forall x | x in r ensures x.teamId != last.teamId {
        var a :| 0 <= a < |prefix| && prefix[a] == x;
        assert roster[a] == x;
      }
    }
  }

  lemma {:induction false} IdleLinesDistinct(teams: seq<RosterTeam>, tally: map<int, TeamRank>, toDdmm: int -> string)
    requires RosterIdsDistinct(teams)
    ensures FiledIdsDistinct(IdleLines(teams, tally, toDdmm))
  {
    if teams != [] {
      var prefix := teams[..|teams| - 1];
      var last := teams[|teams| - 1];
      IdleLinesDistinct(prefix, tally, toDdmm);
      var before := IdleLines(prefix, tally, toDdmm);
      forall e | e in before ensures e.line.teamId != last.teamId {
        IdleLineFromRoster(prefix, tally, toDdmm, e);
        var team :| team in prefix && e.group == team.groupNumber && e.line.teamId == team.teamId;
        var a :| 0 <= a < |prefix| && prefix[a] == team;
        assert teams[a] == team;
      }
    }
  }

  /** Given distinct roster ids, no two filed lines share a team id: a tallied team is filed
      once, and an idle team is by definition not tallied. */
  lemma LinesDistinct(ps: seq<MatchPair>, teams: seq<RosterTeam>, toDdmm: int -> string)
    requires RosterIdsDistinct(teams)
    ensures FiledIdsDistinct(Lines(ps, teams, toDdmm))
  {
    var order := TeamsInOrder(ps);
    var tally := TallyOf(ps, toDdmm);
    assert forall k | 0 <= k < |order| :: Played(ps, order[k]) > 0;
    TeamsInOrderDistinct(ps);
    TallyIds(ps, toDdmm);
    PlayedLinesDistinct(order, tally, GroupsOf(ps));
    IdleLinesDistinct(teams, tally, toDdmm);
    JoinDistinct(PlayedLines(order, tally, GroupsOf(ps)), IdleLines(teams, tally, toDdmm), tally);
  }

  /** Every tallied line carries its own key as team id. */
  lemma TallyIds(ps: seq<MatchPair>, toDdmm: int -> string)
    ensures forall t | t in TallyOf(ps, toDdmm) :: TallyOf(ps, toDdmm)[t].teamId == t
  {
  }

  /** The played lines of a key order without repeats carry distinct ids, all of them tallied. */
  lemma PlayedLinesDistinct(order: seq<int>, tally: map<int, TeamRank>, groupOf: map<int, int>)
    requires forall k | 0 <= k < |order| :: order[k] in tally && order[k] in groupOf
    requires Distinct(order)
    requires forall t | t in tally :: tally[t].teamId == t
    ensures FiledIdsDistinct(PlayedLines(order, tally, groupOf))
    ensures forall e | e in PlayedLines(order, tally, groupOf) :: e.line.teamId in tally
  {
    var played := PlayedLines(order, tally, groupOf);
    forall e | e in played ensures e.line.teamId in tally {
      var k :| 0 <= k < |played| && played[k] == e;
      assert e.line.teamId == order[k];
    }
  }

  /** Two lists of lines with distinct ids, the first all tallied and the second all untallied,
      join into one list with distinct ids. */
  lemma JoinDistinct(played: seq<GroupLine>, idle: seq<GroupLine>, tally: map<int, TeamRank>)
    requires FiledIdsDistinct(played) && FiledIdsDistinct(idle)
    requires forall e | e in played :: e.line.teamId in tally
    requires forall e | e in idle :: e.line.teamId !in tally
    ensures FiledIdsDistinct(played + idle)
  {
    var all := played + idle;
    forall a, b | 0 <= a < b < |all| ensures all[a].line.teamId != all[b].line.teamId {
      if b < |played| {
        assert all[a] == played[a] && all[b] == played[b];
      } else if a < |played| {
        assert all[a] == played[a] && all[a] in played;
        assert all[b] == idle[b - |played|] && all[b] in idle;
      } else {
        assert all[a] == idle[a - |played|] && all[b] == idle[b - |played|];
      }
    }
  }

  /** A group's members inherit distinct ids from the filed lines. */
  lemma {:induction false} MembersDistinct(entries: seq<GroupLine>, g: int)
    requires FiledIdsDistinct(entries)
    ensures LineIdsDistinct(Members(entries, g))
  {
    if entries != [] {
      var prefix := entries[..|entries| - 1];
      var last := entries[|entries| - 1];
      assert FiledIdsDistinct(prefix);
      MembersDistinct(prefix, g);
      forall x | x in Members(prefix, g) ensures x.teamId != last.line.teamId {
        MembersAreFiledLines(prefix, g, x);
        var a :| 0 <= a < |prefix| && prefix[a] == GroupLine(g, x);
        assert entries[a] == prefix[a];
      }
    }
  }

  /** Two different groups share no team. */
  lemma MembersDisjoint(entries: seq<GroupLine>, g1: int, g2: int, x: TeamRank, y: TeamRank)
    requires FiledIdsDistinct(entries) && g1 != g2
    requires x in Members(entries, g1) && y in Members(entries, g2)
    ensures x.teamId != y.teamId
  {
    MembersAreFiledLines(entries, g1, x);
    MembersAreFiledLines(entries, g2, y);
    var a :| 0 <= a < |entries| && entries[a] == GroupLine(g1, x);
    var b :| 0 <= b < |entries| && entries[b] == GroupLine(g2, y);
  }

  lemma TwiceCounted(s: seq<TeamRank>, a: nat, b: nat)
    requires a < b < |s| && s[a] == s[b]
    ensures multiset(s)[s[a]] >= 2
  {
    assert s == s[..b] + s[b..];
    assert s[a] in s[..b];
    assert s[b..][0] == s[b];
  }

  lemma {:induction false} OnceCounted(m: seq<TeamRank>, x: TeamRank)
    requires LineIdsDistinct(m)
    ensures multiset(m)[x] <= 1
  {
    if m != [] {
      var prefix := m[..|m| - 1];
      var last := m[|m| - 1];
      assert m == prefix + [last];
      assert LineIdsDistinct(prefix);
      OnceCounted(prefix, x);
      if last == x {
        forall a | 0 <= a < |prefix| ensures prefix[a] != x {
          assert m[a] == prefix[a];
        }
        assert multiset(prefix)[x] == 0;
      }
    }
  }

  /** Reordering a list keeps its team ids distinct. */
  lemma PermutationKeepsIdsDistinct(s: seq<TeamRank>, m: seq<TeamRank>)
    requires multiset(s) == multiset(m) && LineIdsDistinct(m)
    ensures LineIdsDistinct(s)
  {
    forall a, b | 0 <= a < b < |s| ensures s[a].teamId != s[b].teamId {
      if s[a] == s[b] {
        TwiceCounted(s, a, b);
        OnceCounted(m, s[a]);
      } else {
        assert s[a] in multiset(m) && s[b] in multiset(m);
        var c :| 0 <= c < |m| && m[c] == s[a];
        var d :| 0 <= d < |m| && m[d] == s[b];
      }
    }
  }

  /** Within one group's ranked list, team ids are distinct. */
  lemma SameGroupDistinct(entries: seq<GroupLine>, g: int, q: int, i1: nat, i2: nat)
    requires FiledIdsDistinct(entries)
    requires i1 < |SortByKey(Members(entries, g))| && i2 < |SortByKey(Members(entries, g))| && i1 != i2
    ensures Ranked(SortByKey(Members(entries, g)), q)[i1].teamId != Ranked(SortByKey(Members(entries, g)), q)[i2].teamId
  {
    var m := Members(entries, g);
    var s := SortByKey(m);
    MembersDistinct(entries, g);
    PermutationKeepsIdsDistinct(s, m);
    if i1 < i2 { assert s[i1].teamId != s[i2].teamId; } else { assert s[i2].teamId != s[i1].teamId; }
  }

  /** Two different groups' ranked lists share no team id. */
  lemma OtherGroupsDistinct(entries: seq<GroupLine>, g1: int, g2: int, q: int, i1: nat, i2: nat)
    requires FiledIdsDistinct(entries) && g1 != g2
    requires i1 < |SortByKey(Members(entries, g1))| && i2 < |SortByKey(Members(entries, g2))|
    ensures Ranked(SortByKey(Members(entries, g1)), q)[i1].teamId != Ranked(SortByKey(Members(entries, g2)), q)[i2].teamId
  {
    var m1 := Members(entries, g1);
    var m2 := Members(entries, g2);
    var s1 := SortByKey(m1);
    var s2 := SortByKey(m2);
    assert s1[i1] in multiset(m1) && s2[i2] in multiset(m2);
    MembersDisjoint(entries, g1, g2, s1[i1], s2[i2]);
  }

  /** When the filed lines have distinct ids, no two places of the response hold the same team. */
  lemma RespondDistinct(entries: seq<GroupLine>, q: int, round: int, j1: nat, i1: nat, j2: nat, i2: nat)
    requires FiledIdsDistinct(entries)
    requires j1 < |Respond(entries, q, round).groupRankings| && j2 < |Respond(entries, q, round).groupRankings|
    requires i1 < |Respond(entries, q, round).groupRankings[j1].teamRankings|
    requires i2 < |Respond(entries, q, round).groupRankings[j2].teamRankings|
    requires (j1, i1) != (j2, i2)
    ensures var resp := Respond(entries, q, round).groupRankings;
            resp[j1].teamRankings[i1].teamId != resp[j2].teamRankings[i2].teamId
  {
    var keys := GroupKeys(entries);
    if j1 == j2 {
      SameGroupDistinct(entries, keys[j1], q, i1, i2);
    } else {
      GroupKeysDistinct(entries);
      OtherGroupsDistinct(entries, keys[j1], keys[j2], q, i1, i2);
    }
  }

  /** Given distinct roster ids, no team is listed twice in the response, whether in the same
      group or in two groups. */
  lemma NoTeamListedTwice(rows: seq<ResultDetail>, roster: seq<RosterTeam>, q: int, round: int,
                          filter: Option<int>, toDdmm: int -> string, j1: nat, i1: nat, j2: nat, i2: nat)
    requires RosterIdsDistinct(roster)
    requires j1 < |RankingResponse(rows, roster, q, round, filter, toDdmm).groupRankings|
    requires j2 < |RankingResponse(rows, roster, q, round, filter, toDdmm).groupRankings|
    requires i1 < |RankingResponse(rows, roster, q, round, filter, toDdmm).groupRankings[j1].teamRankings|
    requires i2 < |RankingResponse(rows, roster, q, round, filter, toDdmm).groupRankings[j2].teamRankings|
    requires (j1, i1) != (j2, i2)
    ensures var resp := RankingResponse(rows, roster, q, round, filter, toDdmm).groupRankings;
            resp[j1].teamRankings[i1].teamId != resp[j2].teamRankings[i2].teamId
  {
    RosterInGroupDistinct(roster, filter);
    LinesDistinct(PairsFor(rows, filter), RosterInGroup(roster, filter), toDdmm);
    RespondDistinct(LinesFor(rows, roster, filter, toDdmm), q, round, j1, i1, j2, i2);
  }
}
