/** Pairing the result rows of a round by match id and tallying each pair into per-team
    goals, wins, draws and losses (the `match_maker` / `team_rank_mapper` loop of
    `MatchController.get_match_rankings`). */
module Tally {
  import opened RankSchema

  /** One row of the round's results joined with its team (`MatchResultDetailed`). Goals are
      stored as an unsigned byte, so they are never negative. */
  datatype ResultDetail = ResultDetail(
    groupNumber: int,
    matchId: int,
    teamName: string,
    teamId: int,
    goalsScored: nat,
    registrationDayOfYear: int)

  /** A completed match: the first row seen for its id, then a later row with the same id. */
  datatype MatchPair = MatchPair(first: ResultDetail, second: ResultDetail)

  /** The first row seen for each match id. */
  function FirstSeen(rows: seq<ResultDetail>): (m: map<int, ResultDetail>)
    ensures forall id | id in m :: m[id] in rows && m[id].matchId == id
    ensures forall r | r in rows :: r.matchId in m
  {
    if rows == [] then map[]
    else
      var prev := FirstSeen(rows[..|rows| - 1]);
      var x := rows[|rows| - 1];
      if x.matchId in prev then prev else prev[x.matchId := x]
  }

  /** The pairs a scan of `rows` forms: each row whose match id was already seen is paired with
      the first row of that id. */
  function Pairs(rows: seq<ResultDetail>): (ps: seq<MatchPair>)
    ensures |ps| <= |rows|
  {
    if rows == [] then []
    else
      var prefix := rows[..|rows| - 1];
      var x := rows[|rows| - 1];
      var seen := FirstSeen(prefix);
      Pairs(prefix) + (if x.matchId in seen then [MatchPair(seen[x.matchId], x)] else [])
  }

  /** Both rows of every pair belong to the same match, and the first is that match's first row. */
  lemma {:induction false} PairsShareMatch(rows: seq<ResultDetail>)
    ensures forall p | p in Pairs(rows) ::
              p.first.matchId == p.second.matchId && p.first in rows && p.second in rows
              && FirstSeen(rows)[p.first.matchId] == p.first
  {
    if rows != [] {
      var prefix := rows[..|rows| - 1];
      PairsShareMatch(prefix);
      PrefixFirstSeen(rows);
    }
  }

  /** Appending a row never changes the first row already recorded for an id. */
  lemma PrefixFirstSeen(rows: seq<ResultDetail>)
    requires rows != []
    ensures var prev := FirstSeen(rows[..|rows| - 1]);
            forall id | id in prev :: id in FirstSeen(rows) && FirstSeen(rows)[id] == prev[id]
  {
  }

  /** Every row is either the first of its match or forms exactly one pair: a match counts once
      its second row has been seen, so rows with distinct ids form no pair at all. */
  lemma {:induction false} PairCount(rows: seq<ResultDetail>)
    ensures |Pairs(rows)| + |FirstSeen(rows).Keys| == |rows|
  {
    if rows != [] {
      var prefix := rows[..|rows| - 1];
      var x := rows[|rows| - 1];
      PairCount(prefix);
      var prev := FirstSeen(prefix);
      if x.matchId !in prev {
        assert FirstSeen(rows).Keys == prev.Keys + {x.matchId};
      } else {
        assert FirstSeen(rows).Keys == prev.Keys;
      }
    }
  }

  /** Goals, wins, draws and losses of one team. */
  datatype Record = Record(goals: int, wins: int, draws: int, losses: int)

  function Plus(a: Record, b: Record): Record {
    Record(a.goals + b.goals, a.wins + b.wins, a.draws + b.draws, a.losses + b.losses)
  }

  /** Number of sides (0, 1 or 2) of the pair that belong to team `t`. */
  function Sides(p: MatchPair, t: int): (n: nat)
    ensures n <= 2
  {
    (if p.first.teamId == t then 1 else 0) + (if p.second.teamId == t then 1 else 0)
  }

  /** What one pair adds to team `t`: each side adds its own goals; the higher scorer gains a
      win and the other a loss; equal goals give both sides a draw. */
  function Contribution(p: MatchPair, t: int): (c: Record)
    ensures c.wins + c.draws + c.losses == Sides(p, t)
    ensures c.goals >= 0
    ensures p.first.goalsScored > p.second.goalsScored ==>
              c.wins == (if p.first.teamId == t then 1 else 0) && c.losses == (if p.second.teamId == t then 1 else 0)
    ensures p.first.goalsScored == p.second.goalsScored ==> c.draws == Sides(p, t)
  {
    var a := p.first;
    var b := p.second;
    var ga := if a.teamId == t then a.goalsScored else 0;
    var gb := if b.teamId == t then b.goalsScored else 0;
    var aWins := a.goalsScored > b.goalsScored;
    var bWins := a.goalsScored < b.goalsScored;
    Record(ga + gb,
           (if a.teamId == t && aWins then 1 else 0) + (if b.teamId == t && bWins then 1 else 0),
           (if !aWins && !bWins then Sides(p, t) else 0),
           (if a.teamId == t && bWins then 1 else 0) + (if b.teamId == t && aWins then 1 else 0))
  }

  /** Team `t`'s totals over a sequence of pairs. */
  function Total(ps: seq<MatchPair>, t: int): Record {
    if ps == [] then Record(0, 0, 0, 0)
    else Plus(Total(ps[..|ps| - 1], t), Contribution(ps[|ps| - 1], t))
  }

  /** Number of pair sides a team occupies, i.e. how many paired matches it played. */
  function Played(ps: seq<MatchPair>, t: int): nat {
    if ps == [] then 0 else Played(ps[..|ps| - 1], t) + Sides(ps[|ps| - 1], t)
  }

  /** Every paired match of a team is exactly one win, draw or loss, and goals are never
      negative. */
  lemma {:induction false} OutcomesCoverPlayed(ps: seq<MatchPair>, t: int)
    ensures Total(ps, t).wins + Total(ps, t).draws + Total(ps, t).losses == Played(ps, t)
    ensures Total(ps, t).goals >= 0 && Total(ps, t).wins >= 0 && Total(ps, t).draws >= 0 && Total(ps, t).losses >= 0
  {
    if ps != [] {
      OutcomesCoverPlayed(ps[..|ps| - 1], t);
    }
  }

  /** A team that played none of the pairs has an all-zero total. */
  lemma {:induction false} ZeroTotal(ps: seq<MatchPair>, t: int)
    requires Played(ps, t) == 0
    ensures Total(ps, t) == Record(0, 0, 0, 0)
  {
    if ps != [] {
      ZeroTotal(ps[..|ps| - 1], t);
    }
  }

  /** `order + [id]` unless `id` is already there: the key order of a dictionary filled with
      `setdefault`. */
  function AddOnce(order: seq<int>, id: int): (r: seq<int>)
    ensures forall x :: x in r <==> x in order || x == id
  {
    if id in order then order else order + [id]
  }

  /** No value occurs twice. */
  predicate Distinct(s: seq<int>) {
    forall i, j | 0 <= i < j < |s| :: s[i] != s[j]
  }

  lemma AddOnceDistinct(s: seq<int>, x: int)
    requires Distinct(s)
    ensures Distinct(AddOnce(s, x))
  {
  }

  /** The teams of the pairs in order of first mention (first side before second side). */
  function TeamsInOrder(ps: seq<MatchPair>): (r: seq<int>)
    ensures forall t :: t in r <==> Played(ps, t) > 0
  {
    if ps == [] then []
    else
      var p := ps[|ps| - 1];
      AddOnce(AddOnce(TeamsInOrder(ps[..|ps| - 1]), p.first.teamId), p.second.teamId)
  }

  /** A team enters the key order once. */
  lemma {:induction false} TeamsInOrderDistinct(ps: seq<MatchPair>)
    ensures Distinct(TeamsInOrder(ps))
  {
    if ps != [] {
      var p := ps[|ps| - 1];
      var prev := TeamsInOrder(ps[..|ps| - 1]);
      TeamsInOrderDistinct(ps[..|ps| - 1]);
      AddOnceDistinct(prev, p.first.teamId);
      AddOnceDistinct(AddOnce(prev, p.first.teamId), p.second.teamId);
    }
  }

  /** A team's side of a pair it plays in. */
  function SideOf(p: MatchPair, t: int): ResultDetail {
    if p.first.teamId == t then p.first else p.second
  }

  /** The row through which a team first entered the tally: its name, registration day and
      group are taken from there. */
  function FirstMention(ps: seq<MatchPair>, t: int): (d: ResultDetail)
    requires t in TeamsInOrder(ps)
    ensures d.teamId == t
  {
    var prefix := ps[..|ps| - 1];
    if t in TeamsInOrder(prefix) then FirstMention(prefix, t) else SideOf(ps[|ps| - 1], t)
  }

  /** The line a team gets when it first enters the tally: position 1, not tied, zero counters. */
  function Fresh(d: ResultDetail, toDdmm: int -> string): (r: TeamRank)
    ensures r.teamId == d.teamId && r.goals == 0 && r.wins == 0 && r.draws == 0 && r.losses == 0
    ensures !r.isTied && !r.isQualified
    ensures r.teamName == d.teamName && r.registrationDayOfYear == d.registrationDayOfYear
  {
    NewTeamRank(1, false, d.teamId, d.teamName, 0, 0, 0, 0,
                toDdmm(d.registrationDayOfYear), d.registrationDayOfYear)
  }

  /** A line with one pair's contribution added to its counters. */
  function Credit(r: TeamRank, c: Record): (r': TeamRank)
    ensures r'.goals - r.goals == c.goals && r'.wins - r.wins == c.wins
    ensures r'.draws - r.draws == c.draws && r'.losses - r.losses == c.losses
    ensures r'.teamId == r.teamId && r'.teamName == r.teamName && r'.registrationDayOfYear == r.registrationDayOfYear
    ensures r'.isTied == r.isTied && r'.isQualified == r.isQualified
  {
    r.(goals := r.goals + c.goals, wins := r.wins + c.wins, draws := r.draws + c.draws, losses := r.losses + c.losses)
  }

  /** The standings line a team's tally stands for after the pairs `ps`. */
  function RankOf(ps: seq<MatchPair>, t: int, toDdmm: int -> string): (r: TeamRank)
    requires t in TeamsInOrder(ps)
    ensures r.teamId == t && !r.isTied && !r.isQualified
    ensures r.goals == Total(ps, t).goals && r.wins == Total(ps, t).wins
    ensures r.draws == Total(ps, t).draws && r.losses == Total(ps, t).losses
    ensures r.teamName == FirstMention(ps, t).teamName
    ensures r.registrationDayOfYear == FirstMention(ps, t).registrationDayOfYear
  {
    Credit(Fresh(FirstMention(ps, t), toDdmm), Total(ps, t))
  }

  /** `team_rank_mapper` once every pair is tallied. */
  function TallyOf(ps: seq<MatchPair>, toDdmm: int -> string): (m: map<int, TeamRank>)
    ensures forall t :: t in m <==> Played(ps, t) > 0
  {
    map t | t in TeamsInOrder(ps) :: RankOf(ps, t, toDdmm)
  }

  /** `group_mapper` once every pair is tallied. */
  function GroupsOf(ps: seq<MatchPair>): (m: map<int, int>)
    ensures forall t :: t in m <==> Played(ps, t) > 0
  {
    map t | t in TeamsInOrder(ps) :: FirstMention(ps, t).groupNumber
  }

  /** The state of the three dictionaries after tallying the pairs `ps`. */
  ghost predicate Tallied(tally: map<int, TeamRank>, groupOf: map<int, int>, order: seq<int>,
                    ps: seq<MatchPair>, toDdmm: int -> string)
  {
    && order == TeamsInOrder(ps)
    && (forall t :: t in tally <==> t in order)
    && (forall t :: t in groupOf <==> t in order)
    && (forall t | t in tally :: tally[t] == RankOf(ps, t, toDdmm))
    && (forall t | t in groupOf :: groupOf[t] == FirstMention(ps, t).groupNumber)
  }

  /** The tally a scan leaves is the tally of the pairs it formed. */
  lemma TallyIsDetermined(tally: map<int, TeamRank>, order: seq<int>, ps: seq<MatchPair>, toDdmm: int -> string)
    requires order == TeamsInOrder(ps)
    requires forall t :: t in tally <==> t in order
    requires forall t | t in tally :: tally[t] == RankOf(ps, t, toDdmm)
    ensures tally == TallyOf(ps, toDdmm)
  {
    var m := TallyOf(ps, toDdmm);
    forall t
      ensures t in m <==> t in order
    {
      assert t in m <==> Played(ps, t) > 0;
    }
    assert tally.Keys == m.Keys;
    forall t | t in tally
      ensures tally[t] == m[t]
    {
    }
  }

  /** The group map a scan leaves is the group map of the pairs it formed. */
  lemma GroupsAreDetermined(groupOf: map<int, int>, order: seq<int>, ps: seq<MatchPair>)
    requires order == TeamsInOrder(ps)
    requires forall t :: t in groupOf <==> t in order
    requires forall t | t in groupOf :: groupOf[t] == FirstMention(ps, t).groupNumber
    ensures groupOf == GroupsOf(ps)
  {
    var g := GroupsOf(ps);
    forall t
      ensures t in g <==> t in order
    {
      assert t in g <==> Played(ps, t) > 0;
    }
    assert groupOf.Keys == g.Keys;
    forall t | t in groupOf
      ensures groupOf[t] == g[t]
    {
    }
  }

  /** The dictionaries a scan leaves are determined by the pairs it formed. */
  lemma TalliedIsDetermined(tally: map<int, TeamRank>, groupOf: map<int, int>, order: seq<int>,
                            ps: seq<MatchPair>, toDdmm: int -> string)
    requires Tallied(tally, groupOf, order, ps, toDdmm)
    ensures tally == TallyOf(ps, toDdmm) && groupOf == GroupsOf(ps)
  {
    TallyIsDetermined(tally, order, ps, toDdmm);
    GroupsAreDetermined(groupOf, order, ps);
  }

  /** One more pair adds its contribution to every team's totals. */
  lemma TotalStep(ps: seq<MatchPair>, p: MatchPair, t: int)
    ensures Total(ps + [p], t) == Plus(Total(ps, t), Contribution(p, t))
    ensures Played(ps + [p], t) == Played(ps, t) + Sides(p, t)
  {
    assert (ps + [p])[..|ps|] == ps;
  }

  /** A team keeps the row of its first mention; a team new with `p` takes its side of `p`. */
  lemma FirstMentionStep(ps: seq<MatchPair>, p: MatchPair, t: int)
    requires t in TeamsInOrder(ps + [p])
    ensures t !in TeamsInOrder(ps) ==> Sides(p, t) > 0
    ensures FirstMention(ps + [p], t) == if t in TeamsInOrder(ps) then FirstMention(ps, t) else SideOf(p, t)
  {
    assert (ps + [p])[..|ps|] == ps;
    TotalStep(ps, p, t);
  }

  /** One more pair: each team's line gains that pair's contribution, a team seen for the first
      time starting from its fresh line. */
  lemma RankOfStep(ps: seq<MatchPair>, p: MatchPair, t: int, toDdmm: int -> string)
    requires t in TeamsInOrder(ps + [p])
    ensures t !in TeamsInOrder(ps) ==> Sides(p, t) > 0
    ensures RankOf(ps + [p], t, toDdmm) ==
              Credit(if t in TeamsInOrder(ps) then RankOf(ps, t, toDdmm) else Fresh(SideOf(p, t), toDdmm),
                     Contribution(p, t))
  {
    TotalStep(ps, p, t);
    FirstMentionStep(ps, p, t);
    var start := Fresh(FirstMention(ps + [p], t), toDdmm);
    if t in TeamsInOrder(ps) {
      CreditPlus(start, Total(ps, t), Contribution(p, t));
    } else {
      ZeroTotal(ps, t);
      assert Plus(Total(ps, t), Contribution(p, t)) == Contribution(p, t);
    }
  }

  /** Crediting two records in turn is crediting their sum. */
  lemma CreditPlus(r: TeamRank, a: Record, b: Record)
    ensures Credit(Credit(r, a), b) == Credit(r, Plus(a, b))
  {
  }

  /** The tally after the `setdefault` of both teams of `p`: a team already present keeps its
      line, a new one gets its fresh line from its own side of the pair. */
  function EnterPair(tally: map<int, TeamRank>, p: MatchPair, toDdmm: int -> string): (r: map<int, TeamRank>)
    ensures forall t :: t in r <==> t in tally || Sides(p, t) > 0
    ensures forall t | t in r :: r[t] == if t in tally then tally[t] else Fresh(SideOf(p, t), toDdmm)
  {
    var a := p.first;
    var b := p.second;
    var withA := if a.teamId in tally then tally else tally[a.teamId := Fresh(a, toDdmm)];
    if b.teamId in withA then withA else withA[b.teamId := Fresh(b, toDdmm)]
  }

  /** The group map after the `setdefault` of both teams of `p`. */
  function EnterPairGroups(groupOf: map<int, int>, p: MatchPair): (r: map<int, int>)
    ensures forall t :: t in r <==> t in groupOf || Sides(p, t) > 0
    ensures forall t | t in r :: r[t] == if t in groupOf then groupOf[t] else SideOf(p, t).groupNumber
  {
    var a := p.first;
    var b := p.second;
    var withA := if a.teamId in groupOf then groupOf else groupOf[a.teamId := a.groupNumber];
    if b.teamId in withA then withA else withA[b.teamId := b.groupNumber]
  }

  /** Enters one team at its first mention with zero counters (`setdefault` on both maps). */
  method Enter(tally: map<int, TeamRank>, groupOf: map<int, int>, order: seq<int>, d: ResultDetail,
               toDdmm: int -> string)
    returns (tally': map<int, TeamRank>, groupOf': map<int, int>, order': seq<int>)
    ensures order' == AddOnce(order, d.teamId)
    ensures tally' == if d.teamId in tally then tally else tally[d.teamId := Fresh(d, toDdmm)]
    ensures groupOf' == if d.teamId in groupOf then groupOf else groupOf[d.teamId := d.groupNumber]
  {
    tally', groupOf', order' := tally, groupOf, order;
    if d.teamId !in groupOf' {
      groupOf' := groupOf'[d.teamId := d.groupNumber];
    }
    if d.teamId !in tally' {
      tally' := tally'[d.teamId := Fresh(d, toDdmm)];
    }
    if d.teamId !in order' {
      order' := order' + [d.teamId];
    }
  }

  /** The goals part of a pair's contribution. */
  function GoalsPart(c: Record): Record {
    Record(c.goals, 0, 0, 0)
  }

  /** The win, draw and loss part of a pair's contribution. */
  function OutcomePart(c: Record): Record {
    Record(0, c.wins, c.draws, c.losses)
  }

  /** Adds one pair's goals and outcome to the two teams' lines, counter by counter. */
  method ScorePair(tally: map<int, TeamRank>, p: MatchPair) returns (tally': map<int, TeamRank>)
    requires p.first.teamId in tally && p.second.teamId in tally
    ensures tally'.Keys == tally.Keys
    ensures forall t | t in tally' :: tally'[t] == Credit(tally[t], Contribution(p, t))
  {
    var withGoals := ScoreGoals(tally, p);
    tally' := ScoreOutcome(withGoals, p);
    forall t | t in tally'
      ensures tally'[t] == Credit(tally[t], Contribution(p, t))
    {
      var c := Contribution(p, t);
      CreditPlus(tally[t], GoalsPart(c), OutcomePart(c));
      assert Plus(GoalsPart(c), OutcomePart(c)) == c;
    }
  }

  /** Each side of the pair adds its own goals to its team's line. */
  method ScoreGoals(tally: map<int, TeamRank>, p: MatchPair) returns (tally': map<int, TeamRank>)
    requires p.first.teamId in tally && p.second.teamId in tally
    ensures tally'.Keys == tally.Keys
    ensures forall t | t in tally' :: tally'[t] == Credit(tally[t], GoalsPart(Contribution(p, t)))
  {
    var a := p.first;
    var b := p.second;
    tally' := tally;
    var ra := tally'[a.teamId];
    tally' := tally'[a.teamId := ra.(goals := ra.goals + a.goalsScored)];
    var rb := tally'[b.teamId];
    tally' := tally'[b.teamId := rb.(goals := rb.goals + b.goalsScored)];
  }

  /** The higher scorer gains a win and the other a loss; equal goals give both a draw. */
  method ScoreOutcome(tally: map<int, TeamRank>, p: MatchPair) returns (tally': map<int, TeamRank>)
    requires p.first.teamId in tally && p.second.teamId in tally
    ensures tally'.Keys == tally.Keys
    ensures forall t | t in tally' :: tally'[t] == Credit(tally[t], OutcomePart(Contribution(p, t)))
  {
    var a := p.first;
    var b := p.second;
    var ra := tally[a.teamId];
    if a.goalsScored > b.goalsScored {
      tally' := tally[a.teamId := ra.(wins := ra.wins + 1)];
      var rb := tally'[b.teamId];
      tally' := tally'[b.teamId := rb.(losses := rb.losses + 1)];
    } else if a.goalsScored < b.goalsScored {
      tally' := tally[a.teamId := ra.(losses := ra.losses + 1)];
      var rb := tally'[b.teamId];
      tally' := tally'[b.teamId := rb.(wins := rb.wins + 1)];
    } else {
      tally' := tally[a.teamId := ra.(draws := ra.draws + 1)];
      var rb := tally'[b.teamId];
      tally' := tally'[b.teamId := rb.(draws := rb.draws + 1)];
    }
  }

  /** Entering the two teams of a new pair and scoring it keeps the dictionaries in step with
      the longer sequence of pairs. */
  lemma TalliedStep(tally: map<int, TeamRank>, groupOf: map<int, int>, order: seq<int>,
                    ps: seq<MatchPair>, p: MatchPair, toDdmm: int -> string, tally': map<int, TeamRank>)
    requires Tallied(tally, groupOf, order, ps, toDdmm)
    requires tally'.Keys == EnterPair(tally, p, toDdmm).Keys
    requires forall t | t in tally' :: tally'[t] == Credit(EnterPair(tally, p, toDdmm)[t], Contribution(p, t))
    ensures Tallied(tally', EnterPairGroups(groupOf, p), AddOnce(AddOnce(order, p.first.teamId), p.second.teamId),
                    ps + [p], toDdmm)
  {
    assert (ps + [p])[..|ps|] == ps;
    TallyValuesStep(tally, ps, p, toDdmm, tally');
    GroupValuesStep(groupOf, ps, p);
  }

  /** The scored lines are the lines of the longer sequence of pairs. */
  lemma TallyValuesStep(tally: map<int, TeamRank>, ps: seq<MatchPair>, p: MatchPair, toDdmm: int -> string,
                        tally': map<int, TeamRank>)
    requires forall t :: t in tally <==> t in TeamsInOrder(ps)
    requires forall t | t in tally :: tally[t] == RankOf(ps, t, toDdmm)
    requires tally'.Keys == EnterPair(tally, p, toDdmm).Keys
    requires forall t | t in tally' :: tally'[t] == Credit(EnterPair(tally, p, toDdmm)[t], Contribution(p, t))
    ensures forall t :: t in tally' <==> t in TeamsInOrder(ps + [p])
    ensures forall t | t in tally' :: tally'[t] == RankOf(ps + [p], t, toDdmm)
  {
    forall t ensures t in tally' <==> t in TeamsInOrder(ps + [p]) {
      TotalStep(ps, p, t);
    }
    forall t | t in tally' ensures tally'[t] == RankOf(ps + [p], t, toDdmm) {
      RankOfStep(ps, p, t, toDdmm);
    }
  }

  /** The entered groups are the groups of first mention in the longer sequence of pairs. */
  lemma GroupValuesStep(groupOf: map<int, int>, ps: seq<MatchPair>, p: MatchPair)
    requires forall t :: t in groupOf <==> t in TeamsInOrder(ps)
    requires forall t | t in groupOf :: groupOf[t] == FirstMention(ps, t).groupNumber
    ensures forall t :: t in EnterPairGroups(groupOf, p) <==> t in TeamsInOrder(ps + [p])
    ensures forall t | t in EnterPairGroups(groupOf, p) ::
              EnterPairGroups(groupOf, p)[t] == FirstMention(ps + [p], t).groupNumber
  {
    var g := EnterPairGroups(groupOf, p);
    forall t ensures t in g <==> t in TeamsInOrder(ps + [p]) {
      TotalStep(ps, p, t);
    }
    forall t | t in g ensures g[t] == FirstMention(ps + [p], t).groupNumber {
      FirstMentionStep(ps, p, t);
    }
  }

  /** Extending the scanned prefix by one row. */
  lemma ScanStep(rows: seq<ResultDetail>, i: nat)
    requires i < |rows|
    ensures var seen := FirstSeen(rows[..i]);
            var x := rows[i];
            && FirstSeen(rows[..i + 1]) == (if x.matchId in seen then seen else seen[x.matchId := x])
            && Pairs(rows[..i + 1]) == Pairs(rows[..i]) + (if x.matchId in seen then [MatchPair(seen[x.matchId], x)] else [])
  {
    assert rows[..i + 1][..i] == rows[..i];
  }

  /** One iteration of the `match_maker` loop: the row either opens its match or completes a
      pair, whose two teams are entered and scored. */
  method TallyRow(rows: seq<ResultDetail>, i: nat, matchMaker: map<int, ResultDetail>,
                  tally: map<int, TeamRank>, groupOf: map<int, int>, order: seq<int>, toDdmm: int -> string)
    returns (matchMaker': map<int, ResultDetail>, tally': map<int, TeamRank>, groupOf': map<int, int>, order': seq<int>)
    requires i < |rows|
    requires matchMaker == FirstSeen(rows[..i])
    requires Tallied(tally, groupOf, order, Pairs(rows[..i]), toDdmm)
    ensures matchMaker' == FirstSeen(rows[..i + 1])
    ensures Tallied(tally', groupOf', order', Pairs(rows[..i + 1]), toDdmm)
  {
    ScanStep(rows, i);
    var result := rows[i];
    matchMaker', tally', groupOf', order' := matchMaker, tally, groupOf, order;
    if result.matchId !in matchMaker {
      matchMaker' := matchMaker[result.matchId := result];
      assert Pairs(rows[..i + 1]) == Pairs(rows[..i]);
    } else {
      var p := MatchPair(matchMaker[result.matchId], result);
      var tally1, groupOf1, order1 := Enter(tally, groupOf, order, p.first, toDdmm);
      var tally2, groupOf2, order2 := Enter(tally1, groupOf1, order1, p.second, toDdmm);
      tally' := ScorePair(tally2, p);
      assert tally2 == EnterPair(tally, p, toDdmm) && groupOf2 == EnterPairGroups(groupOf, p);
      TalliedStep(tally, groupOf, order, Pairs(rows[..i]), p, toDdmm, tally');
      groupOf', order' := groupOf2, order2;
      assert Pairs(rows[..i + 1]) == Pairs(rows[..i]) + [p];
    }
  }

  /** The `match_maker` loop: scans the rows once, pairing each row with the first row of its
      match id and tallying the pair. Afterwards each tallied team's line holds exactly its
      totals over all pairs, and the key order is the order of first mention. */
  method TallyResults(rows: seq<ResultDetail>, toDdmm: int -> string)
    returns (tally: map<int, TeamRank>, groupOf: map<int, int>, order: seq<int>)
    ensures Tallied(tally, groupOf, order, Pairs(rows), toDdmm)
  {
    var matchMaker: map<int, ResultDetail> := map[];
    tally, groupOf, order := map[], map[], [];
    var i := 0;
    while i < |rows|
      invariant 0 <= i <= |rows|
      invariant matchMaker == FirstSeen(rows[..i])
      invariant Tallied(tally, groupOf, order, Pairs(rows[..i]), toDdmm)
    {
      matchMaker, tally, groupOf, order := TallyRow(rows, i, matchMaker, tally, groupOf, order, toDdmm);
      i := i + 1;
    }
    assert rows[..i] == rows;
  }
}
