/** The standings records (`TeamRank`, `GroupRanking`, `GetRankingResponse`). */
module RankSchema {
  import opened Validation

  /** One team's line in a group's standings. */
  datatype TeamRank = TeamRank(
    position: int,
    isTied: bool,
    isQualified: bool,
    teamId: int,
    teamName: string,
    goals: int,
    wins: int,
    draws: int,
    losses: int,
    registrationDateDdmm: string,
    registrationDayOfYear: int)

  datatype GroupRanking = GroupRanking(groupNumber: int, teamRankings: seq<TeamRank>)

  datatype GetRankingResponse = GetRankingResponse(roundNumber: int, groupRankings: seq<GroupRanking>)

  /** A `TeamRank` built without `is_qualified`: the field takes its default, false. */
  function NewTeamRank(position: int, isTied: bool, teamId: int, teamName: string,
                       goals: int, wins: int, draws: int, losses: int,
                       registrationDateDdmm: string, registrationDayOfYear: int): (r: TeamRank)
    ensures !r.isQualified
    ensures r.position == position && r.isTied == isTied && r.teamId == teamId
    ensures r.goals == goals && r.wins == wins && r.draws == draws && r.losses == losses
    ensures r.teamName == teamName && r.registrationDateDdmm == registrationDateDdmm
    ensures r.registrationDayOfYear == registrationDayOfYear
  {
    TeamRank(position, isTied, false, teamId, teamName, goals, wins, draws, losses,
             registrationDateDdmm, registrationDayOfYear)
  }

  /** `GetRankingResponse.validate_round_number`: rounds 1 to 3, returned unchanged. */
  function ValidateRankingRound(v: int): (r: Checked<int>)
    ensures r.Accepted? <==> 1 <= v <= 3
    ensures r.Accepted? ==> r.value == v
  {
    if v < 1 || v > 3 then Rejected("Round number should be between 1 and 3") else Accepted(v)
  }
}
