/** Validators of the match-result request bodies (`CreateMatchResultsRequest`,
    `BatchCreateMatchResultsRequest`). */
module MatchResultsSchema {
  import opened Validation

  /** Goals earned by one of the two teams of a match. */
  datatype MatchResultEntry = MatchResultEntry(teamName: string, goalsScored: int)

  /** One requested match with a client-chosen id, as the older write path takes it. */
  datatype CreateMatchResultsRequest = CreateMatchResultsRequest(matchId: int, result: seq<MatchResultEntry>)

  /** `validate_result`: a match names exactly two teams; the list is returned as given. */
  function ValidateResult(v: seq<MatchResultEntry>): (r: Checked<seq<MatchResultEntry>>)
    ensures r.Accepted? <==> |v| == 2
    ensures r.Accepted? ==> r.value == v
  {
    if |v| != 2 then Rejected("Exactly two teams need to be be defined for a match") else Accepted(v)
  }

  /** `validate_results`: a batch holds at least one match; it is returned as given. */
  function ValidateResults(v: seq<CreateMatchResultsRequest>): (r: Checked<seq<CreateMatchResultsRequest>>)
    ensures r.Accepted? <==> |v| > 0
    ensures r.Accepted? ==> r.value == v
  {
    if |v| == 0 then Rejected("Results array cannot be empty") else Accepted(v)
  }
}
