/** The database tables both write paths touch, with the session's open transaction: rows
    flushed by a repository call stay pending until a commit makes them permanent or a
    rollback discards them. */
module Store {
  import opened Standings

  /** A `game_match` row and a `match_results` row. */
  datatype GameMatch = GameMatch(matchId: int, roundNumber: int)
  datatype ResultRow = ResultRow(matchId: int, teamId: int, goalsScored: int)

  /** Team names are assumed unique; the `team` table indexes `team_name` but does not
      enforce uniqueness. */
  predicate NamesDistinct(teams: seq<RosterTeam>) {
    forall i, j | 0 <= i < j < |teams| :: teams[i].teamName != teams[j].teamName
  }

  /** Team ids are unique (`team_id` is the primary key). */
  predicate IdsDistinct(teams: seq<RosterTeam>) {
    forall i, j | 0 <= i < j < |teams| :: teams[i].teamId != teams[j].teamId
  }

  /** What the database answers to a commit, supplied as an input: it commits, or it
      raises an error, after which `commit_transaction` rolls back and raises a 500. */
  datatype CommitReply = Committed | CommitRaised

  /** One `game_match` row per id, all in this round. */
  function NewMatches(ids: seq<int>, roundNumber: int): (r: seq<GameMatch>)
    ensures |r| == |ids|
    ensures forall k | 0 <= k < |ids| :: r[k].matchId == ids[k] && r[k].roundNumber == roundNumber
  {
    seq(|ids|, k requires 0 <= k < |ids| => GameMatch(ids[k], roundNumber))
  }

  class Database {
    /** The `team` table. */
    var roster: seq<RosterTeam>
    /** Committed `game_match` and `match_results` rows. */
    var matches: seq<GameMatch>
    var results: seq<ResultRow>
    /** Rows of the open transaction, flushed but not committed. */
    var pendingMatches: seq<GameMatch>
    var pendingResults: seq<ResultRow>

    /** Unique team names and ids. */
    ghost predicate Valid()
      reads this
    {
      NamesDistinct(roster) && IdsDistinct(roster)
    }

    /** No transaction is open. */
    predicate Idle()
      reads this
    {
      pendingMatches == [] && pendingResults == []
    }

    constructor (roster: seq<RosterTeam>, matches: seq<GameMatch>, results: seq<ResultRow>)
      requires NamesDistinct(roster) && IdsDistinct(roster)
      ensures Valid() && Idle()
      ensures this.roster == roster && this.matches == matches && this.results == results
    {
      this.roster := roster;
      this.matches := matches;
      this.results := results;
      pendingMatches := [];
      pendingResults := [];
    }

    /** `add_all` followed by `flush` for new matches. */
    method FlushMatches(ms: seq<GameMatch>)
      modifies this
      ensures pendingMatches == old(pendingMatches) + ms && pendingResults == old(pendingResults)
      ensures roster == old(roster) && matches == old(matches) && results == old(results)
    {
      pendingMatches := pendingMatches + ms;
    }

    /** `add_all` followed by `flush` for new result rows. */
    method FlushResults(rows: seq<ResultRow>)
      modifies this
      ensures pendingResults == old(pendingResults) + rows && pendingMatches == old(pendingMatches)
      ensures roster == old(roster) && matches == old(matches) && results == old(results)
    {
      pendingResults := pendingResults + rows;
    }

    /** `commit_transaction`: on `Committed` the flushed rows become committed (a second
        commit finds nothing to add); on `CommitRaised` they are rolled back and the call
        fails. Either way no transaction stays open. */
    method Commit(reply: CommitReply) returns (ok: bool)
      modifies this
      ensures ok <==> reply == Committed
      ensures ok ==> matches == old(matches) + old(pendingMatches) && results == old(results) + old(pendingResults)
      ensures !ok ==> matches == old(matches) && results == old(results)
      ensures Idle() && roster == old(roster)
    {
      if reply == CommitRaised {
        Rollback();
        return false;
      }
      matches := matches + pendingMatches;
      results := results + pendingResults;
      pendingMatches := [];
      pendingResults := [];
      return true;
    }

    /** `rollback_transaction`: the flushed rows are discarded. */
    method Rollback()
      modifies this
      ensures Idle()
      ensures roster == old(roster) && matches == old(matches) && results == old(results)
    {
      pendingMatches := [];
      pendingResults := [];
    }
  }
}
