/** The older batch write path, `MatchResultsController.create_results`: the client chooses
    the match ids. It rejects self-matches, repeated ids, unknown teams and ids already
    stored, then creates the matches and two result rows per match in one transaction. The
    results repository has no `commit_transaction`, so once the first commit has made the
    rows permanent the second commit raises, and the call answers 500: it never returns
    True. */
module MatchResultsPath {
  import opened Validation
  import opened MatchResultsSchema
  import opened Standings
  import opened Tally
  import opened BatchChecks
  import opened Store
  import opened MatchWrite
  import opened MatchCore

  /** The requested match ids, in request order (`match_ids`). */
  function MatchIds(batch: seq<CreateMatchResultsRequest>): (r: seq<int>)
    ensures |r| == |batch|
  {
    if batch == [] then [] else MatchIds(batch[..|batch| - 1]) + [batch[|batch| - 1].matchId]
  }

  lemma {:induction false} MatchIdsAt(batch: seq<CreateMatchResultsRequest>, k: int)
    requires 0 <= k < |batch|
    ensures MatchIds(batch)[k] == batch[k].matchId
  {
    if k < |batch| - 1 {
      MatchIdsAt(batch[..|batch| - 1], k);
    }
  }

  /** The ids of the requests whose two team names are equal (`self_match_game_ids`). */
  function SelfMatchIds(batch: seq<CreateMatchResultsRequest>): seq<int>
    requires WellFormed(batch)
  {
    if batch == [] then []
    else
      var f := batch[|batch| - 1];
      SelfMatchIds(batch[..|batch| - 1]) + (if Home(f) == Away(f) then [f.matchId] else [])
  }

  /** The self-match list is empty exactly when no request pairs a team with itself, and
      every id it lists is the id of such a request. */
  lemma {:induction false} SelfMatchIdsMeaning(batch: seq<CreateMatchResultsRequest>)
    requires WellFormed(batch)
    ensures SelfMatchIds(batch) == [] <==> forall k | 0 <= k < |batch| :: Home(batch[k]) != Away(batch[k])
    ensures forall id | id in SelfMatchIds(batch) ::
      exists k | 0 <= k < |batch| :: batch[k].matchId == id && Home(batch[k]) == Away(batch[k])
  {
    if batch != [] {
      var prefix := batch[..|batch| - 1];
      SelfMatchIdsMeaning(prefix);
      assert forall k | 0 <= k < |prefix| :: prefix[k] == batch[k];
    }
  }

  /** The distinct values of a sequence. */
  function Elements(s: seq<int>): set<int> {
    set x | x in s
  }

  /** `len(set(match_ids)) != len(match_ids)` holds exactly when some id is repeated. */
  lemma {:induction false} RepeatedIdCheck(s: seq<int>)
    ensures |Elements(s)| == |s| <==> Distinct(s)
    ensures |Elements(s)| <= |s|
  {
    if s != [] {
      var prefix, x := s[..|s| - 1], s[|s| - 1];
      RepeatedIdCheck(prefix);
      AppendElement(prefix, x);
      AppendDistinct(prefix, x);
      assert s == prefix + [x];
    }
  }

  /** Appending a value adds it to the distinct values. */
  lemma AppendElement(s: seq<int>, x: int)
    ensures Elements(s + [x]) == Elements(s) + {x}
    ensures x in s <==> x in Elements(s)
  {
  }

  /** Appending a value keeps the values distinct exactly when it is new. */
  lemma AppendDistinct(s: seq<int>, x: int)
    ensures Distinct(s + [x]) <==> Distinct(s) && x !in s
  {
    var t := s + [x];
    if x in s {
      var i :| 0 <= i < |s| && s[i] == x;
      assert t[i] == t[|s|];
    }
    if Distinct(s) && x !in s {
      forall i, j | 0 <= i < j < |t|
        ensures t[i] != t[j]
      {
        if j == |s| {
          assert t[i] == s[i];
        } else {
          assert t[i] == s[i] && t[j] == s[j];
        }
      }
    }
    if Distinct(t) {
      forall i, j | 0 <= i < j < |s|
        ensures s[i] != s[j]
      {
        assert t[i] == s[i] && t[j] == s[j];
      }
    }
  }

  /** `get_game_matches_by_ids`: the stored match ids among `ids`, in stored order. */
  function StoredIds(matches: seq<GameMatch>, ids: seq<int>): (r: seq<int>)
    ensures r == [] <==> forall m | m in matches :: m.matchId !in ids
    ensures forall x | x in r :: x in ids
  {
    if matches == [] then []
    else
      var prefix, m := matches[..|matches| - 1], matches[|matches| - 1];
      assert matches == prefix + [m];
      StoredIds(prefix, ids) + (if m.matchId in ids then [m.matchId] else [])
  }

  /** The outcome of a call, with the HTTP status the source answers with. */
  datatype LegacyOutcome =
    | SelfMatchedIds(ids: seq<int>)     // 400
    | RepeatedIds                       // 400
    | MissingTeams(names: set<string>)  // 400
    | ExistingMatches(ids: seq<int>)    // 400
    | Failed(status: int)               // a repository call raised with this status
    | CommittedThenFailed               // 500, raised by the second commit after the first
                                        // one committed the matches and rows
    | NotWritten                        // returns False

  /** What `GameMatchRepository.create_game_matches` answers, supplied as an input. */
  datatype GamesReply = GamesCreated | GamesNotCreated | GamesRaised(status: int)

  /** The checks made before anything is written, in the source's order; `None` when all
      pass. */
  function LegacyPrecheck(batch: seq<CreateMatchResultsRequest>, roster: seq<RosterTeam>, matches: seq<GameMatch>)
    : (r: Option<LegacyOutcome>)
    requires WellFormed(batch)
    ensures r.Some? ==>
      r.value.SelfMatchedIds? || r.value == RepeatedIds || r.value.MissingTeams? || r.value.ExistingMatches?
    ensures SelfMatchIds(batch) != [] ==> r == Some(SelfMatchedIds(SelfMatchIds(batch)))
    ensures r.Some? && r.value.ExistingMatches? ==> r.value.ids != []
  {
    var names := Names(batch);
    var existing := TeamsNamed(roster, names);
    if SelfMatchIds(batch) != [] then Some(SelfMatchedIds(SelfMatchIds(batch)))
    else if |Elements(MatchIds(batch))| != |MatchIds(batch)| then Some(RepeatedIds)
    else if |existing| != |names| then Some(MissingTeams(names - NamesOf(existing)))
    else if StoredIds(matches, MatchIds(batch)) != [] then Some(ExistingMatches(StoredIds(matches, MatchIds(batch))))
    else None
  }

  /** The outcome of the creation step: the matches, the result rows, then the commits. A
      first commit that raises is answered with a 500 and nothing committed; one that
      succeeds is followed by the call of the missing method, also answered with a 500. */
  function LegacyCreation(gamesReply: GamesReply, resultsReply: ResultsReply, commitReply: CommitReply): (r: LegacyOutcome)
    ensures r.Failed? || r == NotWritten || r == CommittedThenFailed
    ensures r == CommittedThenFailed <==>
      gamesReply == GamesCreated && resultsReply == ResultsStored && commitReply.Committed?
    ensures gamesReply == GamesCreated && resultsReply == ResultsStored ==> r == CommittedThenFailed || r == Failed(500)
  {
    match gamesReply
    case GamesRaised(status) => Failed(status)
    case GamesNotCreated => NotWritten
    case GamesCreated =>
      match resultsReply
      case ResultsStored => if commitReply == CommitRaised then Failed(500) else CommittedThenFailed
      case ResultsNotStored => NotWritten
      case ResultsRaised(status) => Failed(status)
  }

  /** The checks pass exactly when no request pairs a team with itself, no match id is
      repeated, every name is a stored team, and no requested id is already stored. */
  lemma LegacyPrecheckMeaning(batch: seq<CreateMatchResultsRequest>, roster: seq<RosterTeam>, matches: seq<GameMatch>)
    requires WellFormed(batch) && NamesDistinct(roster)
    ensures LegacyPrecheck(batch, roster, matches) == None <==>
      && (forall k | 0 <= k < |batch| :: Home(batch[k]) != Away(batch[k]))
      && (forall i, j | 0 <= i < j < |batch| :: batch[i].matchId != batch[j].matchId)
      && Names(batch) <= NamesOf(roster)
      && (forall k, j | 0 <= k < |matches| && 0 <= j < |batch| :: matches[k].matchId != batch[j].matchId)
  {
    SelfMatchIdsMeaning(batch);
    RepeatedIdCheck(MatchIds(batch));
    UnknownNamesMeaning(roster, Names(batch));
    forall i | 0 <= i < |batch| {
      MatchIdsAt(batch, i);
    }
    var ids := MatchIds(batch);
    assert forall x :: x in ids <==> exists j | 0 <= j < |batch| :: batch[j].matchId == x by {
      forall x | x in ids
        ensures exists j | 0 <= j < |batch| :: batch[j].matchId == x
      {
        var j :| 0 <= j < |ids| && ids[j] == x;
        assert batch[j].matchId == x;
      }
    }
  }

  /** The result rows in the source's layout: every request's first side, in request order,
      then every request's second side, each row carrying its request's match id. */
  function LegacyRows(batch: seq<CreateMatchResultsRequest>, idOf: map<string, int>): (r: seq<ResultRow>)
    requires WellFormed(batch) && Covers(batch, idOf)
    ensures |r| == 2 * |batch|
    ensures forall k | 0 <= k < |batch| ::
      && r[k] == ResultRow(batch[k].matchId, idOf[Home(batch[k])], batch[k].result[0].goalsScored)
      && r[|batch| + k] == ResultRow(batch[k].matchId, idOf[Away(batch[k])], batch[k].result[1].goalsScored)
  {
    var first := seq(|batch|, k requires 0 <= k < |batch| =>
      ResultRow(batch[k].matchId, idOf[Home(batch[k])], batch[k].result[0].goalsScored));
    var second := seq(|batch|, k requires 0 <= k < |batch| =>
      ResultRow(batch[k].matchId, idOf[Away(batch[k])], batch[k].result[1].goalsScored));
    first + second
  }

  class MatchResultsController {
    /** The database session shared by the repositories. */
    const db: Database

    ghost predicate Valid()
      reads this, db
    {
      db.Valid() && db.Idle()
    }

    constructor (db: Database)
      requires db.Valid() && db.Idle()
      ensures Valid() && this.db == db
    {
      this.db := db;
    }

    /** The request loop: `match_ids`, `self_match_game_ids` and `team_name_set`. */
    static method ScanRequests(batch: seq<CreateMatchResultsRequest>)
      returns (matchIds: seq<int>, selfIds: seq<int>, names: set<string>)
      requires WellFormed(batch)
      ensures matchIds == MatchIds(batch) && selfIds == SelfMatchIds(batch) && names == Names(batch)
    {
      matchIds, selfIds, names := [], [], {};
      var i := 0;
      while i < |batch|
        invariant 0 <= i <= |batch| && WellFormed(batch[..i])
        invariant matchIds == MatchIds(batch[..i]) && selfIds == SelfMatchIds(batch[..i]) && names == Names(batch[..i])
      {
        var f := batch[i];
        assert batch[..i + 1][..i] == batch[..i] && batch[..i + 1][i] == f;
        matchIds := matchIds + [f.matchId];
        if f.result[0].teamName == f.result[1].teamName {
          selfIds := selfIds + [f.matchId];
        }
        names := names + {f.result[0].teamName, f.result[1].teamName};
        i := i + 1;
      }
      assert batch[..i] == batch;
    }

    /** The checks of `create_results`, in the source's order, before anything is written. */
    method Checks(batch: seq<CreateMatchResultsRequest>)
      returns (rejection: Option<LegacyOutcome>, matchIds: seq<int>, idOf: map<string, int>)
      requires Valid() && WellFormed(batch)
      ensures rejection == LegacyPrecheck(batch, db.roster, db.matches)
      ensures matchIds == MatchIds(batch)
      ensures rejection.None? ==>
        && |TeamsNamed(db.roster, Names(batch))| == |Names(batch)|
        && idOf == IdsByName(TeamsNamed(db.roster, Names(batch)))
    {
      var selfIds, names;
      matchIds, selfIds, names := ScanRequests(batch);
      idOf := map[];
      if |selfIds| > 0 {
        return Some(SelfMatchedIds(selfIds)), matchIds, idOf;
      }
      if |Elements(matchIds)| != |matchIds| {
        return Some(RepeatedIds), matchIds, idOf;
      }
      var existing := TeamsNamed(db.roster, names);
      if |existing| != |names| {
        return Some(MissingTeams(names - NamesOf(existing))), matchIds, idOf;
      }
      var groupOf;
      idOf, groupOf := MatchController.IndexTeams(existing);
      var stored := StoredIds(db.matches, matchIds);
      if |stored| > 0 {
        return Some(ExistingMatches(stored)), matchIds, idOf;
      }
      return None, matchIds, idOf;
    }

    /** The creation step: flush the matches, flush the rows, then commit twice or roll
        back. */
    method Write(batch: seq<CreateMatchResultsRequest>, roundNumber: int, idOf: map<string, int>,
                 gamesReply: GamesReply, resultsReply: ResultsReply, commitReply: CommitReply)
      returns (outcome: LegacyOutcome)
      requires Valid() && WellFormed(batch) && Covers(batch, idOf)
      modifies db
      ensures Valid() && db.roster == old(db.roster)
      ensures outcome == LegacyCreation(gamesReply, resultsReply, commitReply)
      ensures outcome == CommittedThenFailed ==>
        && db.matches == old(db.matches) + NewMatches(MatchIds(batch), roundNumber)
        && db.results == old(db.results) + LegacyRows(batch, idOf)
      ensures outcome != CommittedThenFailed ==> db.matches == old(db.matches) && db.results == old(db.results)
    {
      match gamesReply
      case GamesRaised(status) =>
        db.Rollback();
        return Failed(status);
      case GamesNotCreated =>
        return NotWritten;
      case GamesCreated =>
        db.FlushMatches(NewMatches(MatchIds(batch), roundNumber));
        outcome := StoreRows(LegacyRows(batch, idOf), resultsReply, commitReply);
    }

    /** The rows step of the creation, once the matches are flushed. On a stored reply the
        shared session is committed through the matches repository; the second commit, through
        the results repository, calls a method that repository does not define, so the
        controller rolls back (nothing is pending any more) and answers 500 with the rows
        committed. A first commit that raises has rolled back, and the answer is a 500 with
        nothing committed. Any other reply rolls both back. */
    method StoreRows(rows: seq<ResultRow>, resultsReply: ResultsReply, commitReply: CommitReply)
      returns (outcome: LegacyOutcome)
      requires db.Valid() && db.pendingResults == []
      modifies db
      ensures Valid() && db.roster == old(db.roster)
      ensures outcome == LegacyCreation(GamesCreated, resultsReply, commitReply)
      ensures outcome == CommittedThenFailed ==>
        && db.matches == old(db.matches) + old(db.pendingMatches)
        && db.results == old(db.results) + rows
      ensures outcome != CommittedThenFailed ==> db.matches == old(db.matches) && db.results == old(db.results)
    {
      match resultsReply
      case ResultsStored =>
        db.FlushResults(rows);
        var committed := db.Commit(commitReply);
        db.Rollback();
        if !committed {
          return Failed(500);
        }
        return CommittedThenFailed;
      case ResultsNotStored =>
        db.Rollback();
        return NotWritten;
      case ResultsRaised(status) =>
        db.Rollback();
        return Failed(status);
    }

    /** `create_results`. The checks reject in the source's order before anything is
        written; past them, the outcome is `LegacyCreation`. Only `CommittedThenFailed`, the
        500 answered after the first commit, changes the committed state: one match per
        requested id in this round, and the rows in the source's layout. Every path leaves no
        transaction open. */
    method CreateResults(batch: seq<CreateMatchResultsRequest>, roundNumber: int,
                         gamesReply: GamesReply, resultsReply: ResultsReply, commitReply: CommitReply)
      returns (outcome: LegacyOutcome)
      requires Valid() && WellFormed(batch)
      modifies db
      ensures Valid() && db.roster == old(db.roster)
      ensures LegacyPrecheck(batch, old(db.roster), old(db.matches)).Some? ==>
        outcome == LegacyPrecheck(batch, old(db.roster), old(db.matches)).value
      ensures LegacyPrecheck(batch, old(db.roster), old(db.matches)).None? ==>
        outcome == LegacyCreation(gamesReply, resultsReply, commitReply)
      ensures outcome == CommittedThenFailed ==>
        && LegacyPrecheck(batch, old(db.roster), old(db.matches)).None?
        && db.matches == old(db.matches) + NewMatches(MatchIds(batch), roundNumber)
        && db.results == old(db.results) + WrittenRows(batch, old(db.roster))
      ensures outcome != CommittedThenFailed ==> db.matches == old(db.matches) && db.results == old(db.results)
    {
      var rejection, matchIds, idOf := Checks(batch);
      if rejection.Some? {
        return rejection.value;
      }
      KnownNamesCovered(batch, db.roster);
      outcome := Write(batch, roundNumber, idOf, gamesReply, resultsReply, commitReply);
    }
  }

  /** The rows written for a batch that passed the checks. */
  function WrittenRows(batch: seq<CreateMatchResultsRequest>, roster: seq<RosterTeam>): (r: seq<ResultRow>)
    requires WellFormed(batch) && NamesDistinct(roster)
    requires |TeamsNamed(roster, Names(batch))| == |Names(batch)|
    ensures |r| == 2 * |batch|
  {
    KnownNamesCovered(batch, roster);
    LegacyRows(batch, IdsByName(TeamsNamed(roster, Names(batch))))
  }
}
