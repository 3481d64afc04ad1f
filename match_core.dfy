/** The batch write path of `MatchController` (`create_results`): the pre-lock checks, the
    distributed match lock, the check against the stored round, and the transaction that
    creates one match and two result rows per fixture. The database is the controller's
    state: committed matches and result rows, and the rows flushed but not yet committed. */
module MatchCore {
  import opened Validation
  import opened MatchResultsSchema
  import opened Standings
  import opened BatchChecks
  import opened MatchWrite
  import opened Store
  import opened Lock
  import opened RankSchema

  class MatchController {
    /** The database session shared by the repositories. */
    const db: Database
    /** The match-result lock (`MATCH_LOCK_KEY`, default lease). */
    const lock: DistributedLock

    /** A valid database with no open transaction, and a lock that guards the match key with
        a lease that does not expire at once. */
    ghost predicate Valid()
      reads this, db
    {
      db.Valid() && db.Idle() && lock.lockKey == MatchLockKey && lock.ttl > 0 && lock.lockValue != ""
    }

    constructor (db: Database, lock: DistributedLock)
      requires db.Valid() && db.Idle() && lock.lockKey == MatchLockKey && lock.ttl > 0 && lock.lockValue != ""
      ensures Valid() && this.db == db && this.lock == lock
    {
      this.db := db;
      this.lock := lock;
    }

    // ------------------------------------------------------------ repository operations

    /** `MatchRepository.create_game_matches`: flushes the new matches and returns their ids;
        on a database error the repository rolls back and raises (`None`). */
    method CreateGameMatches(matchCount: nat, roundNumber: int, reply: IdsReply) returns (ids: Option<seq<int>>)
      modifies db
      ensures reply.Ids? ==>
        ids == Some(reply.ids) && db.pendingMatches == old(db.pendingMatches) + NewMatches(reply.ids, roundNumber)
        && db.pendingResults == old(db.pendingResults)
      ensures reply.IdsRaised? ==> ids.None? && db.Idle()
      ensures db.roster == old(db.roster) && db.matches == old(db.matches) && db.results == old(db.results)
    {
      match reply
      case Ids(created) =>
        db.FlushMatches(NewMatches(created, roundNumber));
        ids := Some(created);
      case IdsRaised(_) =>
        db.Rollback();
        ids := None;
    }

    /** `MatchRepository.create_match_results`: flushes the rows; `None` when it raised (after
        its own rollback). */
    method CreateMatchResults(rows: seq<ResultRow>, reply: ResultsReply) returns (stored: Option<bool>)
      modifies db
      ensures reply == ResultsStored ==>
        stored == Some(true) && db.pendingResults == old(db.pendingResults) + rows && db.pendingMatches == old(db.pendingMatches)
      ensures reply == ResultsNotStored ==>
        stored == Some(false) && db.pendingResults == old(db.pendingResults) && db.pendingMatches == old(db.pendingMatches)
      ensures reply.ResultsRaised? ==> stored.None? && db.Idle()
      ensures db.roster == old(db.roster) && db.matches == old(db.matches) && db.results == old(db.results)
    {
      match reply
      case ResultsStored =>
        db.FlushResults(rows);
        stored := Some(true);
      case ResultsNotStored =>
        stored := Some(false);
      case ResultsRaised(_) =>
        db.Rollback();
        stored := None;
    }

    // ------------------------------------------------------------ the write path

    /** The creation step of `create_results`, under the lock: flush the matches, check the
        id count, flush the rows, then commit twice or roll back. The outcome is `Creation`;
        only the outcomes that reach the first commit and see it succeed change the committed
        state, by the new matches and the batch's rows. The lock is released at most once
        here, with the clock standing still. */
    method Create(batch: seq<CreateMatchResultsRequest>, roundNumber: int, idOf: map<string, int>,
                  idsReply: IdsReply, resultsReply: ResultsReply, commits: CommitReplies) returns (outcome: WriteOutcome)
      requires Valid() && WellFormed(batch) && Covers(batch, idOf)
      modifies db, lock.store
      ensures Valid() && db.roster == old(db.roster)
      ensures outcome == Creation(batch, roundNumber, idsReply, resultsReply, commits)
      ensures Commits(outcome) ==>
        && idsReply.Ids? && |idsReply.ids| == |batch|
        && db.matches == old(db.matches) + NewMatches(idsReply.ids, roundNumber)
        && db.results == old(db.results) + ResultRows(batch, idsReply.ids, idOf)
      ensures !Commits(outcome) ==> db.matches == old(db.matches) && db.results == old(db.results)
      ensures lock.store.data == old(lock.store.data)
           || lock.store.data == AfterGive(old(lock.store.data), old(lock.store.now), MatchLockKey, lock.lockValue)
      ensures lock.store.now == old(lock.store.now)
    {
      var created := CreateGameMatches(|batch|, roundNumber, idsReply);
      if created.None? {
        return Raised(idsReply.status);
      }
      var ids := created.value;
      if |ids| > 0 {
        if |ids| != |batch| {
          db.Rollback();
          var _ := lock.Give();
          return IdCountMismatch;
        }
        outcome := Finish(batch, ids, roundNumber, idOf, resultsReply, commits);
        return;
      }
      return NotCreated;
    }

    /** The rest of the creation step once one id per fixture has come back: build and flush
        the rows, then commit twice, or roll back. A commit that raises is caught by the
        controller, which rolls back and answers 500; a raise of the second commit comes after
        the first has committed the batch. */
    method Finish(batch: seq<CreateMatchResultsRequest>, ids: seq<int>, roundNumber: int, idOf: map<string, int>,
                  resultsReply: ResultsReply, commits: CommitReplies) returns (outcome: WriteOutcome)
      requires db.Valid() && lock.lockKey == MatchLockKey && lock.ttl > 0 && lock.lockValue != ""
      requires db.pendingMatches == NewMatches(ids, roundNumber) && db.pendingResults == []
      requires WellFormed(batch) && Covers(batch, idOf) && |ids| == |batch| > 0
      modifies db, lock.store
      ensures Valid() && db.roster == old(db.roster)
      ensures outcome == Creation(batch, roundNumber, Ids(ids), resultsReply, commits)
      ensures Commits(outcome) ==>
        && db.matches == old(db.matches) + NewMatches(ids, roundNumber)
        && db.results == old(db.results) + ResultRows(batch, ids, idOf)
      ensures !Commits(outcome) ==> db.matches == old(db.matches) && db.results == old(db.results)
      ensures lock.store.data == old(lock.store.data)
           || lock.store.data == AfterGive(old(lock.store.data), old(lock.store.now), MatchLockKey, lock.lockValue)
      ensures lock.store.now == old(lock.store.now)
    {
      var newRows := BuildRows(batch, ids, idOf);
      var stored := CreateMatchResults(newRows, resultsReply);
      match stored
      case Some(true) =>
        outcome := CommitTwice(roundNumber, commits);
      case Some(false) =>
        var _ := lock.Give();
        db.Rollback();
        return NotCreated;
      case None =>
        db.Rollback();
        return Raised(resultsReply.status);
    }

    /** The check against the stored round (`get_matchups_by_round_and_team_ids` and the loop
        over its rows): the pairs of the batch that already played each other this round. */
    method StoredRoundClashes(batch: seq<CreateMatchResultsRequest>, roundNumber: int,
                              matchUps: map<string, set<string>>, idOf: map<string, int>)
      returns (clashes: seq<(string, string)>)
      requires Valid() && WellFormed(batch) && OpponentMap(batch, matchUps)
      requires |TeamsNamed(db.roster, Names(batch))| == |Names(batch)|
      requires idOf == IdsByName(TeamsNamed(db.roster, Names(batch)))
      ensures clashes == RoundClashes(batch, db.roster, db.matches, db.results, roundNumber)
      ensures Covers(batch, idOf)
    {
      KnownNamesCovered(batch, db.roster);
      QueriedNamesInBatch(batch, db.roster, db.matches, db.results, roundNumber);
      assert idOf.Values == BatchTeamIds(batch, db.roster);
      var rows := MatchUps(db.results, db.matches, db.roster, roundNumber, idOf.Values);
      clashes := FindStoredClashes(rows, matchUps, batch);
    }

    /** The success branch once the rows are flushed: commit twice, give the lock back, then
        broadcast the round's standings for groups 1 and 2. A commit that raises is caught,
        rolled back and answered with a 500. The broadcast's `get_match_rankings` raises for a
        round outside 1 to 3, which is caught the same way after both commits. */
    method CommitTwice(roundNumber: int, commits: CommitReplies) returns (outcome: WriteOutcome)
      requires db.Valid() && lock.lockKey == MatchLockKey
      modifies db, lock.store
      ensures db.Valid() && db.Idle() && db.roster == old(db.roster)
      ensures outcome == (if commits.first == CommitRaised then Raised(500)
                          else if commits.second == CommitRaised || !(1 <= roundNumber <= 3) then CommittedThenRaised
                          else Created)
      ensures Commits(outcome) ==>
        db.matches == old(db.matches) + old(db.pendingMatches) && db.results == old(db.results) + old(db.pendingResults)
      ensures !Commits(outcome) ==> db.matches == old(db.matches) && db.results == old(db.results)
      ensures lock.store.data == old(lock.store.data)
           || lock.store.data == AfterGive(old(lock.store.data), old(lock.store.now), MatchLockKey, lock.lockValue)
      ensures lock.store.now == old(lock.store.now)
    {
      var first := db.Commit(commits.first);
      if !first {
        db.Rollback();
        return Raised(500);
      }
      var second := db.Commit(commits.second);
      if !second {
        db.Rollback();
        return CommittedThenRaised;
      }
      var _ := lock.Give();
      var standings := ValidateRankingRound(roundNumber);
      if standings.Rejected? {
        db.Rollback();
        return CommittedThenRaised;
      }
      return Created;
    }

    /** The part of `create_results` run while the lock is held, up to the `finally`: the
        check against the stored round, then the creation step. The outcome is `AfterLock`. */
    method Locked(batch: seq<CreateMatchResultsRequest>, roundNumber: int, matchUps: map<string, set<string>>,
                  idOf: map<string, int>, idsReply: IdsReply, resultsReply: ResultsReply, commits: CommitReplies)
      returns (outcome: WriteOutcome)
      requires Valid() && WellFormed(batch) && OpponentMap(batch, matchUps)
      requires |TeamsNamed(db.roster, Names(batch))| == |Names(batch)|
      requires idOf == IdsByName(TeamsNamed(db.roster, Names(batch)))
      modifies db, lock.store
      ensures Valid() && db.roster == old(db.roster)
      ensures outcome == AfterLock(batch, old(db.roster), old(db.matches), old(db.results), roundNumber, idsReply, resultsReply, commits)
      ensures Commits(outcome) ==>
        && idsReply.Ids? && |idsReply.ids| == |batch|
        && db.matches == old(db.matches) + NewMatches(idsReply.ids, roundNumber)
        && db.results == old(db.results) + CreatedRows(batch, old(db.roster), idsReply.ids)
      ensures !Commits(outcome) ==> db.matches == old(db.matches) && db.results == old(db.results)
      ensures lock.store.data == old(lock.store.data)
           || lock.store.data == AfterGive(old(lock.store.data), old(lock.store.now), MatchLockKey, lock.lockValue)
      ensures lock.store.now == old(lock.store.now)
    {
      var clashes := StoredRoundClashes(batch, roundNumber, matchUps, idOf);
      if |clashes| > 0 {
        var _ := lock.Give();
        return StoredDuplicates(clashes);
      }
      outcome := Create(batch, roundNumber, idOf, idsReply, resultsReply, commits);
    }

    /** The checks of `create_results` made before the lock: the scan of the batch, the
        roster lookup and the cross-group loop. */
    method Prechecks(batch: seq<CreateMatchResultsRequest>, roundNumber: int)
      returns (rejection: Option<WriteOutcome>, matchUps: map<string, set<string>>, idOf: map<string, int>)
      requires Valid() && WellFormed(batch)
      ensures rejection == Precheck(batch, db.roster, roundNumber)
      ensures rejection.None? ==>
        && OpponentMap(batch, matchUps)
        && |TeamsNamed(db.roster, Names(batch))| == |Names(batch)|
        && idOf == IdsByName(TeamsNamed(db.roster, Names(batch)))
    {
      var duplicates, names, selfMatches;
      matchUps, duplicates, names, selfMatches := ScanBatch(batch);
      idOf := map[];
      if |duplicates| > 0 {
        return Some(DuplicatePairs(duplicates)), matchUps, idOf;
      }
      if |selfMatches| > 0 {
        return Some(SelfMatched(selfMatches)), matchUps, idOf;
      }
      var existing := TeamsNamed(db.roster, names);
      if |existing| != |names| {
        return Some(UnknownTeams(names - NamesOf(existing))), matchUps, idOf;
      }
      KnownNamesCovered(batch, db.roster);
      var groupOf;
      idOf, groupOf := IndexTeams(existing);
      if roundNumber < 3 {
        var cross := FindCrossGroup(batch, groupOf);
        if cross {
          return Some(CrossGroup), matchUps, idOf;
        }
      }
      return None, matchUps, idOf;
    }

    /** `create_results`. The pre-lock checks reject in the source's order without touching
        the lock or the store. Past them the lock is polled with the source's defaults: if it
        cannot be had the call fails and the store is as it was; once held, the outcome is
        `AfterLock` and the `finally` leaves the lock key released and every other key as it
        was, whichever way the call ends. Only `Created`, and the 500 raised by a failing second
        commit, change the committed state, by exactly the batch's matches and rows; a failing
        first commit answers 500 with nothing committed. */
    method CreateResults(batch: seq<CreateMatchResultsRequest>, roundNumber: int,
                         idsReply: IdsReply, resultsReply: ResultsReply, commits: CommitReplies)
      returns (outcome: WriteOutcome)
      requires Valid() && WellFormed(batch)
      modifies db, lock.store
      ensures Valid() && db.roster == old(db.roster)
      ensures Precheck(batch, old(db.roster), roundNumber).Some? ==>
        && outcome == Precheck(batch, old(db.roster), roundNumber).value
        && lock.store.data == old(lock.store.data) && lock.store.now == old(lock.store.now)
      ensures Precheck(batch, old(db.roster), roundNumber).None? ==>
        outcome == LockFailed || outcome == AfterLock(batch, old(db.roster), old(db.matches), old(db.results), roundNumber, idsReply, resultsReply, commits)
      ensures Precheck(batch, old(db.roster), roundNumber).None? && FreeAt(old(lock.store.data), MatchLockKey, old(lock.store.now)) ==>
        outcome != LockFailed
      ensures outcome == LockFailed ==>
        && lock.store.data == old(lock.store.data)
        && !FreeAt(old(lock.store.data), MatchLockKey, lock.store.now - DefaultIntervalMs)
      ensures Precheck(batch, old(db.roster), roundNumber).None? && outcome != LockFailed ==>
        lock.store.data == old(lock.store.data) - {MatchLockKey}
      ensures Commits(outcome) ==>
        && Precheck(batch, old(db.roster), roundNumber).None? && idsReply.Ids? && |idsReply.ids| == |batch|
        && db.matches == old(db.matches) + NewMatches(idsReply.ids, roundNumber)
        && db.results == old(db.results) + CreatedRows(batch, old(db.roster), idsReply.ids)
      ensures !Commits(outcome) ==> db.matches == old(db.matches) && db.results == old(db.results)
    {
      var rejection, matchUps, idOf := Prechecks(batch, roundNumber);
      if rejection.Some? {
        return rejection.value;
      }
      outcome := Guarded(batch, roundNumber, matchUps, idOf, idsReply, resultsReply, commits);
    }

    /** The part of `create_results` after the pre-lock checks: poll the lock, run the locked
        step, and release in the `finally`. */
    method Guarded(batch: seq<CreateMatchResultsRequest>, roundNumber: int, matchUps: map<string, set<string>>,
                   idOf: map<string, int>, idsReply: IdsReply, resultsReply: ResultsReply, commits: CommitReplies)
      returns (outcome: WriteOutcome)
      requires Valid() && WellFormed(batch) && OpponentMap(batch, matchUps)
      requires |TeamsNamed(db.roster, Names(batch))| == |Names(batch)|
      requires idOf == IdsByName(TeamsNamed(db.roster, Names(batch)))
      modifies db, lock.store
      ensures Valid() && db.roster == old(db.roster)
      ensures outcome == LockFailed || outcome == AfterLock(batch, old(db.roster), old(db.matches), old(db.results), roundNumber, idsReply, resultsReply, commits)
      ensures FreeAt(old(lock.store.data), MatchLockKey, old(lock.store.now)) ==> outcome != LockFailed
      ensures outcome == LockFailed ==>
        && lock.store.data == old(lock.store.data)
        && !FreeAt(old(lock.store.data), MatchLockKey, lock.store.now - DefaultIntervalMs)
      ensures outcome != LockFailed ==> lock.store.data == old(lock.store.data) - {MatchLockKey}
      ensures Commits(outcome) ==>
        && idsReply.Ids? && |idsReply.ids| == |batch|
        && db.matches == old(db.matches) + NewMatches(idsReply.ids, roundNumber)
        && db.results == old(db.results) + CreatedRows(batch, old(db.roster), idsReply.ids)
      ensures !Commits(outcome) ==> db.matches == old(db.matches) && db.results == old(db.results)
    {
      ghost var startData, startNow := lock.store.data, lock.store.now;
      var acquired := lock.Get(DefaultTimeoutMs, DefaultIntervalMs);
      if !acquired {
        ghost var lastPoll := lock.store.now - DefaultIntervalMs;
        assert startNow <= lastPoll && !FreeAt(startData, MatchLockKey, lastPoll);
        if FreeAt(startData, MatchLockKey, startNow) {
          FreeStaysFree(startData, MatchLockKey, startNow, lastPoll);
        }
        return LockFailed;
      }
      outcome := HoldAndRelease(batch, roundNumber, matchUps, idOf, idsReply, resultsReply, commits, startData);
    }

    /** The `try` block with the lock just taken over `before`, then the `finally`: whatever
        the locked step did, the lock key ends released and every other key as in `before`. */
    method HoldAndRelease(batch: seq<CreateMatchResultsRequest>, roundNumber: int, matchUps: map<string, set<string>>,
                          idOf: map<string, int>, idsReply: IdsReply, resultsReply: ResultsReply, commits: CommitReplies,
                          ghost before: map<string, Entry>)
      returns (outcome: WriteOutcome)
      requires Valid() && WellFormed(batch) && OpponentMap(batch, matchUps)
      requires |TeamsNamed(db.roster, Names(batch))| == |Names(batch)|
      requires idOf == IdsByName(TeamsNamed(db.roster, Names(batch)))
      requires lock.store.data == before[MatchLockKey := Entry(lock.lockValue, lock.store.now + lock.ttl * 1000)]
      modifies db, lock.store
      ensures Valid() && db.roster == old(db.roster)
      ensures outcome == AfterLock(batch, old(db.roster), old(db.matches), old(db.results), roundNumber, idsReply, resultsReply, commits)
      ensures lock.store.data == before - {MatchLockKey}
      ensures Commits(outcome) ==>
        && idsReply.Ids? && |idsReply.ids| == |batch|
        && db.matches == old(db.matches) + NewMatches(idsReply.ids, roundNumber)
        && db.results == old(db.results) + CreatedRows(batch, old(db.roster), idsReply.ids)
      ensures !Commits(outcome) ==> db.matches == old(db.matches) && db.results == old(db.results)
    {
      ghost var held := Entry(lock.lockValue, lock.store.now + lock.ttl * 1000);
      ghost var heldData := lock.store.data;
      ReleaseAfterHold(before, MatchLockKey, held, lock.store.now, lock.lockValue);
      outcome := Locked(batch, roundNumber, matchUps, idOf, idsReply, resultsReply, commits);
      assert lock.store.data == heldData || lock.store.data == before - {MatchLockKey};
      var _ := lock.Give();
    }

    // ------------------------------------------------------------ loops of the write path

    /** The `for team in existing_teams` loop filling the two lookup maps. */
    static method IndexTeams(teams: seq<RosterTeam>) returns (idOf: map<string, int>, groupOf: map<string, int>)
      ensures idOf == IdsByName(teams) && groupOf == GroupsByName(teams)
    {
      idOf, groupOf := map[], map[];
      var i := 0;
      while i < |teams|
        invariant 0 <= i <= |teams|
        invariant idOf == IdsByName(teams[..i]) && groupOf == GroupsByName(teams[..i])
      {
        assert teams[..i + 1][..i] == teams[..i];
        idOf := idOf[teams[i].teamName := teams[i].teamId];
        groupOf := groupOf[teams[i].teamName := teams[i].groupNumber];
        i := i + 1;
      }
      assert teams[..i] == teams;
    }

    /** The cross-group loop of rounds 1 and 2: stops at the first fixture whose two teams sit
        in different groups. */
    static method FindCrossGroup(batch: seq<CreateMatchResultsRequest>, groupOf: map<string, int>) returns (cross: bool)
      requires WellFormed(batch) && Covers(batch, groupOf)
      ensures cross == CrossGroupIn(batch, groupOf)
    {
      var i := 0;
      while i < |batch|
        invariant 0 <= i <= |batch|
        invariant forall k | 0 <= k < i :: groupOf[Home(batch[k])] == groupOf[Away(batch[k])]
      {
        if groupOf[batch[i].result[0].teamName] != groupOf[batch[i].result[1].teamName] {
          return true;
        }
        i := i + 1;
      }
      return false;
    }

    /** The loop over the stored match-ups of the round (`match_id_opponent_map`). */
    static method FindStoredClashes(rows: seq<MatchUp>, matchUps: map<string, set<string>>,
                                    ghost batch: seq<CreateMatchResultsRequest>) returns (clashes: seq<(string, string)>)
      requires WellFormed(batch) && OpponentMap(batch, matchUps)
      requires NamesWithin(rows, Names(batch))
      ensures clashes == StoredClashes(rows, batch)
    {
      var openers: map<int, string> := map[];
      clashes := [];
      var i := 0;
      while i < |rows|
        invariant 0 <= i <= |rows|
        invariant openers == Openers(rows[..i]) && clashes == StoredClashes(rows[..i], batch)
        invariant forall m | m in openers :: openers[m] in Names(batch)
      {
        assert rows[..i + 1][..i] == rows[..i] && rows[..i + 1][i] == rows[i];
        var row := rows[i];
        if row.matchId !in openers {
          openers := openers[row.matchId := row.teamName];
        } else if row.teamName in matchUps[openers[row.matchId]] {
          clashes := clashes + [(openers[row.matchId], row.teamName)];
        }
        i := i + 1;
      }
      assert rows[..i] == rows;
    }

    /** The loop building the result rows: fixture `k` takes the `k`-th created id. */
    static method BuildRows(batch: seq<CreateMatchResultsRequest>, ids: seq<int>, idOf: map<string, int>)
      returns (rows: seq<ResultRow>)
      requires WellFormed(batch) && |ids| == |batch| && Covers(batch, idOf)
      ensures rows == ResultRows(batch, ids, idOf)
    {
      rows := [];
      var k := 0;
      while k < |batch|
        invariant 0 <= k <= |batch|
        invariant WellFormed(batch[..k]) && Covers(batch[..k], idOf)
        invariant rows == ResultRows(batch[..k], ids[..k], idOf)
      {
        var f := batch[k];
        assert batch[..k + 1][..k] == batch[..k] && ids[..k + 1][..k] == ids[..k];
        rows := rows + [ResultRow(ids[k], idOf[f.result[0].teamName], f.result[0].goalsScored),
                        ResultRow(ids[k], idOf[f.result[1].teamName], f.result[1].goalsScored)];
        k := k + 1;
      }
      assert batch[..k] == batch && ids[..k] == ids;
    }
  }
}
