/** The pre-lock scan of a batch of match results in `MatchController.create_results`: the
    opponents each team name is paired with, the pairs repeated within the batch, the
    self-matches and the set of names. */
module BatchChecks {
  import opened MatchResultsSchema

  /** Every request names exactly two sides, as `validate_result` guarantees. */
  predicate WellFormed(batch: seq<CreateMatchResultsRequest>) {
    forall k | 0 <= k < |batch| :: |batch[k].result| == 2
  }

  function Home(f: CreateMatchResultsRequest): string
    requires |f.result| == 2
  {
    f.result[0].teamName
  }

  function Away(f: CreateMatchResultsRequest): string
    requires |f.result| == 2
  {
    f.result[1].teamName
  }

  /** Fixture `k` of the batch pairs `n` with `m`, in either order. */
  predicate Pairs(batch: seq<CreateMatchResultsRequest>, k: int, n: string, m: string)
    requires WellFormed(batch)
  {
    0 <= k < |batch| && ((Home(batch[k]) == n && Away(batch[k]) == m) || (Away(batch[k]) == n && Home(batch[k]) == m))
  }

  /** `match_up_dict[name]` after the fixtures `batch`: every name `name` was paired with. */
  function Opponents(batch: seq<CreateMatchResultsRequest>, name: string): set<string>
    requires WellFormed(batch)
  {
    if batch == [] then {}
    else
      var f := batch[|batch| - 1];
      Opponents(batch[..|batch| - 1], name)
        + (if Home(f) == name then {Away(f)} else {})
        + (if Away(f) == name then {Home(f)} else {})
  }

  /** `m` is an opponent of `n` exactly when some fixture pairs them. */
  lemma {:induction false} OpponentsMeaning(batch: seq<CreateMatchResultsRequest>, n: string, m: string)
    requires WellFormed(batch)
    ensures m in Opponents(batch, n) <==> exists k :: Pairs(batch, k, n, m)
  {
    if batch != [] {
      var prefix := batch[..|batch| - 1];
      OpponentsMeaning(prefix, n, m);
      if exists k :: Pairs(prefix, k, n, m) {
        var k :| Pairs(prefix, k, n, m);
        assert Pairs(batch, k, n, m);
      }
      var last := batch[|batch| - 1];
      if (Home(last) == n && Away(last) == m) || (Away(last) == n && Home(last) == m) {
        assert Pairs(batch, |batch| - 1, n, m);
      }
      if exists k :: Pairs(batch, k, n, m) {
        var k :| Pairs(batch, k, n, m);
        if k < |prefix| {
          assert prefix[k] == batch[k];
          assert Pairs(prefix, k, n, m);
        }
      }
    }
  }

  /** The names the batch mentions (`team_name_set`). */
  function Names(batch: seq<CreateMatchResultsRequest>): set<string>
    requires WellFormed(batch)
  {
    if batch == [] then {}
    else
      var f := batch[|batch| - 1];
      Names(batch[..|batch| - 1]) + {Home(f), Away(f)}
  }

  /** A name is mentioned exactly when some fixture names it. */
  lemma {:induction false} NamesMeaning(batch: seq<CreateMatchResultsRequest>, n: string)
    requires WellFormed(batch)
    ensures n in Names(batch) <==> exists k | 0 <= k < |batch| :: Home(batch[k]) == n || Away(batch[k]) == n
  {
    if batch != [] {
      var prefix := batch[..|batch| - 1];
      NamesMeaning(prefix, n);
      if exists k | 0 <= k < |prefix| :: Home(prefix[k]) == n || Away(prefix[k]) == n {
        var k :| 0 <= k < |prefix| && (Home(prefix[k]) == n || Away(prefix[k]) == n);
        assert batch[k] == prefix[k];
      }
    }
  }

  /** `duplicate_match_ups` after the scan: at each fixture (a, b), the pair (a, b) is reported
      when a was already paired with b, and then (b, a) when b was already paired with a. */
  function Duplicates(batch: seq<CreateMatchResultsRequest>): seq<(string, string)>
    requires WellFormed(batch)
  {
    if batch == [] then []
    else
      var prefix := batch[..|batch| - 1];
      var a, b := Home(batch[|batch| - 1]), Away(batch[|batch| - 1]);
      Duplicates(prefix)
        + (if a in Opponents(prefix, b) then [(a, b)] else [])
        + (if b in Opponents(prefix, a) then [(b, a)] else [])
  }

  /** Fixtures `i` and `j` pair the same two names, in either order. */
  predicate SamePair(batch: seq<CreateMatchResultsRequest>, i: int, j: int)
    requires WellFormed(batch)
  {
    0 <= i < |batch| && 0 <= j < |batch| && Pairs(batch, i, Home(batch[j]), Away(batch[j]))
  }

  /** A duplicate is reported exactly when two fixtures of the batch pair the same two names,
      in either order. */
  lemma {:induction false} DuplicatesMeaning(batch: seq<CreateMatchResultsRequest>)
    requires WellFormed(batch)
    ensures Duplicates(batch) != [] <==> exists i, j | 0 <= i < j < |batch| :: SamePair(batch, i, j)
  {
    if batch != [] {
      var prefix := batch[..|batch| - 1];
      var n := |batch| - 1;
      DuplicatesMeaning(prefix);
      EarlierRepeats(batch);
      LastRepeats(batch, n);
      OpponentsSymmetric(prefix, Home(batch[n]), Away(batch[n]));
      if exists i, j | 0 <= i < j < |batch| :: SamePair(batch, i, j) {
        var i, j :| 0 <= i < j < |batch| && SamePair(batch, i, j);
        if j == n {
          assert exists i | 0 <= i < n :: SamePair(batch, i, n);
        } else {
          assert exists i, j | 0 <= i < j < n :: SamePair(batch, i, j);
        }
      }
    }
  }

  /** Two fixtures before the last repeat a pair in the batch exactly when they do in the
      prefix. */
  lemma EarlierRepeats(batch: seq<CreateMatchResultsRequest>)
    requires WellFormed(batch) && batch != []
    ensures var prefix := batch[..|batch| - 1];
      (exists i, j | 0 <= i < j < |batch| - 1 :: SamePair(batch, i, j))
        <==> exists i, j | 0 <= i < j < |prefix| :: SamePair(prefix, i, j)
  {
    var prefix := batch[..|batch| - 1];
    if exists i, j | 0 <= i < j < |prefix| :: SamePair(prefix, i, j) {
      var i, j :| 0 <= i < j < |prefix| && SamePair(prefix, i, j);
      assert SamePair(batch, i, j);
    }
    if exists i, j | 0 <= i < j < |batch| - 1 :: SamePair(batch, i, j) {
      var i, j :| 0 <= i < j < |batch| - 1 && SamePair(batch, i, j);
      assert SamePair(prefix, i, j);
    }
  }

  /** The last fixture `n` repeats an earlier one exactly when the scan reports it: its home
      name is already an opponent of its away name. */
  lemma LastRepeats(batch: seq<CreateMatchResultsRequest>, n: int)
    requires WellFormed(batch) && n == |batch| - 1 >= 0
    ensures (exists i | 0 <= i < n :: SamePair(batch, i, n))
              <==> Home(batch[n]) in Opponents(batch[..n], Away(batch[n]))
  {
    var prefix := batch[..n];
    var a, b := Home(batch[n]), Away(batch[n]);
    OpponentsMeaning(prefix, b, a);
    if exists i | 0 <= i < n :: SamePair(batch, i, n) {
      var i :| 0 <= i < n && SamePair(batch, i, n);
      assert Pairs(prefix, i, b, a);
    }
    if a in Opponents(prefix, b) {
      var i :| Pairs(prefix, i, b, a);
      assert SamePair(batch, i, n);
    }
  }

  /** Being paired is symmetric: `m` is an opponent of `n` exactly when `n` is one of `m`. */
  lemma OpponentsSymmetric(batch: seq<CreateMatchResultsRequest>, n: string, m: string)
    requires WellFormed(batch)
    ensures m in Opponents(batch, n) <==> n in Opponents(batch, m)
  {
    OpponentsMeaning(batch, n, m);
    OpponentsMeaning(batch, m, n);
    if m in Opponents(batch, n) {
      var k :| Pairs(batch, k, n, m);
      assert Pairs(batch, k, m, n);
    }
    if n in Opponents(batch, m) {
      var k :| Pairs(batch, k, m, n);
      assert Pairs(batch, k, n, m);
    }
  }

  /** `self_match_game_ids`: the (a, a) pairs of the batch, in order. */
  function SelfMatches(batch: seq<CreateMatchResultsRequest>): (r: seq<(string, string)>)
    requires WellFormed(batch)
    ensures r == [] <==> forall k | 0 <= k < |batch| :: Home(batch[k]) != Away(batch[k])
  {
    if batch == [] then []
    else
      var prefix := batch[..|batch| - 1];
      var f := batch[|batch| - 1];
      var r := SelfMatches(prefix) + (if Home(f) == Away(f) then [(Home(f), Away(f))] else []);
      assert forall k | 0 <= k < |prefix| :: prefix[k] == batch[k];
      r
  }

  /** `matchUps` holds, for every name of `batch` and no other, its opponents in `batch`. */
  ghost predicate OpponentMap(batch: seq<CreateMatchResultsRequest>, matchUps: map<string, set<string>>)
    requires WellFormed(batch)
  {
    && (forall n :: n in matchUps <==> n in Names(batch))
    && (forall n | n in matchUps :: matchUps[n] == Opponents(batch, n))
  }

  /** The loop state after scanning `batch`. */
  ghost predicate Scanned(batch: seq<CreateMatchResultsRequest>, matchUps: map<string, set<string>>,
                          duplicates: seq<(string, string)>, names: set<string>, selfMatches: seq<(string, string)>)
    requires WellFormed(batch)
  {
    && duplicates == Duplicates(batch)
    && selfMatches == SelfMatches(batch)
    && names == Names(batch)
    && OpponentMap(batch, matchUps)
  }

  /** Opponents of a name the batch never mentions: none. */
  lemma {:induction false} UnnamedHasNoOpponents(batch: seq<CreateMatchResultsRequest>, n: string)
    requires WellFormed(batch) && n !in Names(batch)
    ensures Opponents(batch, n) == {}
  {
    if batch != [] {
      UnnamedHasNoOpponents(batch[..|batch| - 1], n);
    }
  }

  /** `match_up_dict.setdefault(n, set())`, read only. */
  function Lookup(matchUps: map<string, set<string>>, n: string): set<string> {
    if n in matchUps then matchUps[n] else {}
  }

  lemma LookupIsOpponents(batch: seq<CreateMatchResultsRequest>, matchUps: map<string, set<string>>, n: string)
    requires WellFormed(batch) && OpponentMap(batch, matchUps)
    ensures Lookup(matchUps, n) == Opponents(batch, n)
  {
    if n !in matchUps {
      UnnamedHasNoOpponents(batch, n);
    }
  }

  lemma Extend(p: seq<CreateMatchResultsRequest>, f: CreateMatchResultsRequest)
    requires WellFormed(p) && |f.result| == 2
    ensures WellFormed(p + [f]) && (p + [f])[..|p|] == p && (p + [f])[|p|] == f
  {
  }

  /** Adding the fixture (a, b) to the opponent map (`match_up_dict[a].add(b)`,
      `match_up_dict[b].add(a)`). */
  lemma OpponentMapStep(p: seq<CreateMatchResultsRequest>, f: CreateMatchResultsRequest,
                        matchUps: map<string, set<string>>)
    requires WellFormed(p) && |f.result| == 2 && OpponentMap(p, matchUps)
    ensures WellFormed(p + [f])
    ensures var a, b := Home(f), Away(f);
      var m' := matchUps[a := Lookup(matchUps, a) + {b}];
      OpponentMap(p + [f], m'[b := Lookup(m', b) + {a}])
  {
    Extend(p, f);
    var q := p + [f];
    var a, b := Home(f), Away(f);
    var m' := matchUps[a := Lookup(matchUps, a) + {b}];
    var m'' := m'[b := Lookup(m', b) + {a}];
    assert Names(q) == Names(p) + {a, b};
    forall n | n in m''
      ensures m''[n] == Opponents(q, n)
    {
      LookupIsOpponents(p, matchUps, n);
      assert Opponents(q, n) == Opponents(p, n) + (if a == n then {b} else {}) + (if b == n then {a} else {});
    }
  }

  /** One fixture of the scan: record the self-match, the names, the duplicates, then the two
      new opponents. */
  method ScanFixture(ghost p: seq<CreateMatchResultsRequest>, f: CreateMatchResultsRequest,
                     matchUps: map<string, set<string>>, duplicates: seq<(string, string)>,
                     names: set<string>, selfMatches: seq<(string, string)>)
    returns (matchUps': map<string, set<string>>, duplicates': seq<(string, string)>,
             names': set<string>, selfMatches': seq<(string, string)>)
    requires WellFormed(p) && |f.result| == 2
    requires Scanned(p, matchUps, duplicates, names, selfMatches)
    ensures WellFormed(p + [f])
    ensures Scanned(p + [f], matchUps', duplicates', names', selfMatches')
  {
    Extend(p, f);
    var a, b := f.result[0].teamName, f.result[1].teamName;
    selfMatches' := selfMatches;
    if a == b {
      selfMatches' := selfMatches' + [(a, b)];
    }
    names' := names + {a, b};
    LookupIsOpponents(p, matchUps, a);
    LookupIsOpponents(p, matchUps, b);
    duplicates' := duplicates;
    if a in Lookup(matchUps, b) {
      duplicates' := duplicates' + [(a, b)];
    }
    if b in Lookup(matchUps, a) {
      duplicates' := duplicates' + [(b, a)];
    }
    OpponentMapStep(p, f, matchUps);
    matchUps' := matchUps[a := Lookup(matchUps, a) + {b}];
    matchUps' := matchUps'[b := Lookup(matchUps', b) + {a}];
  }

  /** The scan loop over the batch (`match_up_dict`, `duplicate_match_ups`, `team_name_set`,
      `self_match_game_ids`). */
  method ScanBatch(batch: seq<CreateMatchResultsRequest>)
    returns (matchUps: map<string, set<string>>, duplicates: seq<(string, string)>,
             names: set<string>, selfMatches: seq<(string, string)>)
    requires WellFormed(batch)
    ensures Scanned(batch, matchUps, duplicates, names, selfMatches)
  {
    matchUps, duplicates, names, selfMatches := map[], [], {}, [];
    var i := 0;
    while i < |batch|
      invariant 0 <= i <= |batch|
      invariant WellFormed(batch[..i])
      invariant Scanned(batch[..i], matchUps, duplicates, names, selfMatches)
    {
      assert batch[..i + 1] == batch[..i] + [batch[i]];
      matchUps, duplicates, names, selfMatches := ScanFixture(batch[..i], batch[i], matchUps, duplicates, names, selfMatches);
      i := i + 1;
    }
    assert batch[..i] == batch;
  }
}
