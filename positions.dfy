/** The backward pass of `get_match_rankings` that gives each team of a sorted group its
    position and its tie and qualification flags. */
module Positions {
  import opened RankSchema
  import opened RankingOrder

  /** Last index of the run of adjacent equal-key teams that starts at `i`. */
  function RunEnd(s: seq<TeamRank>, i: nat): (e: nat)
    requires i < |s|
    ensures i <= e < |s|
    ensures e == |s| - 1 || !SameKey(s[e], s[e + 1])
    decreases |s| - i
  {
    if i == |s| - 1 || !SameKey(s[i], s[i + 1]) then i else RunEnd(s, i + 1)
  }

  /** A neighbour on either side has an equal key. */
  predicate TiedAt(s: seq<TeamRank>, i: nat)
    requires i < |s|
  {
    (i + 1 < |s| && SameKey(s[i], s[i + 1])) || (0 < i && SameKey(s[i - 1], s[i]))
  }

  /** What the pass leaves in slot `i`: position one past the end of the team's run, the tie
      flag from its neighbours (the last slot keeps a flag already set), and qualification
      added when the position is within the cut-off. */
  function RankedAt(s: seq<TeamRank>, q: int, i: nat): (t: TeamRank)
    requires i < |s|
    ensures KeyOf(t) == KeyOf(s[i]) && t.teamId == s[i].teamId && t.teamName == s[i].teamName
  {
    var pos := RunEnd(s, i) + 1;
    s[i].(position := pos,
          isTied := TiedAt(s, i) || (i == |s| - 1 && s[i].isTied),
          isQualified := s[i].isQualified || pos <= q)
  }

  function Ranked(s: seq<TeamRank>, q: int): (r: seq<TeamRank>)
    ensures |r| == |s|
    ensures forall i :: 0 <= i < |s| ==> r[i] == RankedAt(s, q, i)
  {
    seq(|s|, i requires 0 <= i < |s| => RankedAt(s, q, i))
  }

  /** The tie flag of slot `k` before the pass has compared it with the slot above. */
  predicate TiedBelow(s: seq<TeamRank>, k: nat)
    requires k < |s|
  {
    (k + 1 < |s| && SameKey(s[k], s[k + 1])) || (k == |s| - 1 && s[k].isTied)
  }

  /** The group part-way through the pass: slots above `i + 1` untouched, slot `i + 1`
      positioned but not yet compared with the slot above, the rest final. */
  function Partial(s: seq<TeamRank>, q: int, i: int): (r: seq<TeamRank>)
    requires -1 <= i <= |s| - 2
    ensures |r| == |s|
  {
    seq(|s|, k requires 0 <= k < |s| =>
      if k <= i then s[k]
      else if k == i + 1 then RankedAt(s, q, k).(isTied := TiedBelow(s, k))
      else RankedAt(s, q, k))
  }

  /** One step of the pass, at slot `i`: compare with the slot below, update the running
      position and tie count, and write the two slots. It turns `Partial(s, q, i)` into
      `Partial(s, q, i - 1)` and keeps the meaning of the two counters. */
  lemma PassStep(s: seq<TeamRank>, q: int, i: nat, curPos: int, tieCount: int)
    requires i <= |s| - 2
    requires curPos == RunEnd(s, i + 1) + 1 && tieCount == RunEnd(s, i + 1) - (i + 1)
    ensures var tied := SameKey(s[i], s[i + 1]);
            var pos := if tied then curPos else curPos - (1 + tieCount);
            var p := Partial(s, q, i);
            var below := if tied then p[i + 1].(isTied := true) else p[i + 1];
            var cur := s[i].(isTied := tied).(position := pos);
            var cur' := if pos <= q then cur.(isQualified := true) else cur;
            && SameKey(p[i], p[i + 1]) == tied && p[i] == s[i]
            && p[i + 1 := below][i := cur'] == Partial(s, q, i - 1)
            && pos == RunEnd(s, i) + 1
            && (if tied then tieCount + 1 else 0) == RunEnd(s, i) - i
  {
    var tied := SameKey(s[i], s[i + 1]);
    var pos := if tied then curPos else curPos - (1 + tieCount);
    var p := Partial(s, q, i);
    var below := if tied then p[i + 1].(isTied := true) else p[i + 1];
    var cur := s[i].(isTied := tied).(position := pos);
    var cur' := if pos <= q then cur.(isQualified := true) else cur;
    var r := p[i + 1 := below][i := cur'];
    var pp := Partial(s, q, i - 1);
    assert RunEnd(s, i) == if tied then RunEnd(s, i + 1) else i;
    SameKeyIsKeyEquality(p[i], p[i + 1]);
    SameKeyIsKeyEquality(s[i], s[i + 1]);
    forall k | 0 <= k < |s| ensures r[k] == pp[k] {
      if k == i + 1 && !tied {
        assert !(0 < k && SameKey(s[k - 1], s[k]));
      }
    }
  }

  /** Before the loop only the bottom slot is set: its position is the group size. */
  lemma PassStart(s: seq<TeamRank>, q: int)
    requires |s| > 0
    ensures var n := |s|;
            var last := s[n - 1].(position := n);
            var last' := if n <= q then last.(isQualified := true) else last;
            s[n - 1 := last'] == Partial(s, q, n - 2)
  {
    var n := |s|;
    assert RunEnd(s, n - 1) == n - 1;
  }

  /** After the loop every slot is final. */
  lemma PassEnd(s: seq<TeamRank>, q: int)
    requires |s| > 0
    ensures Partial(s, q, -1) == Ranked(s, q)
  {
    assert forall k :: 0 <= k < |s| ==> Partial(s, q, -1)[k] == Ranked(s, q)[k];
  }

  /** Body of the loop at lines 196-207 for slot `i`: compare it with the slot below; on a
      tie flag both and lengthen the run, otherwise clear its flag and move the position up
      past the run below; then record the position and, within the cut-off, qualification. */
  method PassSlot(ghost group: seq<TeamRank>, ranked: seq<TeamRank>, i: nat, curPos: int, tieCount: int,
                  qualifyingCount: int)
    returns (ranked': seq<TeamRank>, curPos': int, tieCount': int)
    requires i <= |group| - 2
    requires ranked == Partial(group, qualifyingCount, i)
    requires curPos == RunEnd(group, i + 1) + 1 && tieCount == RunEnd(group, i + 1) - (i + 1)
    ensures ranked' == Partial(group, qualifyingCount, i - 1)
    ensures curPos' == RunEnd(group, i) + 1 && tieCount' == RunEnd(group, i) - i
  {
    PassStep(group, qualifyingCount, i, curPos, tieCount);
    ranked', curPos', tieCount' := ranked, curPos, tieCount;
    var cur := ranked'[i];
    if SameKey(cur, ranked'[i + 1]) {
      ranked' := ranked'[i + 1 := ranked'[i + 1].(isTied := true)];
      cur := cur.(isTied := true);
      tieCount' := tieCount' + 1;
    } else {
      cur := cur.(isTied := false);
      curPos' := curPos' - (1 + tieCount');
      tieCount' := 0;
    }
    cur := cur.(position := curPos');
    if curPos' <= qualifyingCount {
      cur := cur.(isQualified := true);
    }
    ranked' := ranked'[i := cur];
  }

  /** Lines 191-207: walk from the bottom of the sorted group to the top, keeping the current
      position and the length of the tie run below. The group list and its records are local
      to the ranking computation, so the records it overwrites in place are modelled as a
      list value the loop rewrites slot by slot. */
  method AssignPositions(group: seq<TeamRank>, qualifyingCount: int) returns (ranked: seq<TeamRank>)
    ensures ranked == Ranked(group, qualifyingCount)
  {
    ranked := group;
    var n := |ranked|;
    if n == 0 {
      return;
    }
    var curPos := n;
    var tieCount := 0;
    ranked := ranked[n - 1 := ranked[n - 1].(position := curPos)];
    if curPos <= qualifyingCount {
      ranked := ranked[n - 1 := ranked[n - 1].(isQualified := true)];
    }
    PassStart(group, qualifyingCount);
    var i := n - 2;
    while i >= 0
      invariant -1 <= i <= n - 2
      invariant ranked == Partial(group, qualifyingCount, i)
      invariant curPos == RunEnd(group, i + 1) + 1
      invariant tieCount == RunEnd(group, i + 1) - (i + 1)
    {
      ranked, curPos, tieCount := PassSlot(group, ranked, i, curPos, tieCount, qualifyingCount);
      i := i - 1;
    }
    PassEnd(group, qualifyingCount);
  }
}

/** What the positions and flags of a ranked group mean. */
module PositionFacts {
  import opened RankSchema
  import opened RankingOrder
  import opened Positions

  /** Every team of a run has the key of the run's first team. */
  lemma {:induction false} RunSharesKey(s: seq<TeamRank>, i: nat, j: nat)
    requires i < |s| && i <= j <= RunEnd(s, i)
    ensures KeyOf(s[j]) == KeyOf(s[i])
    decreases j - i
  {
    if j > i {
      assert SameKey(s[i], s[i + 1]);
      SameKeyIsKeyEquality(s[i], s[i + 1]);
      assert RunEnd(s, i) == RunEnd(s, i + 1);
      RunSharesKey(s, i + 1, j);
    }
  }

  /** Positions run from 1 to the group size, never decrease down the list, the bottom
      team gets the group size, teams of a tie run share the position of the run's last
      member, and a team not tied with the one below it gets its own place number. */
  lemma {:induction false} PositionShape(s: seq<TeamRank>, q: int, i: nat)
    requires i < |s|
    ensures 1 <= Ranked(s, q)[i].position <= |s|
    ensures i == |s| - 1 ==> Ranked(s, q)[i].position == |s|
    ensures i + 1 < |s| ==> Ranked(s, q)[i].position <= Ranked(s, q)[i + 1].position
    ensures i + 1 < |s| && SameKey(s[i], s[i + 1]) ==> Ranked(s, q)[i].position == Ranked(s, q)[i + 1].position
    ensures i + 1 < |s| && !SameKey(s[i], s[i + 1]) ==> Ranked(s, q)[i].position == i + 1
    decreases |s| - i
  {
    if i + 1 < |s| {
      PositionShape(s, q, i + 1);
    }
  }

  /** Flags: tied exactly when a neighbour has an equal key (given the flag starts false, as
      every record of the ranking does); qualified exactly when the position is within the
      cut-off (given the default false). */
  lemma FlagMeaning(s: seq<TeamRank>, q: int, i: nat)
    requires i < |s|
    requires !s[i].isTied && !s[i].isQualified
    ensures Ranked(s, q)[i].isTied <==>
              (i + 1 < |s| && KeyOf(s[i]) == KeyOf(s[i + 1])) || (0 < i && KeyOf(s[i - 1]) == KeyOf(s[i]))
    ensures Ranked(s, q)[i].isQualified <==> Ranked(s, q)[i].position <= q
  {
    if i + 1 < |s| { SameKeyIsKeyEquality(s[i], s[i + 1]); }
    if 0 < i { SameKeyIsKeyEquality(s[i - 1], s[i]); }
  }

  /** Number of teams of `s` whose key is at least `k`. */
  function CountAtLeast(s: seq<TeamRank>, k: Key): (c: nat)
    ensures c <= |s|
  {
    if s == [] then 0
    else CountAtLeast(s[..|s| - 1], k) + (if KeyGE(KeyOf(s[|s| - 1]), k) then 1 else 0)
  }

  /** When exactly the first `m` teams reach `k`, the count is `m`. */
  lemma {:induction false} CountOfPrefix(s: seq<TeamRank>, k: Key, m: nat)
    requires m <= |s|
    requires forall j :: 0 <= j < |s| ==> (KeyGE(KeyOf(s[j]), k) <==> j < m)
    ensures CountAtLeast(s, k) == m
    decreases |s|
  {
    if s != [] {
      var p := s[..|s| - 1];
      if m == |s| {
        assert forall j :: 0 <= j < |p| ==> (KeyGE(KeyOf(p[j]), k) <==> j < m - 1) by {
          assert forall j :: 0 <= j < |p| ==> p[j] == s[j];
        }
        CountOfPrefix(p, k, m - 1);
      } else {
        assert forall j :: 0 <= j < |p| ==> p[j] == s[j];
        CountOfPrefix(p, k, m);
      }
    }
  }

  /** In a sorted group, a team's position is the number of teams of the group whose key is
      at least its own: the teams above it and every team tied with it, itself included. */
  lemma PositionCountsTeamsAtLeastAsGood(s: seq<TeamRank>, q: int, i: nat)
    requires Sorted(s) && i < |s|
    ensures Ranked(s, q)[i].position == CountAtLeast(s, KeyOf(s[i]))
  {
    var e := RunEnd(s, i);
    var k := KeyOf(s[i]);
    forall j | 0 <= j < |s| ensures KeyGE(KeyOf(s[j]), k) <==> j < e + 1 {
      if j <= i {
        KeyGETotalOrder(k, k, k);
        if j < i { assert KeyGE(KeyOf(s[j]), KeyOf(s[i])); }
      } else if j <= e {
        RunSharesKey(s, i, j);
        KeyGETotalOrder(k, k, k);
      } else {
        // the team just below the run ranks strictly lower, and so does everyone below it
        RunSharesKey(s, i, e);
        assert !SameKey(s[e], s[e + 1]);
        SameKeyIsKeyEquality(s[e], s[e + 1]);
        assert KeyGE(KeyOf(s[e]), KeyOf(s[e + 1]));
        KeyGETotalOrder(KeyOf(s[e]), KeyOf(s[e + 1]), KeyOf(s[j]));
        if e + 1 < j { assert KeyGE(KeyOf(s[e + 1]), KeyOf(s[j])); }
        KeyGETotalOrder(KeyOf(s[j]), k, KeyOf(s[e + 1]));
      }
    }
    CountOfPrefix(s, k, e + 1);
  }
}
