/** The standings order of `MatchController.get_match_rankings`: the two point scores and
    the four-part sort key, and Python's stable `sorted(..., reverse=True)` on that key. */
module RankingOrder {
  import opened RankSchema

  /** `_get_score`: 3 points a win, 1 a draw. */
  function Score(t: TeamRank): int
  {
    t.wins * 3 + t.draws
  }

  /** `_get_alternate_score`: 5 points a win, 3 a draw, and (as the code has it) 1 a loss. */
  function AlternateScore(t: TeamRank): int
  {
    t.wins * 5 + t.draws * 3 + t.losses
  }

  /** Sort key: score, goals, alternate score, then negated registration day, so that the
      earlier registrant ranks higher. */
  datatype Key = Key(score: int, goals: int, alternate: int, negDay: int)

  function KeyOf(t: TeamRank): (k: Key)
    ensures k.score == Score(t) && k.goals == t.goals
    ensures k.alternate == AlternateScore(t) && k.negDay == -t.registrationDayOfYear
  {
    Key(Score(t), t.goals, AlternateScore(t), -t.registrationDayOfYear)
  }

  /** Lexicographic "at least" on keys. */
  predicate KeyGE(x: Key, y: Key)
  {
    x.score > y.score ||
    (x.score == y.score &&
      (x.goals > y.goals ||
       (x.goals == y.goals &&
         (x.alternate > y.alternate ||
          (x.alternate == y.alternate && x.negDay >= y.negDay)))))
  }

  /** The comparison is a total order on keys. */
  lemma KeyGETotalOrder(x: Key, y: Key, z: Key)
    ensures KeyGE(x, x)
    ensures KeyGE(x, y) || KeyGE(y, x)
    ensures KeyGE(x, y) && KeyGE(y, x) ==> x == y
    ensures KeyGE(x, y) && KeyGE(y, z) ==> KeyGE(x, z)
  {
  }

  /** Two teams the backward pass treats as tied: equal score, goals, alternate score and
      registration day. */
  predicate SameKey(a: TeamRank, b: TeamRank)
  {
    Score(a) == Score(b) && a.goals == b.goals &&
    AlternateScore(a) == AlternateScore(b) && a.registrationDayOfYear == b.registrationDayOfYear
  }

  lemma SameKeyIsKeyEquality(a: TeamRank, b: TeamRank)
    ensures SameKey(a, b) <==> KeyOf(a) == KeyOf(b)
  {
  }

  /** Ranked first to last: every team's key is at least that of every team below it. */
  predicate Sorted(s: seq<TeamRank>)
  {
    forall i, j :: 0 <= i < j < |s| ==> KeyGE(KeyOf(s[i]), KeyOf(s[j]))
  }

  /** No team of `s` has a key above `b`. */
  predicate AllAtMost(b: Key, s: seq<TeamRank>)
  {
    forall y | y in s :: KeyGE(b, KeyOf(y))
  }

  lemma SortedCons(h: TeamRank, rest: seq<TeamRank>)
    ensures Sorted([h] + rest) <==> AllAtMost(KeyOf(h), rest) && Sorted(rest)
  {
    var s := [h] + rest;
    assert forall j :: 0 < j < |s| ==> s[j] == rest[j - 1];
    if AllAtMost(KeyOf(h), rest) && Sorted(rest) {
      forall i, j | 0 <= i < j < |s| ensures KeyGE(KeyOf(s[i]), KeyOf(s[j])) {
        if i == 0 { assert s[j] in rest; }
      }
    }
    if Sorted(s) {
      assert s[0] == h;
      forall y | y in rest ensures KeyGE(KeyOf(h), KeyOf(y)) {
        var j :| 0 <= j < |rest| && rest[j] == y;
        assert s[j + 1] == y;
        assert KeyGE(KeyOf(s[0]), KeyOf(s[j + 1]));
      }
      forall i, j | 0 <= i < j < |rest| ensures KeyGE(KeyOf(rest[i]), KeyOf(rest[j])) {
        assert KeyGE(KeyOf(s[i + 1]), KeyOf(s[j + 1]));
      }
    }
  }

  lemma AllAtMostTransfer(b: Key, s1: seq<TeamRank>, s2: seq<TeamRank>)
    requires forall y | y in s1 :: y in s2
    requires AllAtMost(b, s2)
    ensures AllAtMost(b, s1)
  {
  }

  /** Places `x` before the first team whose key does not exceed its own. */
  function Insert(x: TeamRank, t: seq<TeamRank>): (r: seq<TeamRank>)
    requires Sorted(t)
    ensures Sorted(r)
    ensures multiset(r) == multiset(t) + multiset{x}
    ensures |r| == |t| + 1
  {
    if t == [] then [x]
    else
      assert t == [t[0]] + t[1..];
      SortedCons(t[0], t[1..]);
      if KeyGE(KeyOf(x), KeyOf(t[0])) then
        assert AllAtMost(KeyOf(x), t) by {
          forall y | y in t ensures KeyGE(KeyOf(x), KeyOf(y)) {
            KeyGETotalOrder(KeyOf(x), KeyOf(t[0]), KeyOf(y));
          }
        }
        SortedCons(x, t);
        [x] + t
      else
        var rest := Insert(x, t[1..]);
        assert AllAtMost(KeyOf(t[0]), rest) by {
          KeyGETotalOrder(KeyOf(x), KeyOf(t[0]), KeyOf(x));
          forall y | y in rest ensures y in t[1..] + [x] {
            assert y in multiset(rest);
          }
          AllAtMostTransfer(KeyOf(t[0]), rest, t[1..] + [x]);
        }
        SortedCons(t[0], rest);
        [t[0]] + rest
  }

  /** `sorted(group, key=..., reverse=True)`: an insertion sort that keeps teams with equal
      keys in their original order. The result is ordered and a permutation of the input. */
  function SortByKey(s: seq<TeamRank>): (r: seq<TeamRank>)
    ensures Sorted(r)
    ensures multiset(r) == multiset(s)
    ensures |r| == |s|
  {
    if s == [] then []
    else
      assert s == [s[0]] + s[1..];
      Insert(s[0], SortByKey(s[1..]))
  }

  /** The teams of `s` whose key equals `k`, in their order in `s`. */
  function WithKey(s: seq<TeamRank>, k: Key): (r: seq<TeamRank>)
    ensures |r| <= |s|
  {
    if s == [] then []
    else (if KeyOf(s[0]) == k then [s[0]] else []) + WithKey(s[1..], k)
  }

  lemma {:induction false} InsertStable(x: TeamRank, t: seq<TeamRank>, k: Key)
    requires Sorted(t)
    ensures WithKey(Insert(x, t), k) == (if KeyOf(x) == k then [x] else []) + WithKey(t, k)
  {
    if t == [] {
      assert WithKey([x], k) == (if KeyOf(x) == k then [x] else []) + WithKey([], k);
    } else if KeyGE(KeyOf(x), KeyOf(t[0])) {
      assert Insert(x, t) == [x] + t;
      assert ([x] + t)[0] == x && ([x] + t)[1..] == t;
    } else {
      assert t == [t[0]] + t[1..];
      SortedCons(t[0], t[1..]);
      var rest := Insert(x, t[1..]);
      assert Insert(x, t) == [t[0]] + rest;
      assert ([t[0]] + rest)[0] == t[0] && ([t[0]] + rest)[1..] == rest;
      InsertStable(x, t[1..], k);
      if KeyOf(x) == k {
        // t[0] ranks strictly above x, so it cannot share x's key
        assert KeyOf(t[0]) != k by {
          KeyGETotalOrder(KeyOf(x), KeyOf(t[0]), KeyOf(t[0]));
        }
      }
    }
  }

  /** The sort is stable: among teams with any one key, the input order survives. */
  lemma {:induction false} SortIsStable(s: seq<TeamRank>, k: Key)
    ensures WithKey(SortByKey(s), k) == WithKey(s, k)
  {
    if s != [] {
      SortIsStable(s[1..], k);
      InsertStable(s[0], SortByKey(s[1..]), k);
    }
  }
}
