/**
 * `calculateRanking`: place a finished game's score on the top-N
 * leaderboard. The leaderboard is re-sorted by score with JavaScript's
 * stable `Array.prototype.sort`, cut to the first N entries and re-ranked.
 */
module Ranking {
  import opened Js

  /** A leaderboard entry; `rank` is absent on an entry not yet ranked. */
  datatype Entry = Entry(profileId: string, score: int, name: string, rank: Option<int>)

  /** The result object `{ newLeaderboard, isTopFive }`. */
  datatype RankingResult = RankingResult(newLeaderboard: seq<Entry>, isTopFive: bool)

  /** Scores never increase along the list. */
  predicate Descending(s: seq<Entry>)
  {
    forall i, j :: 0 <= i < j < |s| ==> s[i].score >= s[j].score
  }

  /** How many entries score at least `v`. */
  function CountAtLeast(s: seq<Entry>, v: int): (n: nat)
    ensures n <= |s|
  {
    if s == [] then 0 else (if s[0].score >= v then 1 else 0) + CountAtLeast(s[1..], v)
  }

  /**
   * One step of the stable sort by `(a, b) => b.score - a.score`: `e`, which
   * comes after everything in `s`, goes after every entry scoring at least
   * as much.
   */
  function Insert(e: Entry, s: seq<Entry>): (r: seq<Entry>)
    ensures |r| == |s| + 1
  {
    if s == [] then [e]
    else if s[0].score >= e.score then [s[0]] + Insert(e, s[1..])
    else [e] + s
  }

  /** `xs.sort((a, b) => b.score - a.score)`, stable, as an insertion sort from the left. */
  function SortByScore(xs: seq<Entry>): (r: seq<Entry>)
    ensures |r| == |xs|
  {
    if xs == [] then [] else Insert(xs[|xs| - 1], SortByScore(xs[..|xs| - 1]))
  }

  /** `.map((rank, index) => ({ ...rank, rank: index + 1 }))`. */
  function WithRanks(s: seq<Entry>): seq<Entry>
  {
    seq(|s|, i requires 0 <= i < |s| => s[i].(rank := Some(i + 1)))
  }

  function Min(a: int, b: int): int
  {
    if a <= b then a else b
  }

  /** `lowestTopScore`: the last entry's score on a board of at least `topN` entries, 0 otherwise. */
  function LowestTopScore(board: seq<Entry>, topN: nat): int
    requires topN >= 1
  {
    if |board| >= topN then board[|board| - 1].score else 0
  }

  /** `calculateRanking(score, currentLeaderboard, profileId, name)` with `TOP_RANKINGS` as `topN`. */
  function CalculateRanking(score: int, board: seq<Entry>, profileId: Option<string>, name: string, topN: nat): (r: RankingResult)
    requires topN >= 1
    ensures r.isTopFive <==> |board| < topN || score > board[|board| - 1].score
    ensures !(Truthy(profileId) && r.isTopFive) ==> r.newLeaderboard == board
    ensures Truthy(profileId) && r.isTopFive ==>
              |r.newLeaderboard| == Min(|board| + 1, topN) &&
              forall i :: 0 <= i < |r.newLeaderboard| ==> r.newLeaderboard[i].rank == Some(i + 1)
  {
    var isTopFive := score > LowestTopScore(board, topN) || |board| < topN;
    if Truthy(profileId) && isTopFive then
      var sorted := SortByScore(board + [Entry(profileId.value, score, name, None)]);
      RankingResult(WithRanks(sorted[..Min(topN, |sorted|)]), isTopFive)
    else
      RankingResult(board, isTopFive)
  }

  /** Inserting adds exactly `e`. */
  lemma {:induction false} InsertMultiset(e: Entry, s: seq<Entry>)
    ensures multiset(Insert(e, s)) == multiset(s) + multiset{e}
    decreases |s|
  {
    if s != [] {
      assert s == [s[0]] + s[1..];
      if s[0].score >= e.score {
        InsertMultiset(e, s[1..]);
      }
    }
  }

  /** Inserting keeps the list descending. */
  lemma {:induction false} InsertSpec(e: Entry, s: seq<Entry>)
    requires Descending(s)
    ensures Descending(Insert(e, s))
    ensures multiset(Insert(e, s)) == multiset(s) + multiset{e}
    decreases |s|
  {
    InsertMultiset(e, s);
    if s != [] && s[0].score >= e.score {
      var t := s[1..];
      assert Descending(t) by {
        forall i, j | 0 <= i < j < |t| ensures t[i].score >= t[j].score { assert t[i] == s[i + 1] && t[j] == s[j + 1]; }
      }
      InsertSpec(e, t);
      var r := [s[0]] + Insert(e, t);
      forall j | 0 < j < |r| ensures r[0].score >= r[j].score {
        assert r[j] in multiset(Insert(e, t));
        if r[j] != e {
          assert r[j] in multiset(t);
          var k :| 0 <= k < |t| && t[k] == r[j];
          assert s[k + 1] == r[j];
        }
      }
    }
  }

  /** The sort yields a descending permutation of its input. */
  lemma {:induction false} SortSpec(xs: seq<Entry>)
    ensures Descending(SortByScore(xs))
    ensures multiset(SortByScore(xs)) == multiset(xs)
    ensures |SortByScore(xs)| == |xs|
    decreases |xs|
  {
    if xs != [] {
      var init := xs[..|xs| - 1];
      SortSpec(init);
      InsertSpec(xs[|xs| - 1], SortByScore(init));
      assert xs == init + [xs[|xs| - 1]];
    }
  }

  /** Counting distributes over concatenation. */
  lemma {:induction false} CountAppend(a: seq<Entry>, b: seq<Entry>, v: int)
    ensures CountAtLeast(a + b, v) == CountAtLeast(a, v) + CountAtLeast(b, v)
    decreases |a|
  {
    if a == [] {
      assert a + b == b;
    } else {
      assert (a + b)[1..] == a[1..] + b;
      CountAppend(a[1..], b, v);
    }
  }

  /** Inserting adds one to the count exactly when the new entry reaches `v`. */
  lemma {:induction false} InsertCount(e: Entry, s: seq<Entry>, v: int)
    ensures CountAtLeast(Insert(e, s), v) == CountAtLeast(s, v) + (if e.score >= v then 1 else 0)
    decreases |s|
  {
    if s != [] {
      if s[0].score >= e.score {
        InsertCount(e, s[1..], v);
      } else {
        assert ([e] + s)[1..] == s;
      }
    }
  }

  /** Sorting does not change how many entries reach a score. */
  lemma {:induction false} SortCount(xs: seq<Entry>, v: int)
    ensures CountAtLeast(SortByScore(xs), v) == CountAtLeast(xs, v)
    decreases |xs|
  {
    if xs != [] {
      var init := xs[..|xs| - 1];
      SortCount(init, v);
      InsertCount(xs[|xs| - 1], SortByScore(init), v);
      assert xs == init + [xs[|xs| - 1]];
      CountAppend(init, [xs[|xs| - 1]], v);
    }
  }

  /** In a descending list whose first entry is below `v`, no entry reaches `v`. */
  lemma {:induction false} CountNone(s: seq<Entry>, v: int)
    requires Descending(s) && (s != [] ==> s[0].score < v)
    ensures CountAtLeast(s, v) == 0
    decreases |s|
  {
    if |s| > 1 {
      var t := s[1..];
      assert Descending(t) by {
        forall i, j | 0 <= i < j < |t| ensures t[i].score >= t[j].score { assert t[i] == s[i + 1] && t[j] == s[j + 1]; }
      }
      CountNone(t, v);
    }
  }

  /**
   * In a descending list the stable insertion puts `e` right after the
   * entries scoring at least as much: ties stay ahead of the newcomer.
   */
  lemma {:induction false} InsertPosition(e: Entry, s: seq<Entry>)
    requires Descending(s)
    ensures var k := CountAtLeast(s, e.score);
            Insert(e, s) == s[..k] + [e] + s[k..]
    decreases |s|
  {
    if s != [] {
      var t := s[1..];
      if s[0].score >= e.score {
        assert Descending(t) by {
          forall i, j | 0 <= i < j < |t| ensures t[i].score >= t[j].score { assert t[i] == s[i + 1] && t[j] == s[j + 1]; }
        }
        InsertPosition(e, t);
        var k := CountAtLeast(t, e.score);
        assert s[..k + 1] == [s[0]] + t[..k];
        assert s[k + 1..] == t[k..];
      } else {
        CountNone(s, e.score);
      }
    }
  }

  /** Entries that all reach `v` are all counted; one that falls short is not. */
  lemma {:induction false} CountShort(s: seq<Entry>, v: int, i: nat)
    requires i < |s| && s[i].score < v
    ensures CountAtLeast(s, v) < |s|
    decreases |s|
  {
    if i > 0 {
      CountShort(s[1..], v, i - 1);
    }
  }

  /** When every entry reaches `v`, all are counted. */
  lemma {:induction false} CountAll(s: seq<Entry>, v: int)
    requires forall i :: 0 <= i < |s| ==> s[i].score >= v
    ensures CountAtLeast(s, v) == |s|
    decreases |s|
  {
    if s != [] {
      CountAll(s[1..], v);
    }
  }

  /** Sorting the board with a newcomer appended puts the newcomer right after the entries scoring at least as much. */
  lemma LandsAfterTies(board: seq<Entry>, e: Entry)
    ensures var k := CountAtLeast(board, e.score);
            k < |board| + 1 && SortByScore(board + [e])[k] == e
  {
    var xs := board + [e];
    assert xs[..|xs| - 1] == board;
    var sorted := SortByScore(board);
    assert SortByScore(xs) == Insert(e, sorted);
    SortSpec(board);
    InsertPosition(e, sorted);
    SortCount(board, e.score);
  }

  /**
   * A listed result is the top of the stable sort: the first `topN` entries
   * of a descending permutation of the board plus the new entry, ranked 1,
   * 2, ... in order; no entry cut off scores more than one kept.
   */
  lemma RankingIsTopOfSort(score: int, board: seq<Entry>, profileId: Option<string>, name: string, topN: nat)
    requires topN >= 1
    requires Truthy(profileId) && CalculateRanking(score, board, profileId, name, topN).isTopFive
    ensures var all := SortByScore(board + [Entry(profileId.value, score, name, None)]);
            var r := CalculateRanking(score, board, profileId, name, topN).newLeaderboard;
            multiset(all) == multiset(board + [Entry(profileId.value, score, name, None)]) &&
            Descending(all) && |r| <= |all| &&
            (forall i :: 0 <= i < |r| ==> r[i] == all[i].(rank := Some(i + 1))) &&
            (forall i, j :: 0 <= i < |r| <= j < |all| ==> r[i].score >= all[j].score)
  {
    SortSpec(board + [Entry(profileId.value, score, name, None)]);
  }

  /**
   * On a board of at most `topN` entries, a signed-in player's top-five
   * score is always on the new leaderboard, at rank one more than the number
   * of existing entries scoring at least as much.
   */
  lemma NewEntryListed(score: int, board: seq<Entry>, profileId: Option<string>, name: string, topN: nat)
    requires topN >= 1 && |board| <= topN
    requires Truthy(profileId) && CalculateRanking(score, board, profileId, name, topN).isTopFive
    ensures var r := CalculateRanking(score, board, profileId, name, topN).newLeaderboard;
            var k := CountAtLeast(board, score);
            k < |r| && r[k] == Entry(profileId.value, score, name, Some(k + 1))
  {
    var e := Entry(profileId.value, score, name, None);
    LandsAfterTies(board, e);
    var k := CountAtLeast(board, score);
    if |board| == topN {
      CountShort(board, score, |board| - 1);
    }
    assert k < Min(topN, |board| + 1);
  }

  /**
   * On a full, descending board `isTopFive` means exactly that some entry
   * scores below the new score, so that the new entry would be placed among
   * the first `topN`; on a shorter board it always holds.
   */
  lemma TopFiveIffRoom(score: int, board: seq<Entry>, profileId: Option<string>, name: string, topN: nat)
    requires topN >= 1 && |board| <= topN && Descending(board)
    ensures CalculateRanking(score, board, profileId, name, topN).isTopFive <==> CountAtLeast(board, score) < topN
  {
    if |board| == topN {
      if score > board[|board| - 1].score {
        CountShort(board, score, |board| - 1);
      } else {
        CountAll(board, score);
      }
    }
  }
}
