/** The ranking step of retrieval (game/python/rag_store.py:70-83): entries
    with a positive score, sorted by descending score with Python's stable
    `list.sort(reverse=True)`, so equal scores keep knowledge-base order. */
module Ranking {

  /** A `(score, text)` pair of the source, tagged with the position of its
      entry in the knowledge base so that stability can be stated. */
  datatype Scored = Scored(score: nat, text: string, pos: nat)

  /** `x` must come before `y` in a stable descending ranking. */
  predicate Before(x: Scored, y: Scored) {
    x.score > y.score || (x.score == y.score && x.pos < y.pos)
  }

  predicate Ranked(s: seq<Scored>) {
    forall a, b :: 0 <= a < b < |s| ==> Before(s[a], s[b])
  }

  /** Knowledge-base order: the order in which the scoring loop emits entries. */
  predicate PosIncreasing(s: seq<Scored>) {
    forall a, b :: 0 <= a < b < |s| ==> s[a].pos < s[b].pos
  }

  /** Every prefix of a ranking is a ranking. */
  lemma RankedPrefix(s: seq<Scored>, n: nat)
    requires Ranked(s) && n <= |s|
    ensures Ranked(s[..n])
  {
    assert forall a :: 0 <= a < n ==> s[..n][a] == s[a];
  }

  /** Inserts `x` before the first element that does not outscore it. */
  function Insert(x: Scored, s: seq<Scored>): (r: seq<Scored>)
    ensures |r| == |s| + 1
    ensures multiset(r) == multiset(s) + multiset{x}
  {
    if |s| == 0 then [x]
    else if s[0].score <= x.score then [x] + s
    else
      assert s == [s[0]] + s[1..];
      [s[0]] + Insert(x, s[1..])
  }

  lemma InsertMembers(x: Scored, s: seq<Scored>)
    ensures forall y :: y in Insert(x, s) ==> y == x || y in s
  {
    forall y | y in Insert(x, s) ensures y == x || y in s {
      assert y in multiset(Insert(x, s));
    }
  }

  /** An element that belongs before every ranked element can lead. */
  lemma PrependRanked(x: Scored, s: seq<Scored>)
    requires Ranked(s)
    requires forall k :: 0 <= k < |s| ==> Before(x, s[k])
    ensures Ranked([x] + s)
  {
    var r := [x] + s;
    forall a, b | 0 <= a < b < |r| ensures Before(r[a], r[b]) {
      assert r[b] == s[b - 1];
      if a > 0 { assert r[a] == s[a - 1]; }
    }
  }

  /** Inserting an element whose entry comes earlier in the knowledge base
      than every ranked element keeps the ranking. */
  lemma {:induction false} InsertRanked(x: Scored, s: seq<Scored>)
    requires Ranked(s)
    requires forall k :: 0 <= k < |s| ==> x.pos < s[k].pos
    ensures Ranked(Insert(x, s))
  {
    if |s| == 0 {
    } else if s[0].score <= x.score {
      forall k | 0 <= k < |s| ensures Before(x, s[k]) {
        if k > 0 { assert Before(s[0], s[k]); }
      }
      PrependRanked(x, s);
    } else {
      var t := Insert(x, s[1..]);
      InsertRanked(x, s[1..]);
      InsertMembers(x, s[1..]);
      forall k | 0 <= k < |t| ensures Before(s[0], t[k]) {
        assert t[k] in t;
        if t[k] != x {
          var j :| 0 <= j < |s[1..]| && s[1..][j] == t[k];
          assert Before(s[0], s[j + 1]);
        }
      }
      PrependRanked(s[0], t);
    }
  }

  /** Stable sort by descending score (insertion sort). */
  function SortByScore(s: seq<Scored>): (r: seq<Scored>)
    ensures |r| == |s|
    ensures multiset(r) == multiset(s)
  {
    if |s| == 0 then []
    else
      assert s == [s[0]] + s[1..];
      Insert(s[0], SortByScore(s[1..]))
  }

  /** On entries listed in knowledge-base order, the sort yields the stable
      descending ranking. */
  lemma {:induction false} SortRanked(s: seq<Scored>)
    requires PosIncreasing(s)
    ensures Ranked(SortByScore(s))
  {
    if |s| > 0 {
      var t := SortByScore(s[1..]);
      SortRanked(s[1..]);
      forall k | 0 <= k < |t| ensures s[0].pos < t[k].pos {
        assert t[k] in multiset(t);
        assert t[k] in s[1..];
        var j :| 0 <= j < |s[1..]| && s[1..][j] == t[k];
        assert s[0].pos < s[j + 1].pos;
      }
      InsertRanked(s[0], t);
    }
  }
}
