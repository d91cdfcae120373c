/**
 Stable ranking as `SkillIndex::search` of `crates/lc-a2a/src/scale.rs` needs it: the
 positions with a positive score, best first, equal scores in their original order.
 */
module Rankings {
  import opened Common

  function ScoreAt(scores: seq<real>, i: int): real {
    if 0 <= i < |scores| then scores[i] else 0.0
  }

  /** `i` ranks before `j`: a greater score, or the same score and an earlier position. */
  predicate Better(scores: seq<real>, i: int, j: int) {
    ScoreAt(scores, i) > ScoreAt(scores, j) || (ScoreAt(scores, i) == ScoreAt(scores, j) && i < j)
  }

  predicate Relevant(scores: seq<real>, i: int) {
    ScoreAt(scores, i) > 0.0
  }

  ghost predicate Ordered(scores: seq<real>, idx: seq<int>) {
    forall a, b :: 0 <= a < b < |idx| ==> Better(scores, idx[a], idx[b])
  }

  /** Exactly the relevant positions below `n`, strictly ordered. */
  ghost predicate IsRanking(scores: seq<real>, n: int, idx: seq<int>) {
    && (forall i :: i in idx <==> i < n && Relevant(scores, i))
    && Ordered(scores, idx)
  }

  function Insert(scores: seq<real>, idx: seq<int>, i: int): (r: seq<int>)
    ensures forall k :: k in r <==> k in idx || k == i
  {
    if idx == [] then [i]
    else if ScoreAt(scores, idx[0]) < ScoreAt(scores, i) then [i] + idx
    else [idx[0]] + Insert(scores, idx[1..], i)
  }

  /** The stable sort, one position after the other. */
  function Rank(scores: seq<real>, n: nat): (r: seq<int>)
    ensures forall k :: k in r <==> k < n && Relevant(scores, k)
  {
    if n == 0 then []
    else if Relevant(scores, n - 1) then Insert(scores, Rank(scores, n - 1), n - 1)
    else Rank(scores, n - 1)
  }

  lemma {:induction false} InsertKeepsOrder(scores: seq<real>, idx: seq<int>, i: int)
    requires Ordered(scores, idx) && forall k :: k in idx ==> k < i
    ensures Ordered(scores, Insert(scores, idx, i))
  {
    if idx != [] {
      assert idx[0] in idx;
      if ScoreAt(scores, idx[0]) < ScoreAt(scores, i) {
        forall b | 0 <= b < |idx|
          ensures Better(scores, i, idx[b])
        {
          assert b > 0 ==> Better(scores, idx[0], idx[b]);
        }
      } else {
        assert forall k :: k in idx[1..] ==> k in idx;
        InsertKeepsOrder(scores, idx[1..], i);
        var r := Insert(scores, idx[1..], i);
        forall b | 0 <= b < |r|
          ensures Better(scores, idx[0], r[b])
        {
          assert r[b] in r;
          if r[b] in idx[1..] {
            var k :| 0 <= k < |idx[1..]| && idx[1..][k] == r[b];
            assert Better(scores, idx[0], idx[k + 1]);
          }
        }
      }
    }
  }

  /** The sort delivers the ranking, and there is only one ranking to deliver. */
  lemma {:induction false} RankIsRanking(scores: seq<real>, n: nat)
    ensures IsRanking(scores, n, Rank(scores, n))
  {
    if n > 0 {
      RankIsRanking(scores, n - 1);
      if Relevant(scores, n - 1) {
        InsertKeepsOrder(scores, Rank(scores, n - 1), n - 1);
      }
    }
  }

  lemma RankingIsUnique(scores: seq<real>, n: int, x: seq<int>, y: seq<int>)
    requires IsRanking(scores, n, x) && IsRanking(scores, n, y)
    ensures x == y
  {
    SamePrefix(scores, n, x, y, 0);
  }

  lemma {:induction false} SamePrefix(scores: seq<real>, n: int, x: seq<int>, y: seq<int>, k: nat)
    requires IsRanking(scores, n, x) && IsRanking(scores, n, y)
    requires k <= |x| && k <= |y| && x[..k] == y[..k]
    ensures x == y
    decreases |x| - k
  {
    if k < |x| && k < |y| {
      NextIsSame(scores, n, x, y, k);
      assert x[..k + 1] == x[..k] + [x[k]] && y[..k + 1] == y[..k] + [y[k]];
      SamePrefix(scores, n, x, y, k + 1);
    } else {
      if k < |y| {
        NoMore(scores, n, x, y);
      }
      if k < |x| {
        NoMore(scores, n, y, x);
      }
      assert x[..k] == x && y[..k] == y;
    }
  }

  /** A ranking cannot be a proper prefix of another. */
  lemma NoMore(scores: seq<real>, n: int, x: seq<int>, y: seq<int>)
    requires IsRanking(scores, n, x) && IsRanking(scores, n, y) && |x| < |y|
    ensures x != y[..|x|]
  {
    var k := |x|;
    assert y[k] in y;
    assert y[k] in x;
    forall j | 0 <= j < k
      ensures y[..k][j] != y[k]
    {
      assert Better(scores, y[j], y[k]);
    }
  }

  lemma NextIsSame(scores: seq<real>, n: int, x: seq<int>, y: seq<int>, k: nat)
    requires IsRanking(scores, n, x) && IsRanking(scores, n, y)
    requires k < |x| && k < |y| && x[..k] == y[..k]
    ensures x[k] == y[k]
  {
    LaterInOther(scores, n, x, y, k);
    LaterInOther(scores, n, y, x, k);
  }

  lemma LaterInOther(scores: seq<real>, n: int, x: seq<int>, y: seq<int>, k: nat)
    requires IsRanking(scores, n, x) && IsRanking(scores, n, y)
    requires k < |x| && k < |y| && x[..k] == y[..k]
    ensures x[k] == y[k] || Better(scores, y[k], x[k])
  {
    assert x[k] in x;
    assert x[k] in y;
    var i :| 0 <= i < |y| && y[i] == x[k];
    forall m | 0 <= m < k
      ensures y[m] != x[k]
    {
      assert x[..k][m] == y[..k][m];
      assert Better(scores, x[m], x[k]);
    }
  }

  // ---------- First occurrences ----------

  function Dedupe(urls: seq<string>): (r: seq<string>)
    ensures forall u :: u in r <==> u in urls
  {
    if urls == [] then []
    else
      var front, last := urls[..|urls| - 1], urls[|urls| - 1];
      if last in Dedupe(front) then Dedupe(front) else Dedupe(front) + [last]
  }

  /** `u` is seen for the first time at `k`. */
  predicate FirstAt(urls: seq<string>, u: string, k: int) {
    0 <= k < |urls| && urls[k] == u && u !in urls[..k]
  }

  /** Duplicates are dropped and what is left is ordered by first appearance. */
  lemma {:induction false} DedupeOrder(urls: seq<string>)
    ensures Distinct(Dedupe(urls))
    ensures forall u :: u in urls ==> exists k :: FirstAt(urls, u, k)
    ensures forall a, b, k, l ::
              (0 <= a < b < |Dedupe(urls)| && FirstAt(urls, Dedupe(urls)[a], k) && FirstAt(urls, Dedupe(urls)[b], l))
              ==> k < l
  {
    if urls != [] {
      var n := |urls| - 1;
      var front, d := urls[..n], Dedupe(urls[..n]);
      DedupeOrder(front);
      forall u, k | k < n
        ensures FirstAt(urls, u, k) <==> FirstAt(front, u, k)
      {
        if 0 <= k {
          assert urls[..k] == front[..k];
        }
      }
      forall u | u in urls
        ensures exists k :: FirstAt(urls, u, k)
      {
        if u in front {
          var k :| FirstAt(front, u, k);
          assert FirstAt(urls, u, k);
        } else {
          assert FirstAt(urls, u, n);
        }
      }
      var d' := Dedupe(urls);
      forall a, b, k, l | 0 <= a < b < |d'| && FirstAt(urls, d'[a], k) && FirstAt(urls, d'[b], l)
        ensures k < l
      {
        assert d'[a] == d[a];
        assert d[a] in front;
        FirstIsBefore(urls, d[a], k, n);
        if b < |d| {
          assert d[b] in front;
          FirstIsBefore(urls, d[b], l, n);
          assert FirstAt(front, d[a], k) && FirstAt(front, d[b], l);
        } else {
          assert d'[b] == urls[n] && urls[n] !in front;
          forall m | 0 <= m < n
            ensures urls[m] != urls[n]
          {
            assert front[m] in front;
          }
        }
      }
    }
  }

  lemma FirstIsBefore(urls: seq<string>, u: string, k: int, n: nat)
    requires n <= |urls| && u in urls[..n] && FirstAt(urls, u, k)
    ensures k < n
  {
  }
}
