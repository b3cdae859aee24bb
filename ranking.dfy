/** The `sort((a, b) => b.score - a.score)` step: a stable sort on descending
    score, modelled as an insertion sort. Stability is stated per score
    value, and a uniqueness lemma shows that any stable sort on descending
    score gives the same sequence. */
module Ranking {
  import opened Knowledge

  /** Scores never increase along `xs`. */
  predicate NonIncreasing(xs: seq<DocumentChunk>) {
    forall i, j :: 0 <= i < j < |xs| ==> xs[i].score >= xs[j].score
  }

  /** The chunks of `xs` whose score is `v`, in their order in `xs`. */
  function WithScore(xs: seq<DocumentChunk>, v: int): seq<DocumentChunk> {
    if |xs| == 0 then []
    else (if xs[0].score == v then [xs[0]] else []) + WithScore(xs[1..], v)
  }

  lemma {:induction false} WithScoreAppend(a: seq<DocumentChunk>, b: seq<DocumentChunk>, v: int)
    ensures WithScore(a + b, v) == WithScore(a, v) + WithScore(b, v)
  {
    if |a| == 0 {
      assert a + b == b;
    } else {
      var head := if a[0].score == v then [a[0]] else [];
      assert (a + b)[0] == a[0];
      assert (a + b)[1..] == a[1..] + b;
      assert WithScore(a + b, v) == head + WithScore(a[1..] + b, v);
      WithScoreAppend(a[1..], b, v);
      assert WithScore(a, v) == head + WithScore(a[1..], v);
    }
  }

  /** Every chunk picked out by `WithScore` has score `v` and comes from `xs`;
      when something is picked out, `xs` has a chunk of score `v`. */
  lemma {:induction false} WithScoreMembers(xs: seq<DocumentChunk>, v: int)
    ensures forall e :: e in WithScore(xs, v) ==> e in xs && e.score == v
    ensures WithScore(xs, v) != [] ==> exists k :: 0 <= k < |xs| && xs[k].score == v
  {
    if |xs| > 0 {
      WithScoreMembers(xs[1..], v);
      if xs[0].score != v && WithScore(xs, v) != [] {
        var k :| 0 <= k < |xs[1..]| && xs[1..][k].score == v;
        assert xs[k + 1].score == v;
      }
    }
  }

  /** Places `x` in front of the first chunk that does not outscore it, so it
      lands after every chunk of higher score and before every chunk of
      equal or lower score. */
  function Insert(x: DocumentChunk, ys: seq<DocumentChunk>): (r: seq<DocumentChunk>)
    ensures |r| == |ys| + 1
  {
    if |ys| == 0 || ys[0].score <= x.score then [x] + ys
    else [ys[0]] + Insert(x, ys[1..])
  }

  /** Insertion sort on descending score; an earlier chunk is inserted in
      front of later chunks of equal score, which makes the sort stable. */
  function SortByScore(xs: seq<DocumentChunk>): (r: seq<DocumentChunk>)
    ensures |r| == |xs|
  {
    if |xs| == 0 then [] else Insert(xs[0], SortByScore(xs[1..]))
  }

  lemma {:induction false} InsertPermutes(x: DocumentChunk, ys: seq<DocumentChunk>)
    ensures multiset(Insert(x, ys)) == multiset([x] + ys)
  {
    if |ys| > 0 && ys[0].score > x.score {
      InsertPermutes(x, ys[1..]);
      assert ys == [ys[0]] + ys[1..];
    }
  }

  /** Insertion adds `x` and nothing else. */
  lemma {:induction false} InsertMembers(x: DocumentChunk, ys: seq<DocumentChunk>)
    ensures forall e :: e in Insert(x, ys) <==> e == x || e in ys
  {
    if |ys| > 0 && ys[0].score > x.score {
      InsertMembers(x, ys[1..]);
      assert ys == [ys[0]] + ys[1..];
    }
  }

  /** Sorting neither adds nor drops a chunk. */
  lemma {:induction false} SortByScoreMembers(xs: seq<DocumentChunk>)
    ensures forall e :: e in SortByScore(xs) <==> e in xs
  {
    if |xs| > 0 {
      SortByScoreMembers(xs[1..]);
      InsertMembers(xs[0], SortByScore(xs[1..]));
      assert xs == [xs[0]] + xs[1..];
    }
  }

  lemma ConsNonIncreasing(h: DocumentChunk, t: seq<DocumentChunk>)
    requires NonIncreasing(t)
    requires |t| > 0 ==> h.score >= t[0].score
    ensures NonIncreasing([h] + t)
  {
    var r := [h] + t;
    forall i, j | 0 <= i < j < |r|
      ensures r[i].score >= r[j].score
    {
      assert r[j] == t[j - 1];
      if i > 0 {
        assert r[i] == t[i - 1];
      }
    }
  }

  lemma {:induction false} InsertNonIncreasing(x: DocumentChunk, ys: seq<DocumentChunk>)
    requires NonIncreasing(ys)
    ensures NonIncreasing(Insert(x, ys))
    ensures Insert(x, ys)[0] == x || (|ys| > 0 && Insert(x, ys)[0] == ys[0])
  {
    if |ys| == 0 || ys[0].score <= x.score {
      ConsNonIncreasing(x, ys);
    } else {
      var tail := Insert(x, ys[1..]);
      InsertNonIncreasing(x, ys[1..]);
      assert NonIncreasing(ys[1..]) by {
        forall i, j | 0 <= i < j < |ys[1..]|
          ensures ys[1..][i].score >= ys[1..][j].score
        {
          assert ys[1..][i] == ys[i + 1] && ys[1..][j] == ys[j + 1];
        }
      }
      assert tail[0] == x || tail[0] == ys[1];
      ConsNonIncreasing(ys[0], tail);
    }
  }

  /** Insertion keeps the chunks of each score in input order, with `x`
      first among its own score. */
  lemma {:induction false} InsertWithScore(x: DocumentChunk, ys: seq<DocumentChunk>, v: int)
    ensures WithScore(Insert(x, ys), v) == WithScore([x] + ys, v)
  {
    if |ys| > 0 && ys[0].score > x.score {
      InsertWithScore(x, ys[1..], v);
      assert ([ys[0]] + Insert(x, ys[1..]))[1..] == Insert(x, ys[1..]);
      assert ([x] + ys)[1..] == ys;
      assert ([x] + ys[1..])[1..] == ys[1..];
    }
  }

  /** The sort orders by descending score, is a permutation, and keeps the
      chunks of every single score in their input order (stability). */
  lemma {:induction false} SortByScoreCorrect(xs: seq<DocumentChunk>)
    ensures NonIncreasing(SortByScore(xs))
    ensures multiset(SortByScore(xs)) == multiset(xs)
    ensures forall v :: WithScore(SortByScore(xs), v) == WithScore(xs, v)
  {
    if |xs| > 0 {
      SortByScoreCorrect(xs[1..]);
      var sorted := SortByScore(xs[1..]);
      InsertNonIncreasing(xs[0], sorted);
      InsertPermutes(xs[0], sorted);
      assert xs == [xs[0]] + xs[1..];
      forall v
        ensures WithScore(SortByScore(xs), v) == WithScore(xs, v)
      {
        InsertWithScore(xs[0], sorted, v);
        assert ([xs[0]] + sorted)[1..] == sorted;
      }
    }
  }

  /** A sequence that is ordered by descending score is pinned down by its
      per-score subsequences: two such sequences that agree on every score's
      subsequence are equal. So every stable sort on descending score
      returns what `SortByScore` returns. */
  lemma {:induction false} StableSortUnique(a: seq<DocumentChunk>, b: seq<DocumentChunk>)
    requires NonIncreasing(a) && NonIncreasing(b)
    requires forall v :: WithScore(a, v) == WithScore(b, v)
    ensures a == b
    decreases |a|
  {
    if |a| > 0 {
      assert WithScore(a, a[0].score) != [];
    }
    if |b| > 0 {
      assert WithScore(b, b[0].score) != [];
    }
    if |a| > 0 && |b| > 0 {
      var m, n := a[0].score, b[0].score;
      assert WithScore(a, m) != [];
      WithScoreMembers(b, m);
      assert WithScore(b, n) != [];
      WithScoreMembers(a, n);
      assert m == n;
      assert WithScore(a, m)[0] == a[0] && WithScore(b, m)[0] == b[0];
      assert WithScore(a, m) == WithScore(b, m);
      assert a[0] == b[0];
      forall v
        ensures WithScore(a[1..], v) == WithScore(b[1..], v)
      {
        var head := if a[0].score == v then [a[0]] else [];
        assert WithScore(a, v) == head + WithScore(a[1..], v);
        assert WithScore(b, v) == head + WithScore(b[1..], v);
        assert WithScore(a, v) == WithScore(b, v);
        assert (head + WithScore(a[1..], v))[|head|..] == WithScore(a[1..], v);
        assert (head + WithScore(b[1..], v))[|head|..] == WithScore(b[1..], v);
      }
      StableSortUnique(a[1..], b[1..]);
      assert a == [a[0]] + a[1..] && b == [b[0]] + b[1..];
    }
  }

  /** Any sequence that is ordered by descending score and has the same
      per-score subsequences as `xs` is `SortByScore(xs)`. */
  lemma StableSortIsSortByScore(xs: seq<DocumentChunk>, ys: seq<DocumentChunk>)
    requires NonIncreasing(ys)
    requires forall v :: WithScore(ys, v) == WithScore(xs, v)
    ensures ys == SortByScore(xs)
  {
    SortByScoreCorrect(xs);
    StableSortUnique(ys, SortByScore(xs));
  }

  lemma InsertIds(x: DocumentChunk, ys: seq<DocumentChunk>)
    requires DistinctIds(ys)
    requires forall k :: 0 <= k < |ys| ==> ys[k].id != x.id
    ensures DistinctIds(Insert(x, ys))
  {
    var r := Insert(x, ys);
    forall i, j | 0 <= i < j < |r|
      ensures r[i].id != r[j].id
    {
      SortedIdsApart(x, ys, i, j);
    }
  }

  lemma {:induction false} SortedIdsApart(x: DocumentChunk, ys: seq<DocumentChunk>, i: nat, j: nat)
    requires DistinctIds(ys)
    requires forall k :: 0 <= k < |ys| ==> ys[k].id != x.id
    requires i < j < |Insert(x, ys)|
    ensures Insert(x, ys)[i].id != Insert(x, ys)[j].id
  {
    var r := Insert(x, ys);
    if |ys| == 0 || ys[0].score <= x.score {
      if i > 0 {
        assert r[i] == ys[i - 1] && r[j] == ys[j - 1];
      } else {
        assert r[j] == ys[j - 1];
      }
    } else {
      var tail := Insert(x, ys[1..]);
      assert r == [ys[0]] + tail;
      if i > 0 {
        SortedIdsApart(x, ys[1..], i - 1, j - 1);
      } else {
        var e := tail[j - 1];
        InsertMembers(x, ys[1..]);
        assert e == x || e in ys[1..];
      }
    }
  }

  /** Sorting never puts two chunks with one id into the output unless the
      input had them. */
  lemma {:induction false} SortByScoreIds(xs: seq<DocumentChunk>)
    requires DistinctIds(xs)
    ensures DistinctIds(SortByScore(xs))
  {
    if |xs| > 0 {
      SortByScoreIds(xs[1..]);
      var sorted := SortByScore(xs[1..]);
      forall k | 0 <= k < |sorted|
        ensures sorted[k].id != xs[0].id
      {
        SortByScoreMembers(xs[1..]);
        assert sorted[k] in xs[1..];
        var m :| 0 <= m < |xs[1..]| && xs[1..][m] == sorted[k];
        assert xs[m + 1] == sorted[k];
      }
      InsertIds(xs[0], sorted);
    }
  }
}
