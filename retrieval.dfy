/** The simulated vector search `retrieveDocuments`: tokenise the query,
    score every chunk of the corpus by keyword overlap, cap, keep the
    relevant chunks, stable-sort them by descending score, keep the first
    three, and fall back to a fixed chunk when nothing is relevant. */
module Retrieval {
  import opened Text
  import opened Knowledge
  import opened Ranking

  /** Scores are integer hundredths: 0.2 per matching term, a cap of 0.99,
      and a relevance floor of 0.1 that a kept chunk must exceed. */
  const Increment: int := 20
  const Cap: int := 99
  const Floor: int := 10
  /** At most this many chunks are returned. */
  const TopK: nat := 3
  /** The fallback is the knowledge base's third chunk (index 2). */
  const FallbackIndex: nat := 2

  /** `query.toLowerCase().split(' ')`: at least one term, no term holds a
      space, and joining the terms with single spaces gives back the
      lower-cased query. */
  function Tokenize(query: string): (terms: seq<string>)
    ensures |terms| >= 1
    ensures forall k :: 0 <= k < |terms| ==> ' ' !in terms[k]
    ensures Join(terms, " ") == Lower(query)
  {
    SplitJoin(Lower(query), ' ');
    Split(Lower(query), ' ')
  }

  /** A term matches a chunk when it occurs in the lower-cased content or
      the lower-cased source label, at some offset; the empty term matches
      every chunk. */
  predicate Matches(term: string, doc: DocumentChunk): (b: bool)
    ensures b <==> (exists i: nat :: OccursAt(Lower(doc.content), term, i)) ||
                   (exists i: nat :: OccursAt(Lower(doc.source), term, i))
    ensures term == "" ==> b
  {
    ContainsIffOccurs(Lower(doc.content), term);
    ContainsIffOccurs(Lower(doc.source), term);
    Contains(Lower(doc.content), term) || Contains(Lower(doc.source), term)
  }

  /** How many terms, counted with repetition, match `doc`. */
  function MatchCount(terms: seq<string>, doc: DocumentChunk): (k: nat)
    ensures k <= |terms|
  {
    if |terms| == 0 then 0
    else (if Matches(terms[0], doc) then 1 else 0) + MatchCount(terms[1..], doc)
  }

  /** A repeated term is counted again: the count over a concatenation is
      the sum of the counts. */
  lemma {:induction false} MatchCountAppend(ts: seq<string>, us: seq<string>, doc: DocumentChunk)
    ensures MatchCount(ts + us, doc) == MatchCount(ts, doc) + MatchCount(us, doc)
  {
    if |ts| == 0 {
      assert ts + us == us;
    } else {
      assert (ts + us)[0] == ts[0];
      assert (ts + us)[1..] == ts[1..] + us;
      MatchCountAppend(ts[1..], us, doc);
    }
  }

  /** `Math.min(0.2 * k, 0.99)` for k matching terms, in hundredths. */
  function Score(terms: seq<string>, doc: DocumentChunk): (s: int)
    ensures 0 <= s <= Cap
    ensures MatchCount(terms, doc) <= 4 ==> s == Increment * MatchCount(terms, doc)
    ensures MatchCount(terms, doc) >= 5 ==> s == Cap
    ensures s > Floor <==> MatchCount(terms, doc) > 0
    ensures s <= Increment * |terms|
  {
    var raw := Increment * MatchCount(terms, doc);
    if raw < Cap then raw else Cap
  }

  /** The per-chunk loop of `retrieveDocuments`: start at zero, add the
      increment for every matching term, then cap. */
  method ScoreChunk(terms: seq<string>, doc: DocumentChunk) returns (score: int)
    ensures score == Score(terms, doc)
  {
    var raw := 0;
    var i := 0;
    while i < |terms|
      invariant 0 <= i <= |terms|
      invariant raw == Increment * MatchCount(terms[..i], doc)
    {
      if Contains(Lower(doc.content), terms[i]) || Contains(Lower(doc.source), terms[i]) {
        raw := raw + Increment;
      }
      MatchCountAppend(terms[..i], [terms[i]], doc);
      assert terms[..i + 1] == terms[..i] + [terms[i]];
      i := i + 1;
    }
    assert terms[..i] == terms;
    score := if raw < Cap then raw else Cap;
  }

  /** `{ ...doc, score }`: the chunk with its score replaced. Id, source
      and content are kept, and the new score passes the floor exactly when
      some term matched. */
  function Rescore(terms: seq<string>, doc: DocumentChunk): (r: DocumentChunk)
    ensures r.id == doc.id && r.source == doc.source && r.content == doc.content
    ensures r.score == Score(terms, doc)
    ensures 0 <= r.score <= Cap
    ensures r.score > Floor <==> MatchCount(terms, doc) > 0
  {
    doc.(score := Score(terms, doc))
  }

  /** Every corpus chunk, in corpus order, with its score for `terms`. */
  function ScoreAll(terms: seq<string>, corpus: seq<DocumentChunk>): (r: seq<DocumentChunk>)
    ensures |r| == |corpus|
    ensures forall i :: 0 <= i < |r| ==> r[i] == Rescore(terms, corpus[i])
    ensures forall i :: 0 <= i < |r| ==>
      r[i].id == corpus[i].id && r[i].source == corpus[i].source && r[i].content == corpus[i].content &&
      (r[i].score > Floor <==> MatchCount(terms, corpus[i]) > 0)
  {
    seq(|corpus|, i requires 0 <= i < |corpus| => Rescore(terms, corpus[i]))
  }

  /** `filter(doc => doc.score > 0.1)`. */
  function Relevant(xs: seq<DocumentChunk>): (r: seq<DocumentChunk>)
    ensures forall e :: e in r ==> e in xs && e.score > Floor
  {
    if |xs| == 0 then []
    else (if xs[0].score > Floor then [xs[0]] else []) + Relevant(xs[1..])
  }

  /** `slice(0, n)`: the first `n` chunks, or all of them when there are
      fewer. */
  function Take(xs: seq<DocumentChunk>, n: nat): (r: seq<DocumentChunk>)
    ensures r <= xs
    ensures |r| == if |xs| <= n then |xs| else n
  {
    if |xs| <= n then xs else xs[..n]
  }

  /** `filter`, `sort` and `slice(0, 3)` applied to scored chunks: at most
      three chunks, each a relevant chunk of `xs`, in non-increasing score
      order. */
  function TopRelevant(xs: seq<DocumentChunk>): (r: seq<DocumentChunk>)
    ensures |r| <= TopK
    ensures forall e :: e in r ==> e in xs && e.score > Floor
    ensures NonIncreasing(r)
  {
    var sorted := SortByScore(Relevant(xs));
    SortByScoreMembers(Relevant(xs));
    SortByScoreCorrect(Relevant(xs));
    var r := Take(sorted, TopK);
    assert forall e :: e in r ==> e in sorted;
    r
  }

  /** The filtered, sorted and truncated list, before the fallback rule:
      at most three rescored corpus chunks, each above the floor. */
  function Ranked(terms: seq<string>, corpus: seq<DocumentChunk>): (r: seq<DocumentChunk>)
    ensures |r| <= TopK
    ensures forall i :: 0 <= i < |r| ==>
      r[i].score > Floor && exists j :: 0 <= j < |corpus| && r[i] == Rescore(terms, corpus[j])
  {
    var s := ScoreAll(terms, corpus);
    var r := TopRelevant(s);
    assert forall i :: 0 <= i < |r| ==> r[i] in s;
    assert forall j :: 0 <= j < |s| ==> s[j] == Rescore(terms, corpus[j]);
    r
  }

  /** `retrieveDocuments` over an explicit corpus and fallback chunk. */
  function Retrieve(query: string, corpus: seq<DocumentChunk>, fallback: DocumentChunk): (r: seq<DocumentChunk>)
    ensures 1 <= |r| <= TopK
  {
    var top := Ranked(Tokenize(query), corpus);
    if |top| == 0 then [fallback] else top
  }

  /** `retrieveDocuments` itself: the built-in knowledge base, with its third
      chunk as the fallback. */
  function RetrieveDocuments(query: string): (r: seq<DocumentChunk>)
    ensures 1 <= |r| <= TopK
  {
    Retrieve(query, KnowledgeBase, KnowledgeBase[FallbackIndex])
  }

  /** Some chunk of the corpus matches at least one term. */
  predicate AnyMatch(terms: seq<string>, corpus: seq<DocumentChunk>) {
    exists j :: 0 <= j < |corpus| && MatchCount(terms, corpus[j]) > 0
  }

  // ---------------------------------------------------------------------
  // Facts about the pipeline stages

  lemma {:induction false} RelevantEmpty(xs: seq<DocumentChunk>)
    ensures Relevant(xs) == [] <==> forall k :: 0 <= k < |xs| ==> xs[k].score <= Floor
  {
    if |xs| > 0 {
      RelevantEmpty(xs[1..]);
      if xs[0].score <= Floor {
        forall k | 0 < k < |xs| && Relevant(xs) == []
          ensures xs[k].score <= Floor
        {
          assert xs[k] == xs[1..][k - 1];
        }
      }
    }
  }

  /** Above the floor, filtering removes nothing of a given score. */
  lemma {:induction false} RelevantWithScore(xs: seq<DocumentChunk>, v: int)
    requires v > Floor
    ensures WithScore(Relevant(xs), v) == WithScore(xs, v)
  {
    if |xs| > 0 {
      RelevantWithScore(xs[1..], v);
      var head := if xs[0].score > Floor then [xs[0]] else [];
      WithScoreAppend(head, Relevant(xs[1..]), v);
    }
  }

  lemma {:induction false} RelevantIds(xs: seq<DocumentChunk>)
    requires DistinctIds(xs)
    ensures DistinctIds(Relevant(xs))
  {
    if |xs| > 0 {
      RelevantIds(xs[1..]);
      var rest := Relevant(xs[1..]);
      var r := Relevant(xs);
      if xs[0].score > Floor {
        assert r == [xs[0]] + rest;
        forall k | 0 <= k < |rest|
          ensures rest[k].id != xs[0].id
        {
          assert rest[k] in xs[1..];
        }
        forall i, j | 0 <= i < j < |r|
          ensures r[i].id != r[j].id
        {
          assert r[j] == rest[j - 1];
          if i > 0 {
            assert r[i] == rest[i - 1];
          }
        }
      } else {
        assert r == rest;
      }
    }
  }

  /** Truncation keeps a prefix of every score's subsequence. */
  lemma TakeWithScore(xs: seq<DocumentChunk>, n: nat, v: int)
    ensures WithScore(Take(xs, n), v) <= WithScore(xs, v)
    ensures |xs| > n ==> WithScore(xs, v) == WithScore(xs[..n], v) + WithScore(xs[n..], v)
  {
    if |xs| > n {
      assert xs == xs[..n] + xs[n..];
      WithScoreAppend(xs[..n], xs[n..], v);
    }
  }

  /** A sequence already ordered by descending score is left as it is. */
  lemma SortKeepsSorted(xs: seq<DocumentChunk>)
    requires NonIncreasing(xs)
    ensures SortByScore(xs) == xs
  {
    StableSortIsSortByScore(xs, xs);
  }

  // ---------------------------------------------------------------------
  // Properties of retrieveDocuments

  /** The stages after scoring, on any scored sequence: the kept chunks are
      relevant members of the input, as many as there are relevant ones up
      to three, in non-increasing score order. */
  lemma TopRelevantMembers(xs: seq<DocumentChunk>)
    ensures var t := TopRelevant(xs);
      forall i :: 0 <= i < |t| ==> t[i] in xs && t[i].score > Floor
    ensures var n := |Relevant(xs)|;
      |TopRelevant(xs)| == if n < TopK then n else TopK
    ensures NonIncreasing(TopRelevant(xs))
  {
    var rel := Relevant(xs);
    var sorted := SortByScore(rel);
    SortByScoreCorrect(rel);
    SortByScoreMembers(rel);
    var t := TopRelevant(xs);
    forall i | 0 <= i < |t|
      ensures t[i] in xs && t[i].score > Floor
    {
      assert t[i] == sorted[i];
      assert t[i] in rel;
    }
  }

  lemma TopRelevantTies(xs: seq<DocumentChunk>, v: int)
    requires v > Floor
    ensures WithScore(TopRelevant(xs), v) <= WithScore(xs, v)
  {
    var rel := Relevant(xs);
    SortByScoreCorrect(rel);
    TakeWithScore(SortByScore(rel), TopK, v);
    RelevantWithScore(xs, v);
  }

  /** Cutting a descending list after `n` chunks drops a chunk of score `v`
      only when the list is longer than `n` and its first `n` chunks all
      score at least `v`. */
  lemma TakeDropsOnlyLower(sorted: seq<DocumentChunk>, n: nat, v: int)
    requires NonIncreasing(sorted)
    requires |WithScore(Take(sorted, n), v)| < |WithScore(sorted, v)|
    ensures |sorted| > n
    ensures forall i :: 0 <= i < n ==> sorted[i].score >= v
  {
    TakeWithScore(sorted, n, v);
    assert WithScore(sorted[n..], v) != [];
    WithScoreMembers(sorted[n..], v);
    var k :| 0 <= k < |sorted[n..]| && sorted[n..][k].score == v;
    assert sorted[n + k].score == v;
  }

  lemma TopRelevantComplete(xs: seq<DocumentChunk>, v: int)
    requires v > Floor
    requires |WithScore(TopRelevant(xs), v)| < |WithScore(xs, v)|
    ensures var t := TopRelevant(xs);
      |t| == TopK && forall i :: 0 <= i < |t| ==> t[i].score >= v
  {
    var rel := Relevant(xs);
    var sorted := SortByScore(rel);
    SortByScoreCorrect(rel);
    RelevantWithScore(xs, v);
    assert TopRelevant(xs) == Take(sorted, TopK);
    TakeDropsOnlyLower(sorted, TopK, v);
    var t := TopRelevant(xs);
    forall i | 0 <= i < |t|
      ensures t[i].score >= v
    {
      assert t[i] == sorted[i];
    }
  }

  /** A chunk that is first, relevant and not outscored by any other chunk
      comes first. */
  lemma TopRelevantFirst(xs: seq<DocumentChunk>)
    requires |xs| > 0 && xs[0].score > Floor
    requires forall k :: 0 <= k < |xs| ==> xs[k].score <= xs[0].score
    ensures |TopRelevant(xs)| > 0 && TopRelevant(xs)[0] == xs[0]
  {
    var rel := Relevant(xs);
    var sorted := SortByScore(rel);
    var m := xs[0].score;
    SortByScoreCorrect(rel);
    SortByScoreMembers(rel);
    assert rel[0] == xs[0];
    assert xs[0] in sorted;
    var p :| 0 <= p < |sorted| && sorted[p] == xs[0];
    assert sorted[0].score >= m;
    assert sorted[0] in rel;
    assert sorted[0] in xs;
    assert sorted[0].score == m;
    RelevantWithScore(xs, m);
    assert WithScore(sorted, m)[0] == sorted[0];
    assert WithScore(xs, m)[0] == xs[0];
  }

  /** The relevant chunks are exactly the chunks some term matches. */
  lemma RelevantIffMatch(terms: seq<string>, corpus: seq<DocumentChunk>)
    ensures Relevant(ScoreAll(terms, corpus)) == [] <==> !AnyMatch(terms, corpus)
  {
    var s := ScoreAll(terms, corpus);
    RelevantEmpty(s);
    if AnyMatch(terms, corpus) {
      var j :| 0 <= j < |corpus| && MatchCount(terms, corpus[j]) > 0;
      assert s[j].score > Floor;
    }
  }

  /** When no term matches any chunk, the result is the fallback chunk
      alone, with its stored score. */
  lemma RetrieveFallback(query: string, corpus: seq<DocumentChunk>, fallback: DocumentChunk)
    ensures !AnyMatch(Tokenize(query), corpus) <==> Ranked(Tokenize(query), corpus) == []
    ensures !AnyMatch(Tokenize(query), corpus) ==> Retrieve(query, corpus, fallback) == [fallback]
  {
    var s := ScoreAll(Tokenize(query), corpus);
    RelevantIffMatch(Tokenize(query), corpus);
    TopRelevantMembers(s);
  }

  /** Unless the fallback fired, every returned chunk is a corpus chunk that
      some term matched, with its id, source and content unchanged and its
      score recomputed (so above the floor), and as many chunks are returned
      as there are matching chunks, up to three. */
  lemma RetrieveRelevant(query: string, corpus: seq<DocumentChunk>, fallback: DocumentChunk)
    requires AnyMatch(Tokenize(query), corpus)
    ensures var r := Retrieve(query, corpus, fallback);
      forall i :: 0 <= i < |r| ==>
        r[i].score > Floor &&
        exists j :: 0 <= j < |corpus| && MatchCount(Tokenize(query), corpus[j]) > 0 &&
          r[i] == Rescore(Tokenize(query), corpus[j])
    ensures var n := |Relevant(ScoreAll(Tokenize(query), corpus))|;
      |Retrieve(query, corpus, fallback)| == if n < TopK then n else TopK
  {
    var terms := Tokenize(query);
    var s := ScoreAll(terms, corpus);
    RelevantIffMatch(terms, corpus);
    TopRelevantMembers(s);
    var t := Ranked(terms, corpus);
    forall i | 0 <= i < |t|
      ensures exists j :: 0 <= j < |corpus| && MatchCount(terms, corpus[j]) > 0 &&
                t[i] == Rescore(terms, corpus[j])
    {
      var j :| 0 <= j < |corpus| && t[i] == Rescore(terms, corpus[j]);
      assert MatchCount(terms, corpus[j]) > 0;
    }
  }

  /** The result is ordered by non-increasing score. */
  lemma RetrieveOrdered(query: string, corpus: seq<DocumentChunk>, fallback: DocumentChunk)
    ensures NonIncreasing(Retrieve(query, corpus, fallback))
  {
    TopRelevantMembers(ScoreAll(Tokenize(query), corpus));
  }

  /** Ties keep corpus order, and no chunk jumps ahead of an earlier one of
      the same score: for every score above the floor, the returned chunks
      of that score are the first ones of that score in the scored corpus. */
  lemma RetrieveTiesInCorpusOrder(query: string, corpus: seq<DocumentChunk>, fallback: DocumentChunk, v: int)
    requires AnyMatch(Tokenize(query), corpus)
    requires v > Floor
    ensures WithScore(Retrieve(query, corpus, fallback), v) <= WithScore(ScoreAll(Tokenize(query), corpus), v)
  {
    var s := ScoreAll(Tokenize(query), corpus);
    RelevantIffMatch(Tokenize(query), corpus);
    TopRelevantMembers(s);
    TopRelevantTies(s, v);
  }

  /** A matching chunk left out is outranked: if fewer chunks of score `v`
      are returned than the corpus has, three chunks were returned, all
      scoring at least `v` (and those scoring exactly `v` come earlier in
      the corpus, by RetrieveTiesInCorpusOrder). */
  lemma RetrieveComplete(query: string, corpus: seq<DocumentChunk>, fallback: DocumentChunk, v: int)
    requires AnyMatch(Tokenize(query), corpus)
    requires v > Floor
    requires |WithScore(Retrieve(query, corpus, fallback), v)| < |WithScore(ScoreAll(Tokenize(query), corpus), v)|
    ensures var r := Retrieve(query, corpus, fallback);
      |r| == TopK && forall i :: 0 <= i < |r| ==> r[i].score >= v
  {
    var s := ScoreAll(Tokenize(query), corpus);
    RelevantIffMatch(Tokenize(query), corpus);
    TopRelevantMembers(s);
    TopRelevantComplete(s, v);
  }

  /** Distinct ids in the corpus give distinct ids in the result. */
  lemma RetrieveDistinctIds(query: string, corpus: seq<DocumentChunk>, fallback: DocumentChunk)
    requires DistinctIds(corpus)
    ensures DistinctIds(Retrieve(query, corpus, fallback))
  {
    var s := ScoreAll(Tokenize(query), corpus);
    assert DistinctIds(s) by {
      forall i, j | 0 <= i < j < |s|
        ensures s[i].id != s[j].id
      {
        assert s[i].id == corpus[i].id && s[j].id == corpus[j].id;
      }
    }
    RelevantIds(s);
    SortByScoreIds(Relevant(s));
    assert DistinctIds(TopRelevant(s));
  }

  /** Every returned id is a corpus id or the fallback's id. */
  lemma RetrieveIdsFromCorpus(query: string, corpus: seq<DocumentChunk>, fallback: DocumentChunk)
    ensures var r := Retrieve(query, corpus, fallback);
      forall i :: 0 <= i < |r| ==>
        r[i].id == fallback.id || exists j :: 0 <= j < |corpus| && r[i].id == corpus[j].id
  {
    var t := Ranked(Tokenize(query), corpus);
    forall i | 0 <= i < |t|
      ensures exists j :: 0 <= j < |corpus| && t[i].id == corpus[j].id
    {
      var j :| 0 <= j < |corpus| && t[i] == Rescore(Tokenize(query), corpus[j]);
      assert t[i].id == corpus[j].id;
    }
  }

  /** Over the knowledge base, no two returned chunks share an id, and
      every returned id is the id of a knowledge-base chunk. */
  lemma RetrieveDocumentsDistinctIds(query: string)
    ensures DistinctIds(RetrieveDocuments(query))
    ensures var r := RetrieveDocuments(query);
      forall i :: 0 <= i < |r| ==> exists j :: 0 <= j < |KnowledgeBase| && r[i].id == KnowledgeBase[j].id
  {
    KnowledgeBaseIdsDistinct();
    RetrieveDistinctIds(query, KnowledgeBase, KnowledgeBase[FallbackIndex]);
    RetrieveIdsFromCorpus(query, KnowledgeBase, KnowledgeBase[FallbackIndex]);
    assert KnowledgeBase[FallbackIndex].id == KnowledgeBase[2].id;
  }

  /** The query is lower-cased first, so its case never matters. */
  lemma RetrieveIgnoresCase(query: string, corpus: seq<DocumentChunk>, fallback: DocumentChunk)
    ensures Retrieve(Lower(query), corpus, fallback) == Retrieve(query, corpus, fallback)
  {
    LowerIdempotent(query);
  }

  /** `split(' ')` keeps empty tokens: there is one exactly when the query is
      empty, starts or ends with a space, or has two spaces in a row. */
  lemma TokenizeEmptyToken(query: string)
    ensures "" in Tokenize(query) <==> HasEmptyPiece(query, ' ')
  {
    EmptyPieceIff(Lower(query), ' ');
    var l := Lower(query);
    assert HasDoubleSep(l, ' ') <==> HasDoubleSep(query, ' ') by {
      if HasDoubleSep(l, ' ') {
        var i :| 0 <= i < |l| - 1 && l[i] == ' ' && l[i + 1] == ' ';
        assert query[i] == ' ' && query[i + 1] == ' ';
      }
      if HasDoubleSep(query, ' ') {
        var i :| 0 <= i < |query| - 1 && query[i] == ' ' && query[i + 1] == ' ';
        assert l[i] == ' ' && l[i + 1] == ' ';
      }
    }
  }

  /** An empty token occurs in every string, so it makes every chunk
      relevant: the fallback cannot fire and the result has
      min(3, |corpus|) chunks. */
  lemma RetrieveWithEmptyToken(query: string, corpus: seq<DocumentChunk>, fallback: DocumentChunk)
    requires HasEmptyPiece(query, ' ')
    requires |corpus| > 0
    ensures AnyMatch(Tokenize(query), corpus)
    ensures |Retrieve(query, corpus, fallback)| == if |corpus| < TopK then |corpus| else TopK
  {
    var terms := Tokenize(query);
    TokenizeEmptyToken(query);
    var s := ScoreAll(terms, corpus);
    forall j | 0 <= j < |corpus|
      ensures MatchCount(terms, corpus[j]) > 0
    {
      EmptyTermMatches(terms, corpus[j]);
    }
    assert MatchCount(terms, corpus[0]) > 0;
    RelevantAll(s);
    RetrieveRelevant(query, corpus, fallback);
  }

  lemma {:induction false} EmptyTermMatches(terms: seq<string>, doc: DocumentChunk)
    requires "" in terms
    ensures MatchCount(terms, doc) > 0
  {
    if terms[0] != "" {
      EmptyTermMatches(terms[1..], doc);
    } else {
      assert "" <= Lower(doc.content);
    }
  }

  lemma {:induction false} RelevantAll(xs: seq<DocumentChunk>)
    requires forall k :: 0 <= k < |xs| ==> xs[k].score > Floor
    ensures Relevant(xs) == xs
  {
    if |xs| > 0 {
      RelevantAll(xs[1..]);
      assert xs == [xs[0]] + xs[1..];
    }
  }

  /** The empty query is the single token "", which matches every chunk
      once: every chunk scores 0.2 and the first three corpus chunks are
      returned in corpus order. */
  lemma RetrieveEmptyQuery(corpus: seq<DocumentChunk>, fallback: DocumentChunk)
    requires |corpus| > 0
    ensures var r := Retrieve("", corpus, fallback);
      |r| == (if |corpus| < TopK then |corpus| else TopK) &&
      forall i :: 0 <= i < |r| ==> r[i] == corpus[i].(score := Increment)
  {
    var terms := Tokenize("");
    assert Lower("") == "";
    assert terms == [""];
    var s := ScoreAll(terms, corpus);
    forall k | 0 <= k < |s|
      ensures s[k] == corpus[k].(score := Increment)
    {
      assert Matches("", corpus[k]) by {
        assert "" <= Lower(corpus[k].content);
      }
      assert MatchCount(terms, corpus[k]) == 1;
    }
    RelevantAll(s);
    SortKeepsSorted(s);
  }

  // ---------------------------------------------------------------------
  // The built-in knowledge base

  /** On the built-in knowledge base the empty query returns doc-1, doc-2
      and doc-3, each at 0.2, and not the fallback. */
  lemma RetrieveDocumentsEmptyQuery()
    ensures RetrieveDocuments("") == [
      KnowledgeBase[0].(score := 20),
      KnowledgeBase[1].(score := 20),
      KnowledgeBase[2].(score := 20)]
  {
    RetrieveEmptyQuery(KnowledgeBase, KnowledgeBase[FallbackIndex]);
    FirstThreeRescored(RetrieveDocuments(""), KnowledgeBase);
  }

  lemma FirstThreeRescored(r: seq<DocumentChunk>, corpus: seq<DocumentChunk>)
    requires |corpus| >= TopK
    requires |r| == (if |corpus| < TopK then |corpus| else TopK)
    requires forall i :: 0 <= i < |r| ==> r[i] == corpus[i].(score := Increment)
    ensures r == [corpus[0].(score := 20), corpus[1].(score := 20), corpus[2].(score := 20)]
  {
  }

  /** When nothing matches, the knowledge base's answer is the
      "Architecture: 5G Core Layout" chunk with its stored 0.82. */
  lemma RetrieveDocumentsFallback(query: string)
    requires !AnyMatch(Tokenize(query), KnowledgeBase)
    ensures RetrieveDocuments(query) == [KnowledgeBase[2]]
    ensures RetrieveDocuments(query)[0].id == "doc-3"
    ensures RetrieveDocuments(query)[0].source == "Architecture: 5G Core Layout"
    ensures RetrieveDocuments(query)[0].score == 82
  {
    RetrieveFallback(query, KnowledgeBase, KnowledgeBase[FallbackIndex]);
  }

  /** A chunk that is first in the corpus, relevant, and scores at least as
      high as every other chunk comes first in the result. */
  lemma RetrieveFirstBest(query: string, corpus: seq<DocumentChunk>, fallback: DocumentChunk)
    requires |corpus| > 0
    requires MatchCount(Tokenize(query), corpus[0]) > 0
    requires forall k :: 0 <= k < |corpus| ==>
               Score(Tokenize(query), corpus[k]) <= Score(Tokenize(query), corpus[0])
    ensures Retrieve(query, corpus, fallback)[0] == Rescore(Tokenize(query), corpus[0])
  {
    TopRelevantFirst(ScoreAll(Tokenize(query), corpus));
  }

  lemma LowerHssQuery()
    ensures Lower("hss 5003 error") == "hss 5003 error"
  {
  }

  lemma SplitHssQuery()
    ensures Split("hss 5003 error", ' ') == ["hss", "5003", "error"]
  {
    SplitThree("hss", "5003", "error", ' ');
    assert "hss 5003 error" == "hss" + [' '] + "5003" + [' '] + "error";
  }

  /** A term found in the lower-cased opening words of the HSS runbook
      matches the chunk. */
  lemma RunbookOpeningHas(term: string)
    requires Contains(Lower(HssRunbookOpening), term)
    ensures Matches(term, HssRunbook)
  {
    LowerAppend(HssRunbookOpening, HssRunbookRest);
    ContainsAppend(Lower(HssRunbookOpening), Lower(HssRunbookRest), term);
  }

  lemma RunbookHasHss()
    ensures Matches("hss", HssRunbook)
  {
    assert OccursAt("If HSS", "HSS", 3);
    LowerContains("If HSS", "HSS", 3);
    assert Lower("HSS") == "hss";
    LowerAppend("If HSS", " returns error");
    ContainsAppend(Lower("If HSS"), Lower(" returns error"), "hss");
    LowerAppend("If HSS" + " returns error", " 5003");
    ContainsAppend(Lower("If HSS" + " returns error"), Lower(" 5003"), "hss");
    RunbookOpeningHas("hss");
  }

  lemma RunbookHasError()
    ensures Matches("error", HssRunbook)
  {
    assert OccursAt(" returns error", "error", 9);
    LowerContains(" returns error", "error", 9);
    assert Lower("error") == "error";
    LowerAppend("If HSS", " returns error");
    ContainsAppend(Lower("If HSS"), Lower(" returns error"), "error");
    LowerAppend("If HSS" + " returns error", " 5003");
    ContainsAppend(Lower("If HSS" + " returns error"), Lower(" 5003"), "error");
    RunbookOpeningHas("error");
  }

  lemma RunbookHas5003()
    ensures Matches("5003", HssRunbook)
  {
    assert OccursAt(" 5003", "5003", 1);
    LowerContains(" 5003", "5003", 1);
    assert Lower("5003") == "5003";
    LowerAppend("If HSS" + " returns error", " 5003");
    ContainsAppend(Lower("If HSS" + " returns error"), Lower(" 5003"), "5003");
    RunbookOpeningHas("5003");
  }

  /** Each of "hss", "5003" and "error" occurs in the opening words of the
      HSS runbook chunk. */
  lemma HssRunbookMatches()
    ensures MatchCount(["hss", "5003", "error"], HssRunbook) == 3
  {
    RunbookHasHss();
    RunbookHasError();
    RunbookHas5003();
    var terms := ["hss", "5003", "error"];
    assert terms[1..] == ["5003", "error"] && terms[1..][1..] == ["error"];
    assert MatchCount(["error"], HssRunbook) == 1;
    assert MatchCount(["5003", "error"], HssRunbook) == 2;
  }

  /** The query "hss 5003 error" matches the HSS runbook chunk three times
      (0.6) and puts it first. */
  lemma RetrieveDocumentsHssExample()
    ensures Score(Tokenize("hss 5003 error"), KnowledgeBase[0]) == 60
    ensures RetrieveDocuments("hss 5003 error")[0] == KnowledgeBase[0].(score := 60)
  {
    LowerHssQuery();
    SplitHssQuery();
    HssRunbookMatches();
    RetrieveFirstBest("hss 5003 error", KnowledgeBase, KnowledgeBase[FallbackIndex]);
  }
}
