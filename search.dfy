/**
 * The search handler (src/app/api/search/route.js): cosine similarity between the query's vector
 * and each stored record's, the stable descending sort by score, the `limit` cut and the
 * projection of each result.
 */
module Search {
  import opened Wrappers
  import opened Seqs
  import opened Embeddings

  /** Why the handler refuses: status 400 without a query, 404 without the embeddings artifact, 500 on a failure inside. */
  datatype SearchError = QueryRequired | EmbeddingsNotFound | SearchFailed

  /** The thrown `"Vectors must have the same length"`. */
  datatype SimilarityError = LengthMismatch

  /** The dot product of two vectors of the same length. */
  function Dot(a: seq<real>, b: seq<real>): real
    requires |a| == |b|
  {
    if a == [] then 0.0 else Dot(a[..|a| - 1], b[..|b| - 1]) + Mul(a[|a| - 1], b[|b| - 1])
  }

  /** The product of two reals, named so that squares stay single terms for the solver. */
  function Mul(x: real, y: real): real {
    x * y
  }

  /**
   * `cosineSimilarity(vecA, vecB)` with `Math.sqrt` as the parameter `sqrt`: an error when the
   * lengths differ, 0 when either norm is 0, else the dot product over the product of the norms.
   */
  function Cosine(a: seq<real>, b: seq<real>, sqrt: real -> real): Result<real, SimilarityError> {
    if |a| != |b| then Err(LengthMismatch)
    else
      var normA := Root(sqrt, Dot(a, a));
      var normB := Root(sqrt, Dot(b, b));
      if normA == 0.0 || normB == 0.0 then Ok(0.0) else Ok(Ratio(Dot(a, b), normA, normB))
  }

  /** `Math.sqrt`, as supplied by the caller. */
  function Root(sqrt: real -> real, x: real): real {
    sqrt(x)
  }

  /** The dot product over the product of two non-zero norms, on the reals. */
  function Ratio(dot: real, normA: real, normB: real): real
    requires normA != 0.0 && normB != 0.0
  {
    NonZeroProduct(normA, normB);
    dot / (normA * normB)
  }

  /** Lines 87-110: the three sums accumulated in one loop, then the norms and the quotient. */
  method CosineSimilarity(vecA: seq<real>, vecB: seq<real>, sqrt: real -> real) returns (r: Result<real, SimilarityError>)
    ensures r == Cosine(vecA, vecB, sqrt)
  {
    if |vecA| != |vecB| {
      return Err(LengthMismatch);
    }
    var dotProduct := 0.0;
    var normA := 0.0;
    var normB := 0.0;
    for i := 0 to |vecA|
      invariant dotProduct == Dot(vecA[..i], vecB[..i])
      invariant normA == Dot(vecA[..i], vecA[..i])
      invariant normB == Dot(vecB[..i], vecB[..i])
    {
      assert vecA[..i + 1][..i] == vecA[..i] && vecB[..i + 1][..i] == vecB[..i];
      dotProduct := dotProduct + vecA[i] * vecB[i];
      normA := normA + vecA[i] * vecA[i];
      normB := normB + vecB[i] * vecB[i];
    }
    assert vecA[..|vecA|] == vecA && vecB[..|vecB|] == vecB;
    assert dotProduct == Dot(vecA, vecB) && normA == Dot(vecA, vecA) && normB == Dot(vecB, vecB);
    normA := Root(sqrt, normA);
    normB := Root(sqrt, normB);
    if normA == 0.0 || normB == 0.0 {
      return Ok(0.0);
    }
    return Ok(Ratio(dotProduct, normA, normB));
  }

  lemma {:induction false} DotSymmetric(a: seq<real>, b: seq<real>)
    requires |a| == |b|
    ensures Dot(a, b) == Dot(b, a)
  {
    if a != [] {
      DotSymmetric(a[..|a| - 1], b[..|b| - 1]);
    }
  }

  /** Similarity does not depend on the order of its arguments. */
  lemma CosineSymmetric(a: seq<real>, b: seq<real>, sqrt: real -> real)
    ensures Cosine(a, b, sqrt) == Cosine(b, a, sqrt)
  {
    if |a| == |b| {
      DotSymmetric(a, b);
      var na := sqrt(Dot(a, a));
      var nb := sqrt(Dot(b, b));
      assert na * nb == nb * na;
    }
  }

  /** Vectors of different lengths have no similarity: the call throws. */
  lemma MismatchedLengthsFail(a: seq<real>, b: seq<real>, sqrt: real -> real)
    ensures Cosine(a, b, sqrt).Err? <==> |a| != |b|
  {
  }

  predicate IsZeroVector(a: seq<real>) {
    forall i :: 0 <= i < |a| ==> a[i] == 0.0
  }

  /** The squared norm is never negative, and it is zero exactly for the zero vector. */
  lemma {:induction false} SquaredNormZeroIffZeroVector(a: seq<real>)
    ensures Dot(a, a) >= 0.0
    ensures IsZeroVector(a) ==> Dot(a, a) == 0.0
    ensures !IsZeroVector(a) ==> Dot(a, a) > 0.0
  {
    if a != [] {
      var init := a[..|a| - 1];
      var x := a[|a| - 1];
      SquaredNormZeroIffZeroVector(init);
      assert Dot(a, a) == Dot(init, init) + Mul(x, x);
      SquareSign(x);
      if IsZeroVector(a) {
        assert IsZeroVector(init) by {
          forall i | 0 <= i < |init| ensures init[i] == 0.0 {
            assert init[i] == a[i];
          }
        }
        assert x == 0.0;
        assert Mul(x, x) == Mul(0.0, 0.0);
      } else if x == 0.0 {
        var i :| 0 <= i < |a| && a[i] != 0.0;
        assert init[i] == a[i];
      }
    }
  }

  lemma PositiveProduct(x: real, y: real)
    requires x > 0.0 && y > 0.0
    ensures Mul(x, y) > 0.0
  {
    assert x * y > 0.0 * y;
  }

  /** A square is never negative, and it is positive away from zero. */
  lemma SquareSign(x: real)
    ensures Mul(x, x) >= 0.0
    ensures x != 0.0 ==> Mul(x, x) > 0.0
  {
    if x < 0.0 {
      PositiveProduct(-x, -x);
      assert Mul(x, x) == Mul(-x, -x);
    } else if x > 0.0 {
      PositiveProduct(x, x);
    } else {
      assert Mul(x, x) == Mul(0.0, 0.0);
    }
  }

  lemma NonZeroProduct(x: real, y: real)
    requires x != 0.0 && y != 0.0
    ensures x * y != 0.0
  {
  }

  /** When `Math.sqrt(0)` is 0, the zero vector scores exactly 0 against every vector of its length. */
  lemma ZeroVectorScoresZero(a: seq<real>, b: seq<real>, sqrt: real -> real)
    requires |a| == |b| && IsZeroVector(a) && sqrt(0.0) == 0.0
    ensures Cosine(a, b, sqrt) == Ok(0.0) && Cosine(b, a, sqrt) == Ok(0.0)
  {
    SquaredNormZeroIffZeroVector(a);
    CosineSymmetric(a, b, sqrt);
  }

  /**
   * When the square root is zero only at zero, a score is the quotient of the dot product by the
   * norms exactly when neither vector is the zero vector.
   */
  lemma ScoreOfNonZeroVectors(a: seq<real>, b: seq<real>, sqrt: real -> real)
    requires |a| == |b| && forall x: real :: x >= 0.0 ==> (sqrt(x) == 0.0 <==> x == 0.0)
    ensures !IsZeroVector(a) && !IsZeroVector(b) <==>
      sqrt(Dot(a, a)) != 0.0 && sqrt(Dot(b, b)) != 0.0 &&
      Cosine(a, b, sqrt) == Ok(Ratio(Dot(a, b), sqrt(Dot(a, a)), sqrt(Dot(b, b))))
  {
    SquaredNormZeroIffZeroVector(a);
    SquaredNormZeroIffZeroVector(b);
    var sa := Dot(a, a);
    var sb := Dot(b, b);
    assert sqrt(sa) == 0.0 <==> sa == 0.0;
    assert sqrt(sb) == 0.0 <==> sb == 0.0;
  }

  /** A stored record spread with its `score` (lines 53-56). */
  datatype ScoredRecord = ScoredRecord(record: EmbeddingRecord, score: real)

  /** One entry of the response's `results` (lines 69-74): the record without its embedding. */
  datatype SearchResult = SearchResult(id: string, content: string, metadata: RecordMetadata, score: real)

  /** `embeddings.map(...)`: every record scored against the query; one length mismatch throws. */
  function Scored(query: seq<real>, records: seq<EmbeddingRecord>, sqrt: real -> real): Result<seq<ScoredRecord>, SimilarityError> {
    if records == [] then Ok([])
    else
      var init := Scored(query, records[..|records| - 1], sqrt);
      var last := records[|records| - 1];
      if init.Err? then init
      else
        match Cosine(query, last.embedding, sqrt)
        case Err(e) => Err(e)
        case Ok(score) => Ok(init.value + [ScoredRecord(last, score)])
  }

  /** Scoring succeeds exactly when every stored vector has the query's length, and then pairs each record with its similarity, in stored order. */
  lemma {:induction false} ScoredPairsRecords(query: seq<real>, records: seq<EmbeddingRecord>, sqrt: real -> real)
    ensures Scored(query, records, sqrt).Ok? <==> forall i :: 0 <= i < |records| ==> |records[i].embedding| == |query|
    ensures Scored(query, records, sqrt).Ok? ==>
      var scored := Scored(query, records, sqrt).value;
      |scored| == |records| &&
      forall i :: 0 <= i < |records| ==>
        scored[i].record == records[i] && Cosine(query, records[i].embedding, sqrt) == Ok(scored[i].score)
  {
    if records != [] {
      var init := records[..|records| - 1];
      ScoredPairsRecords(query, init, sqrt);
      assert forall i :: 0 <= i < |init| ==> init[i] == records[i];
      var last := records[|records| - 1];
      MismatchedLengthsFail(query, last.embedding, sqrt);
      if Scored(query, init, sqrt).Err? {
        assert exists i :: 0 <= i < |init| && |init[i].embedding| != |query|;
      }
    }
  }

  /** Non-increasing score order. */
  predicate Descending(s: seq<ScoredRecord>) {
    forall i, j :: 0 <= i < j < |s| ==> s[i].score >= s[j].score
  }

  /**
   * One step of a stable sort under the comparator `b.score - a.score`: `x`, which comes after
   * every element of `t` in the input, goes after all of them that score at least as much.
   */
  function Insert(t: seq<ScoredRecord>, x: ScoredRecord): seq<ScoredRecord> {
    if t == [] then [x]
    else if t[0].score < x.score then [x] + t
    else [t[0]] + Insert(t[1..], x)
  }

  /** `results.sort((a, b) => b.score - a.score)`, the stable sort of `Array.prototype.sort`. */
  function Ranked(s: seq<ScoredRecord>): seq<ScoredRecord> {
    if s == [] then [] else Insert(Ranked(s[..|s| - 1]), s[|s| - 1])
  }

  /** The elements of `s` that score exactly `v`, in order. */
  function WithScore(s: seq<ScoredRecord>, v: real): seq<ScoredRecord> {
    if s == [] then []
    else (if s[0].score == v then [s[0]] else []) + WithScore(s[1..], v)
  }

  lemma {:induction false} InsertIsPermutation(t: seq<ScoredRecord>, x: ScoredRecord)
    ensures multiset(Insert(t, x)) == multiset(t) + multiset{x}
  {
    if t != [] && t[0].score >= x.score {
      InsertIsPermutation(t[1..], x);
      assert t == [t[0]] + t[1..];
    }
  }

  lemma {:induction false} InsertKeepsDescending(t: seq<ScoredRecord>, x: ScoredRecord)
    requires Descending(t)
    ensures Descending(Insert(t, x))
  {
    if t != [] && t[0].score >= x.score {
      var rest := Insert(t[1..], x);
      InsertKeepsDescending(t[1..], x);
      InsertIsPermutation(t[1..], x);
      forall k | 0 <= k < |rest| ensures t[0].score >= rest[k].score {
        assert rest[k] in multiset(rest);
        if rest[k] != x {
          assert rest[k] in multiset(t[1..]);
          var j :| 0 <= j < |t[1..]| && t[1..][j] == rest[k];
          assert t[j + 1] == rest[k];
        }
      }
    }
  }

  lemma {:induction false} WithScoreAppend(a: seq<ScoredRecord>, b: seq<ScoredRecord>, v: real)
    ensures WithScore(a + b, v) == WithScore(a, v) + WithScore(b, v)
  {
    if a == [] {
      assert a + b == b;
    } else {
      WithScoreAppend(a[1..], b, v);
      assert (a + b)[0] == a[0] && (a + b)[1..] == a[1..] + b;
      var head := if a[0].score == v then [a[0]] else [];
      AppendAssociative(head, WithScore(a[1..], v), WithScore(b, v));
    }
  }

  lemma {:induction false} NoneWithScore(t: seq<ScoredRecord>, v: real)
    requires Descending(t) && t != [] && t[0].score < v
    ensures WithScore(t, v) == []
  {
    if |t| > 1 {
      assert Descending(t[1..]) && t[1..][0].score <= t[0].score;
      NoneWithScore(t[1..], v);
    }
  }

  /** Inserting `x` into a sorted run appends it to the elements of its own score, after the equal ones. */
  lemma {:induction false} InsertIsStable(t: seq<ScoredRecord>, x: ScoredRecord, v: real)
    requires Descending(t)
    ensures WithScore(Insert(t, x), v) == WithScore(t, v) + WithScore([x], v)
  {
    if t == [] {
    } else if t[0].score < x.score {
      if x.score == v {
        NoneWithScore(t, v);
      }
      WithScoreAppend([x], t, v);
    } else {
      assert Descending(t[1..]);
      InsertIsStable(t[1..], x, v);
      WithScoreAppend([t[0]], Insert(t[1..], x), v);
      WithScoreAppend([t[0]], t[1..], v);
      assert [t[0]] + t[1..] == t;
    }
  }

  /** The ranking is sorted by score, highest first, and holds exactly the scored records. */
  lemma {:induction false} RankedIsSortedPermutation(s: seq<ScoredRecord>)
    ensures Descending(Ranked(s))
    ensures multiset(Ranked(s)) == multiset(s)
  {
    if s != [] {
      var init := s[..|s| - 1];
      RankedIsSortedPermutation(init);
      InsertKeepsDescending(Ranked(init), s[|s| - 1]);
      InsertIsPermutation(Ranked(init), s[|s| - 1]);
      assert s == init + [s[|s| - 1]];
    }
  }

  /** The sort is stable: records of equal score keep their stored order. */
  lemma {:induction false} RankedIsStable(s: seq<ScoredRecord>, v: real)
    ensures WithScore(Ranked(s), v) == WithScore(s, v)
  {
    if s != [] {
      var init, last := s[..|s| - 1], s[|s| - 1];
      assert Ranked(s) == Insert(Ranked(init), last);
      assert WithScore(Ranked(s), v) == WithScore(Ranked(init), v) + WithScore([last], v) by {
        RankedIsSortedPermutation(init);
        InsertIsStable(Ranked(init), last, v);
      }
      assert WithScore(Ranked(init), v) == WithScore(init, v) by {
        RankedIsStable(init, v);
      }
      assert WithScore(s, v) == WithScore(init, v) + WithScore([last], v) by {
        assert s == init + [last];
        WithScoreAppend(init, [last], v);
      }
    }
  }

  /** The end index of `slice(0, limit)`: a negative limit counts back from the end. */
  function SliceEnd(length: nat, limit: int): (end: nat)
    ensures end <= length
    ensures 0 <= limit ==> end == if limit < length then limit else length
    ensures limit < 0 ==> end == if length + limit < 0 then 0 else length + limit
  {
    if limit < 0 then (if length + limit < 0 then 0 else length + limit)
    else if limit < length then limit
    else length
  }

  /** The default `limit = 5` of the destructuring on line 15. */
  const DefaultLimit: int := 5

  function Project(r: ScoredRecord): SearchResult {
    SearchResult(r.record.id, r.record.content, r.record.metadata, r.score)
  }

  /** `topResults.map(...)`: the projection of each ranked record. */
  function Projected(s: seq<ScoredRecord>): (results: seq<SearchResult>)
    ensures |results| == |s| && forall i :: 0 <= i < |s| ==> results[i] == Project(s[i])
  {
    if s == [] then [] else [Project(s[0])] + Projected(s[1..])
  }

  /**
   * The handler after the body is parsed. `queryEmbedding` is the result of `embed` (`None` when it
   * throws), and `stored` the embeddings artifact (`None` when the file does not exist).
   */
  function Search(query: string, queryEmbedding: Option<seq<real>>, stored: Option<seq<EmbeddingRecord>>,
                  limit: Option<int>, sqrt: real -> real): Result<seq<SearchResult>, SearchError> {
    if query == "" then Err(QueryRequired)
    else if queryEmbedding.None? then Err(SearchFailed)
    else if stored.None? then Err(EmbeddingsNotFound)
    else
      match Scored(queryEmbedding.value, stored.value, sqrt)
      case Err(_) => Err(SearchFailed)
      case Ok(scored) => Ok(TopResults(scored, limit.GetOr(DefaultLimit)))
  }

  /**
   * The handler's refusals, in the order it checks them: no query (400), then a failed query
   * embedding (500, even when the artifact is missing), then no artifact (404), then a stored
   * vector whose length differs from the query's (500).
   */
  lemma SearchErrors(query: string, queryEmbedding: Option<seq<real>>, stored: Option<seq<EmbeddingRecord>>,
                     limit: Option<int>, sqrt: real -> real)
    ensures Search(query, queryEmbedding, stored, limit, sqrt) == Err(QueryRequired) <==> query == ""
    ensures Search(query, queryEmbedding, stored, limit, sqrt) == Err(EmbeddingsNotFound) <==>
      query != "" && queryEmbedding.Some? && stored.None?
    ensures Search(query, queryEmbedding, stored, limit, sqrt) == Err(SearchFailed) <==>
      query != "" && (queryEmbedding.None? ||
        (stored.Some? && exists i :: 0 <= i < |stored.value| && |stored.value[i].embedding| != |queryEmbedding.value|))
  {
    if query != "" && queryEmbedding.Some? && stored.Some? {
      ScoredPairsRecords(queryEmbedding.value, stored.value, sqrt);
    }
  }

  /** `results.sort(...).slice(0, limit)` projected: the response's `results`. */
  function TopResults(scored: seq<ScoredRecord>, limit: int): seq<SearchResult> {
    var ranked := Ranked(scored);
    Projected(ranked[..SliceEnd(|ranked|, limit)])
  }

  /** There are `min(limit, n)` results for a non-negative limit, in non-increasing score order. */
  lemma TopResultsCountAndOrder(scored: seq<ScoredRecord>, limit: int)
    ensures var results := TopResults(scored, limit);
      (0 <= limit ==> |results| == if limit < |scored| then limit else |scored|) &&
      (limit < 0 ==> |results| == if |scored| + limit < 0 then 0 else |scored| + limit) &&
      forall i, j :: 0 <= i < j < |results| ==> results[i].score >= results[j].score
  {
    RankedIsSortedPermutation(scored);
    assert |Ranked(scored)| == |scored| by {
      assert |multiset(Ranked(scored))| == |multiset(scored)|;
    }
  }

  /** Every result is the projection of one of the scored records. */
  lemma TopResultsComeFromScored(scored: seq<ScoredRecord>, limit: int)
    ensures var results := TopResults(scored, limit);
      forall i :: 0 <= i < |results| ==> exists k :: 0 <= k < |scored| && results[i] == Project(scored[k])
  {
    var ranked := Ranked(scored);
    RankedIsSortedPermutation(scored);
    var top := ranked[..SliceEnd(|ranked|, limit)];
    var results := Projected(top);
    forall i | 0 <= i < |results| ensures exists k :: 0 <= k < |scored| && results[i] == Project(scored[k]) {
      assert top[i] == ranked[i] && ranked[i] in multiset(scored);
      var k :| 0 <= k < |scored| && scored[k] == ranked[i];
      assert results[i] == Project(scored[k]);
    }
  }

  /**
   * A successful search returns `min(limit, n)` results for a non-negative limit (5 by default),
   * in non-increasing score order, and each is a stored record, without its embedding, carrying
   * its similarity to the query.
   */
  lemma SearchResults(query: string, queryEmbedding: Option<seq<real>>, stored: Option<seq<EmbeddingRecord>>,
                      limit: Option<int>, sqrt: real -> real)
    requires Search(query, queryEmbedding, stored, limit, sqrt).Ok?
    ensures var results := Search(query, queryEmbedding, stored, limit, sqrt).value;
      var n := |stored.value|;
      var l := limit.GetOr(DefaultLimit);
      (0 <= l ==> |results| == if l < n then l else n) &&
      (forall i, j :: 0 <= i < j < |results| ==> results[i].score >= results[j].score) &&
      forall i :: 0 <= i < |results| ==>
        exists k ::
          && 0 <= k < n
          && results[i] == SearchResult(stored.value[k].id, stored.value[k].content, stored.value[k].metadata, results[i].score)
          && Cosine(queryEmbedding.value, stored.value[k].embedding, sqrt) == Ok(results[i].score)
  {
    var q := queryEmbedding.value;
    var records := stored.value;
    var l := limit.GetOr(DefaultLimit);
    ScoredPairsRecords(q, records, sqrt);
    var scored := Scored(q, records, sqrt).value;
    var results := TopResults(scored, l);
    assert Search(query, queryEmbedding, stored, limit, sqrt).value == results;
    TopResultsCountAndOrder(scored, l);
    TopResultsComeFromScored(scored, l);
    forall i | 0 <= i < |results|
      ensures exists k ::
        && 0 <= k < |records|
        && results[i] == SearchResult(records[k].id, records[k].content, records[k].metadata, results[i].score)
        && Cosine(q, records[k].embedding, sqrt) == Ok(results[i].score)
    {
      var k :| 0 <= k < |scored| && results[i] == Project(scored[k]);
      assert scored[k].record == records[k];
    }
  }

  /** The results are the head of the ranking: no record left out of them scores above one returned. */
  lemma ResultsAreTopRanked(s: seq<ScoredRecord>, limit: int)
    ensures var ranked := Ranked(s);
      var end := SliceEnd(|ranked|, limit);
      forall i, j :: 0 <= i < end <= j < |ranked| ==> ranked[i].score >= ranked[j].score
  {
    RankedIsSortedPermutation(s);
  }
}
