/** Keyword scoring against a product description (`zhipu_scoring.py`):
    embeddings are requested in batches of 64 with blank texts dropped from each
    batch and zero vectors standing in for a failed batch; the keywords are then
    paired with their similarity to the description and sorted by score,
    highest first. The embedding service and the cosine similarity are inputs:
    the service's answer for each batch number, and a similarity function. */
module ZhipuScoring {
  import opened Strings
  import opened Sorting

  const BatchSize: nat := 64
  const Dimensions: nat := 2048

  /** An embedding vector; its numbers are not interpreted. */
  type Vector = seq<real>

  /** The zero vector `np.zeros(EMBEDDING_DIMENSIONS)`. */
  function Zero(): (v: Vector)
    ensures |v| == Dimensions && forall k :: 0 <= k < |v| ==> v[k] == 0.0
  {
    seq(Dimensions, _ => 0.0)
  }

  /** How one batch request ended: an HTTP status other than 200, a reply
      without `"data"`, an exception, or the vectors listed under `"data"`. */
  datatype BatchReply = HttpError(code: int) | MissingData | Raised | Embeddings(vectors: seq<Vector>)

  /** A keyword with its similarity score. */
  datatype Scored = Scored(keyword: string, score: real)

  function ScoreOf(x: Scored): real { x.score }
  function KeywordOf(x: Scored): string { x.keyword }

  /** `texts[i : i + BATCH_SIZE]` for `i = 0, 64, 128, ...`. */
  function Batches(texts: seq<string>): (r: seq<seq<string>>)
    ensures forall k :: 0 <= k < |r| ==> 1 <= |r[k]| <= BatchSize
    ensures Flatten(r) == texts
    decreases |texts|
  {
    if texts == [] then []
    else if |texts| <= BatchSize then [texts]
    else
      var rest := Batches(texts[BatchSize..]);
      assert Flatten([texts[..BatchSize]] + rest) == texts[..BatchSize] + Flatten(rest) by {
        assert ([texts[..BatchSize]] + rest)[1..] == rest;
      }
      assert texts[..BatchSize] + texts[BatchSize..] == texts;
      [texts[..BatchSize]] + rest
  }

  function Flatten<T>(bs: seq<seq<T>>): seq<T> {
    if bs == [] then [] else bs[0] + Flatten(bs[1..])
  }

  /** `[np.zeros(...)] * n`. */
  function Zeros(n: nat): (r: seq<Vector>)
    ensures |r| == n && forall k :: 0 <= k < n ==> r[k] == Zero()
  {
    seq(n, _ => Zero())
  }

  /** What one batch adds to `all_embeddings`: nothing when every text in it is
      blank, the returned vectors on success, and one zero vector per
      remaining text on any failure. */
  function BatchResult(batch: seq<string>, reply: BatchReply): (r: seq<Vector>)
    ensures Filter(batch, NonBlank) == [] ==> r == []
    ensures Filter(batch, NonBlank) != [] && !reply.Embeddings? ==> r == Zeros(|Filter(batch, NonBlank)|)
    ensures Filter(batch, NonBlank) != [] && reply.Embeddings? ==> r == reply.vectors
  {
    var kept := Filter(batch, NonBlank);
    if kept == [] then []
    else
      match reply
      case Embeddings(vs) => vs
      case _ => Zeros(|kept|)
  }

  /** The concatenated contributions of the batches, numbered from `k`. */
  function EmbedBatches(bs: seq<seq<string>>, api: nat -> BatchReply, k: nat): seq<Vector> {
    if bs == [] then [] else BatchResult(bs[0], api(k)) + EmbedBatches(bs[1..], api, k + 1)
  }

  /** The list `get_embedding(texts)` returns; `api(k)` is the service's
      answer to the batch numbered `k` (from 0). */
  function Embedded(texts: seq<string>, api: nat -> BatchReply): seq<Vector> {
    EmbedBatches(Batches(texts), api, 0)
  }

  function Rest(texts: seq<string>, i: nat): seq<string> {
    if i < |texts| then texts[i..] else []
  }

  /** One pass of the batch loop: drop blank texts, skip an empty batch,
      otherwise take the service's vectors or zero-fill on any failure. */
  method EmbedBatch(batch: seq<string>, reply: BatchReply) returns (added: seq<Vector>)
    ensures added == BatchResult(batch, reply)
  {
    var kept := Filter(batch, NonBlank);
    if kept == [] {
      return [];
    }
    match reply {
      case HttpError(_) =>
        added := Zeros(|kept|);
      case MissingData =>
        added := Zeros(|kept|);
      case Embeddings(vs) =>
        added := vs;
      case Raised =>
        added := Zeros(|kept|);
    }
  }

  /** `np.array(vectors)` is a matrix only when every vector has the first
      one's length. */
  predicate Rectangular(vs: seq<Vector>) {
    forall k :: 0 <= k < |vs| ==> |vs[k]| == |vs[0]|
  }

  /** numpy's `ValueError` message for `np.array` over `n` vectors of
      different lengths. */
  const InhomogeneousText: string :=
    "setting an array element with a sequence. The requested array has an inhomogeneous shape after 1 dimensions. The detected shape was ("

  function InhomogeneousMessage(n: nat): string {
    InhomogeneousText + NatToString(n) + ",) + inhomogeneous part."
  }

  /** What `get_embedding(texts)` returns or raises: the collected vectors
      as an array, or numpy's `ValueError` when their lengths differ. */
  function EmbeddingArray(texts: seq<string>, api: nat -> BatchReply): (r: Result<seq<Vector>>)
    ensures r.Success? <==> Rectangular(Embedded(texts, api))
    ensures r.Success? ==> r.value == Embedded(texts, api)
    ensures r.Failure? ==> r.error == InhomogeneousMessage(|Embedded(texts, api)|)
  {
    var all := Embedded(texts, api);
    if Rectangular(all) then Success(all) else Failure(InhomogeneousMessage(|all|))
  }

  /** `get_embedding`: the loop over batch offsets extending `all_embeddings`,
      then `np.array` over them. */
  method GetEmbedding(texts: seq<string>, api: nat -> BatchReply) returns (r: Result<seq<Vector>>)
    ensures r == EmbeddingArray(texts, api)
  {
    var all := EmbeddingList(texts, api);
    if !Rectangular(all) {
      return Failure(InhomogeneousMessage(|all|));
    }
    r := Success(all);
  }

  /** The batch loop of `get_embedding`, up to the return. */
  method EmbeddingList(texts: seq<string>, api: nat -> BatchReply) returns (all: seq<Vector>)
    ensures all == Embedded(texts, api)
  {
    all := [];
    var i: nat := 0;
    var k: nat := 0;  // the batch number `i // BATCH_SIZE`
    assert Rest(texts, 0) == texts;
    while i < |texts|
      invariant all + Remaining(texts, i, k, api) == Embedded(texts, api)
      decreases |texts| - i
    {
      var end := if i + BatchSize <= |texts| then i + BatchSize else |texts|;
      var batch := texts[i..end];
      var added := EmbedBatch(batch, api(k));
      assert (all + added) + Remaining(texts, i + BatchSize, k + 1, api) == Embedded(texts, api) by {
        EmbedStep(texts, i, k, api);
        AppendAssoc(all, added, Remaining(texts, i + BatchSize, k + 1, api));
      }
      all := all + added;
      i := i + BatchSize;
      k := k + 1;
    }
    RemainingDone(texts, i, k, api);
  }

  /** What the batches from offset `i` (batch number `k`) on still add. */
  function Remaining(texts: seq<string>, i: nat, k: nat, api: nat -> BatchReply): seq<Vector> {
    EmbedBatches(Batches(Rest(texts, i)), api, k)
  }

  lemma RemainingDone(texts: seq<string>, i: nat, k: nat, api: nat -> BatchReply)
    requires i >= |texts|
    ensures Remaining(texts, i, k, api) == []
  {
    assert Rest(texts, i) == [];
    assert Batches([]) == [];
  }

  lemma EmbedStep(texts: seq<string>, i: nat, k: nat, api: nat -> BatchReply)
    requires i < |texts|
    ensures Remaining(texts, i, k, api)
      == BatchResult(texts[i..if i + BatchSize <= |texts| then i + BatchSize else |texts|], api(k))
         + Remaining(texts, i + BatchSize, k + 1, api)
  {
    var end := if i + BatchSize <= |texts| then i + BatchSize else |texts|;
    var bs := Batches(texts[i..]);
    if |texts[i..]| > BatchSize {
      assert texts[i..][BatchSize..] == texts[i + BatchSize..];
      assert texts[i..][..BatchSize] == texts[i..end];
    } else {
      assert texts[i..] == texts[i..end];
      assert Rest(texts, i + BatchSize) == [];
    }
    assert bs[0] == texts[i..end];
    assert bs[1..] == Batches(Rest(texts, i + BatchSize));
  }

  lemma ZerosAppend(a: nat, b: nat)
    ensures Zeros(a) + Zeros(b) == Zeros(a + b)
  {
    assert forall k :: 0 <= k < a + b ==> (Zeros(a) + Zeros(b))[k] == Zero();
  }

  lemma {:induction false} FilterFlatten(bs: seq<seq<string>>)
    ensures Filter(Flatten(bs), NonBlank) == Flatten(seq(|bs|, k requires 0 <= k < |bs| => Filter(bs[k], NonBlank)))
  {
    if bs != [] {
      FilterFlatten(bs[1..]);
      FilterAppend(bs[0], Flatten(bs[1..]), NonBlank);
      var fs := seq(|bs|, k requires 0 <= k < |bs| => Filter(bs[k], NonBlank));
      assert fs[1..] == seq(|bs[1..]|, k requires 0 <= k < |bs[1..]| => Filter(bs[1..][k], NonBlank));
    }
  }

  lemma {:induction false} FailedBatchesZeroFill(bs: seq<seq<string>>, api: nat -> BatchReply, k: nat)
    requires forall j :: !api(j).Embeddings?
    ensures EmbedBatches(bs, api, k) == Zeros(|Filter(Flatten(bs), NonBlank)|)
  {
    if bs != [] {
      FailedBatchesZeroFill(bs[1..], api, k + 1);
      FilterAppend(bs[0], Flatten(bs[1..]), NonBlank);
      assert Flatten(bs) == bs[0] + Flatten(bs[1..]);
      ZerosAppend(|Filter(bs[0], NonBlank)|, |Filter(Flatten(bs[1..]), NonBlank)|);
    } else {
      assert Zeros(0) == [];
    }
  }

  /** When every request fails the loop still continues, and the result has
      exactly one zero vector per non-blank text. */
  lemma AllFailuresZeroFill(texts: seq<string>, api: nat -> BatchReply)
    requires forall j :: !api(j).Embeddings?
    ensures Embedded(texts, api) == Zeros(|Filter(texts, NonBlank)|)
  {
    FailedBatchesZeroFill(Batches(texts), api, 0);
  }

  lemma {:induction false} BlankBatchesEmpty(bs: seq<seq<string>>, api: nat -> BatchReply, k: nat)
    requires Filter(Flatten(bs), NonBlank) == []
    ensures EmbedBatches(bs, api, k) == []
  {
    if bs != [] {
      FilterAppend(bs[0], Flatten(bs[1..]), NonBlank);
      BlankBatchesEmpty(bs[1..], api, k + 1);
    }
  }

  /** Blank texts never reach the service: all-blank input yields no vectors
      whatever the service would have answered. */
  lemma BlankTextsEmbedNothing(texts: seq<string>, api: nat -> BatchReply)
    requires forall k :: 0 <= k < |texts| ==> !NonBlank(texts[k])
    ensures Embedded(texts, api) == []
  {
    FilterNone(texts, NonBlank);
    BlankBatchesEmpty(Batches(texts), api, 0);
  }

  /** The results when the description could not be embedded or the
      similarity failed: every keyword with score 0.0, in input order. */
  function ZeroScores(keywords: seq<string>): (r: seq<Scored>)
    ensures |r| == |keywords|
    ensures forall k :: 0 <= k < |keywords| ==> r[k] == Scored(keywords[k], 0.0)
  {
    seq(|keywords|, k requires 0 <= k < |keywords| => Scored(keywords[k], 0.0))
  }

  /** numpy's message for `similarities[i]` past the end. */
  function IndexErrorMessage(size: nat): string {
    "index " + NatToString(size) + " is out of bounds for axis 0 with size " + NatToString(size)
  }

  /** What `score_keywords` returns (or raises): `descApi` and `kwApi` answer
      the two `get_embedding` calls, `cosine` stands for the similarity of two
      vectors and `cosineFails` for an exception in `cosine_similarity`. */
  function ScoreSpec(keywords: seq<string>, description: string,
                     descApi: nat -> BatchReply, kwApi: nat -> BatchReply,
                     cosine: (Vector, Vector) -> real, cosineFails: bool): Result<seq<Scored>>
  {
    if keywords == [] || description == [] then Success([])
    else
      match EmbeddingArray([description], descApi)
      case Failure(_) => Success(ZeroScores(keywords))
      case Success(pv) =>
        if pv == [] then Success(ZeroScores(keywords))
        else
          match EmbeddingArray(keywords, kwApi)
          case Failure(e) => Failure(e)
          case Success(kv) =>
            if kv == [] then Success([])
            else if cosineFails then Success(ZeroScores(keywords))
            else if |kv| < |keywords| then Failure(IndexErrorMessage(|kv|))
            else Success(SortDesc(Paired(keywords, seq(|kv|, i requires 0 <= i < |kv| => cosine(pv[0], kv[i]))), ScoreOf))
  }

  /** `[{"keyword": kw, "score": similarities[i]} for i, kw in enumerate(keywords)]`. */
  function Paired(keywords: seq<string>, sims: seq<real>): (r: seq<Scored>)
    requires |sims| >= |keywords|
    ensures |r| == |keywords|
    ensures forall k :: 0 <= k < |keywords| ==> r[k] == Scored(keywords[k], sims[k])
  {
    seq(|keywords|, k requires 0 <= k < |keywords| => Scored(keywords[k], sims[k]))
  }

  /** `score_keywords`: both embedding calls, the similarity, the result loop
      and the in-place sort. */
  method ScoreKeywords(keywords: seq<string>, description: string,
                       descApi: nat -> BatchReply, kwApi: nat -> BatchReply,
                       cosine: (Vector, Vector) -> real, cosineFails: bool)
    returns (r: Result<seq<Scored>>)
    ensures r == ScoreSpec(keywords, description, descApi, kwApi, cosine, cosineFails)
    ensures keywords == [] || description == [] ==> r == Success([])
    ensures r.Success? && r.value != [] ==> |r.value| == |keywords|
  {
    if keywords == [] || description == [] {
      return Success([]);
    }
    var pArray := GetEmbedding([description], descApi);
    if pArray.Failure? || pArray.value == [] {
      return Success(ZeroScores(keywords));
    }
    var pv := pArray.value;
    var kArray := GetEmbedding(keywords, kwApi);
    if kArray.Failure? {
      return Failure(kArray.error);
    }
    var kv := kArray.value;
    if kv == [] {
      return Success([]);
    }
    if cosineFails {
      return Success(ZeroScores(keywords));
    }
    var sims := seq(|kv|, i requires 0 <= i < |kv| => cosine(pv[0], kv[i]));
    var paired := PairScores(keywords, sims);
    if paired.Failure? {
      return paired;
    }
    SortDescCorrect(paired.value, ScoreOf);
    r := Success(SortDesc(paired.value, ScoreOf));
  }

  /** The result loop of `score_keywords`: `similarities[i]` for each keyword
      in turn, raising `IndexError` past the last similarity. */
  method PairScores(keywords: seq<string>, sims: seq<real>) returns (r: Result<seq<Scored>>)
    ensures |sims| < |keywords| ==> r == Failure(IndexErrorMessage(|sims|))
    ensures |sims| >= |keywords| ==> r == Success(Paired(keywords, sims))
  {
    var results: seq<Scored> := [];
    var i := 0;
    while i < |keywords|
      invariant 0 <= i <= |keywords| && i <= |sims|
      invariant results == Paired(keywords[..i], sims)
    {
      if i >= |sims| {
        return Failure(IndexErrorMessage(|sims|));
      }
      results := results + [Scored(keywords[i], sims[i])];
      i := i + 1;
      assert keywords[..i] == keywords[..i - 1] + [keywords[i - 1]];
    }
    assert keywords[..i] == keywords;
    r := Success(results);
  }

  function Keywords(s: seq<Scored>): (r: seq<string>)
    ensures |r| == |s| && forall k :: 0 <= k < |s| ==> r[k] == s[k].keyword
  {
    seq(|s|, k requires 0 <= k < |s| => s[k].keyword)
  }

  lemma KeywordsAppend(a: seq<Scored>, b: seq<Scored>)
    ensures Keywords(a + b) == Keywords(a) + Keywords(b)
  {
  }

  lemma {:induction false} InsertKeywords(x: Scored, t: seq<Scored>)
    ensures multiset(Keywords(Insert(x, t, ScoreOf))) == multiset(Keywords(t)) + multiset{x.keyword}
  {
    if t == [] || ScoreOf(t[0]) <= ScoreOf(x) {
      KeywordsAppend([x], t);
    } else {
      InsertKeywords(x, t[1..]);
      KeywordsAppend([t[0]], Insert(x, t[1..], ScoreOf));
      KeywordsAppend([t[0]], t[1..]);
      assert [t[0]] + t[1..] == t;
    }
  }

  /** Sorting moves the keywords around but keeps every one of them. */
  lemma {:induction false} SortKeepsKeywords(s: seq<Scored>)
    ensures multiset(Keywords(SortDesc(s, ScoreOf))) == multiset(Keywords(s))
  {
    if s != [] {
      var t := SortDesc(s[1..], ScoreOf);
      assert SortDesc(s, ScoreOf) == Insert(s[0], t, ScoreOf);
      assert multiset(Keywords(t)) == multiset(Keywords(s[1..])) by {
        SortKeepsKeywords(s[1..]);
      }
      InsertKeywords(s[0], t);
      assert Keywords(s) == Keywords([s[0]]) + Keywords(s[1..]) by {
        KeywordsAppend([s[0]], s[1..]);
        assert [s[0]] + s[1..] == s;
      }
    }
  }

  /** A successful scoring that reached the similarity step holds every
      keyword exactly as often as the input did, sorted by score from highest
      to lowest, with equal scores kept in input order. */
  lemma ScoredResultsRankKeywords(keywords: seq<string>, description: string,
                                  descApi: nat -> BatchReply, kwApi: nat -> BatchReply,
                                  cosine: (Vector, Vector) -> real, cosineFails: bool)
    requires ScoreSpec(keywords, description, descApi, kwApi, cosine, cosineFails).Success?
    ensures var r := ScoreSpec(keywords, description, descApi, kwApi, cosine, cosineFails).value;
      (r == [] || multiset(Keywords(r)) == multiset(keywords)) && SortedDesc(r, ScoreOf)
  {
    var r := ScoreSpec(keywords, description, descApi, kwApi, cosine, cosineFails).value;
    if keywords != [] && description != [] {
      var pa := EmbeddingArray([description], descApi);
      var ka := EmbeddingArray(keywords, kwApi);
      if pa.Success? && pa.value != [] && ka.Success? && ka.value != [] && !cosineFails && |ka.value| >= |keywords| {
        var pv, kv := pa.value, ka.value;
        var s := Paired(keywords, seq(|kv|, i requires 0 <= i < |kv| => cosine(pv[0], kv[i])));
        assert r == SortDesc(s, ScoreOf);
        SortedPairsKeepKeywords(keywords, s);
      } else if r != [] {
        assert r == ZeroScores(keywords);
        assert Keywords(r) == keywords;
      }
    }
  }

  /** Sorting the keywords' pairs keeps every keyword as often as the input
      has it. */
  lemma SortedPairsKeepKeywords(keywords: seq<string>, pairs: seq<Scored>)
    requires Keywords(pairs) == keywords
    ensures multiset(Keywords(SortDesc(pairs, ScoreOf))) == multiset(keywords)
    ensures SortedDesc(SortDesc(pairs, ScoreOf), ScoreOf)
  {
    SortDescCorrect(pairs, ScoreOf);
    SortKeepsKeywords(pairs);
  }

  /** When the similarity step is reached, the result is the keywords paired
      with their own similarities, each pair kept intact, sorted by score from
      highest to lowest, and pairs with equal scores stay in input order. */
  lemma ScoredPairsRanked(keywords: seq<string>, description: string,
                          descApi: nat -> BatchReply, kwApi: nat -> BatchReply,
                          cosine: (Vector, Vector) -> real)
    requires keywords != [] && description != []
    requires EmbeddingArray([description], descApi).Success? && EmbeddingArray([description], descApi).value != []
    requires EmbeddingArray(keywords, kwApi).Success? && |EmbeddingArray(keywords, kwApi).value| >= |keywords|
    ensures var pv, kv := EmbeddingArray([description], descApi).value, EmbeddingArray(keywords, kwApi).value;
      var pairs := Paired(keywords, seq(|kv|, i requires 0 <= i < |kv| => cosine(pv[0], kv[i])));
      var r := ScoreSpec(keywords, description, descApi, kwApi, cosine, false).value;
      multiset(r) == multiset(pairs) && SortedDesc(r, ScoreOf)
      && forall v :: WithKey(r, ScoreOf, v) == WithKey(pairs, ScoreOf, v)
  {
    var pv, kv := EmbeddingArray([description], descApi).value, EmbeddingArray(keywords, kwApi).value;
    var pairs := Paired(keywords, seq(|kv|, i requires 0 <= i < |kv| => cosine(pv[0], kv[i])));
    assert ScoreSpec(keywords, description, descApi, kwApi, cosine, false) == Success(SortDesc(pairs, ScoreOf));
    SortDescCorrect(pairs, ScoreOf);
  }

  /** A description made only of whitespace is not `""`, so it passes the
      first check, but it embeds to nothing and `[0]` fails: every keyword
      then scores 0.0, in input order. */
  lemma BlankDescriptionScoresZero(keywords: seq<string>, description: string,
                                   descApi: nat -> BatchReply, kwApi: nat -> BatchReply,
                                   cosine: (Vector, Vector) -> real, cosineFails: bool)
    requires keywords != [] && description != [] && AllSpace(description)
    ensures ScoreSpec(keywords, description, descApi, kwApi, cosine, cosineFails) == Success(ZeroScores(keywords))
  {
    BlankTextsEmbedNothing([description], descApi);
  }

  lemma {:induction false} ExactServiceLength(bs: seq<seq<string>>, api: nat -> BatchReply, k: nat)
    requires forall j :: k <= j < k + |bs| ==>
      api(j).Embeddings? && |api(j).vectors| == |Filter(bs[j - k], NonBlank)|
    ensures |EmbedBatches(bs, api, k)| == |Filter(Flatten(bs), NonBlank)|
  {
    if bs != [] {
      assert api(k).Embeddings? && |api(k).vectors| == |Filter(bs[k - k], NonBlank)|;
      forall j | k + 1 <= j < k + 1 + |bs[1..]|
        ensures api(j).Embeddings? && |api(j).vectors| == |Filter(bs[1..][j - (k + 1)], NonBlank)|
      {
        assert bs[1..][j - (k + 1)] == bs[j - k];
      }
      ExactServiceLength(bs[1..], api, k + 1);
      FilterAppend(bs[0], Flatten(bs[1..]), NonBlank);
    }
  }

  /** When the service answers every batch with vectors of
      `EMBEDDING_DIMENSIONS` numbers, the zero vectors of failed batches
      match them and `np.array` succeeds. */
  lemma ServiceDimensionsArray(texts: seq<string>, api: nat -> BatchReply)
    requires forall j, v :: api(j).Embeddings? && v in api(j).vectors ==> |v| == Dimensions
    ensures EmbeddingArray(texts, api).Success?
  {
    EmbedBatchesDimensions(Batches(texts), api, 0);
  }

  lemma {:induction false} EmbedBatchesDimensions(bs: seq<seq<string>>, api: nat -> BatchReply, k: nat)
    requires forall j, v :: api(j).Embeddings? && v in api(j).vectors ==> |v| == Dimensions
    ensures forall v :: v in EmbedBatches(bs, api, k) ==> |v| == Dimensions
  {
    if bs != [] {
      EmbedBatchesDimensions(bs[1..], api, k + 1);
      var added := BatchResult(bs[0], api(k));
      forall v | v in added ensures |v| == Dimensions {
        if !api(k).Embeddings? {
          assert v == Zero();
        }
      }
    }
  }

  /** Keyword vectors of different lengths make `np.array` raise inside
      `get_embedding`; nothing catches it there, so `score_keywords` raises
      numpy's `ValueError`. */
  lemma RaggedKeywordVectorsRaise(keywords: seq<string>, description: string,
                                  descApi: nat -> BatchReply, kwApi: nat -> BatchReply,
                                  cosine: (Vector, Vector) -> real, cosineFails: bool)
    requires keywords != [] && description != []
    requires EmbeddingArray([description], descApi).Success? && EmbeddingArray([description], descApi).value != []
    requires !Rectangular(Embedded(keywords, kwApi))
    ensures ScoreSpec(keywords, description, descApi, kwApi, cosine, cosineFails)
      == Failure(InhomogeneousMessage(|Embedded(keywords, kwApi)|))
  {
  }

  /** A blank keyword is dropped before embedding, so even a service that
      answers every batch with one vector per text it was sent returns fewer
      vectors than there are keywords, and `similarities[i]` raises: one blank
      keyword (next to a description that embeds) makes `score_keywords`
      raise `IndexError` instead of returning scores. */
  lemma BlankKeywordRaises(keywords: seq<string>, description: string,
                           descApi: nat -> BatchReply, kwApi: nat -> BatchReply,
                           cosine: (Vector, Vector) -> real, blank: nat)
    requires blank < |keywords| && !NonBlank(keywords[blank])
    requires description != []
    requires EmbeddingArray([description], descApi).Success? && EmbeddingArray([description], descApi).value != []
    requires forall j :: 0 <= j < |Batches(keywords)| ==>
      kwApi(j).Embeddings? && |kwApi(j).vectors| == |Filter(Batches(keywords)[j], NonBlank)|
    ensures Embedded(keywords, kwApi) != [] ==>
      ScoreSpec(keywords, description, descApi, kwApi, cosine, false).Failure?
  {
    var all := Embedded(keywords, kwApi);
    assert |all| < |keywords| by {
      assert forall j :: 0 <= j < 0 + |Batches(keywords)| ==> Batches(keywords)[j - 0] == Batches(keywords)[j];
      ExactServiceLength(Batches(keywords), kwApi, 0);
      FilterMissesOne(keywords, NonBlank, blank);
    }
    var ka := EmbeddingArray(keywords, kwApi);
    if all != [] && ka.Success? {
      assert ka.value == all;
      assert ScoreSpec(keywords, description, descApi, kwApi, cosine, false)
        == Failure(IndexErrorMessage(|all|));
    }
  }
}
