/** What the two standalone threshold filters (`demo_zhipu_filter.py` and
    `scripts/auto_filter_with_ai.py`) have in common: loading the keyword
    column, embedding in batches of 64 where the first failed batch ends the
    run, ranking the keywords by similarity to the product description and
    keeping those at or above a fixed threshold. As in ZhipuScoring, the
    embedding service answers by batch number and the cosine similarity is an
    input; scores and the statistics over them are exact reals. */
module ThresholdFilter {
  import opened Strings
  import opened Sorting
  import opened Frames
  import opened ZhipuScoring

  /** Why a run stopped: the exceptions that end the two scripts. */
  datatype Reason =
    | FileMissing           // the Excel path does not exist
    | ColumnMissing         // the keyword column is not in the sheet
    | ColumnRepeated        // the label names several columns, so `.str` is unavailable
    | NotText               // the column holds no text, so `.str` raises `AttributeError`
    | ApiFailed(code: int)  // a reply with a status other than 200
    | NoData                // a reply without `"data"`
    | RequestRaised         // the request itself raised
    | NoProductVector       // `get_embedding([description])[0]` on an empty result
    | SimilarityFailed      // `cosine_similarity` raised (no keyword vectors, shapes differ)

  datatype Attempt<+T> = Done(value: T) | Stopped(reason: Reason)

  predicate NonEmpty(s: string) { s != [] }

  /** The text of the text cells, in column order. */
  function Texts(cells: seq<Cell>): (r: seq<string>)
    ensures |r| <= |cells|
    ensures forall t :: t in r ==> Text(t) in cells
    ensures forall k :: 0 <= k < |cells| && cells[k].Text? ==> cells[k].s in r
  {
    if cells == [] then []
    else
      var rest := Texts(cells[1..]);
      assert forall k :: 0 < k < |cells| ==> cells[k] == cells[1..][k - 1];
      (if cells[0].Text? then [cells[0].s] else []) + rest
  }

  predicate HasText(cells: seq<Cell>) {
    exists k :: 0 <= k < |cells| && cells[k].Text?
  }

  /** pandas reads the column as text (`object` dtype), so that `.str` is
      available: the sheet has no rows below its header, or the column holds
      some text. A column of numbers or blanks only is numeric. */
  predicate ReadsAsText(cells: seq<Cell>) {
    cells == [] || HasText(cells)
  }

  /** `df[column].dropna().str.strip().tolist()` without the empty strings,
      on a column that holds some text. */
  function CleanKeywords(cells: seq<Cell>): seq<string> {
    Filter(StripEach(Texts(cells)), NonEmpty)
  }

  /** `load_keywords_from_excel`: `fileExists` says whether the file is there and
      `f` is the sheet `pd.read_excel` returns. A column with rows but without
      any text, all numbers or all blanks, is read as a numeric column, on
      which `.str` raises; a sheet with only its header loads no keywords. */
  function LoadKeywords(fileExists: bool, f: Frame, column: string): (r: Attempt<seq<string>>)
    ensures r.Done? <==> fileExists && CountNamed(f, column) == 1 && ReadsAsText(f[Locate(f, column).value].cells)
    ensures !fileExists ==> r == Stopped(FileMissing)
    ensures fileExists && CountNamed(f, column) == 0 ==> r == Stopped(ColumnMissing)
    ensures fileExists && CountNamed(f, column) > 1 ==> r == Stopped(ColumnRepeated)
    ensures fileExists && CountNamed(f, column) == 1 && !ReadsAsText(f[Locate(f, column).value].cells) ==>
      r == Stopped(NotText)
    ensures fileExists && CountNamed(f, column) == 1 && f[Locate(f, column).value].cells == [] ==>
      r == Done([])
  {
    if !fileExists then Stopped(FileMissing)
    else if CountNamed(f, column) == 0 then Stopped(ColumnMissing)
    else
      match Locate(f, column)
      case None => Stopped(ColumnRepeated)
      case Some(i) => if ReadsAsText(f[i].cells) then Done(CleanKeywords(f[i].cells)) else Stopped(NotText)
  }

  /** Every loaded keyword is non-empty and already stripped and is the
      stripped text of some text cell, there are no more of them than cells,
      and every text cell that is not all whitespace contributes its stripped
      text. */
  lemma LoadedKeywordsClean(cells: seq<Cell>)
    ensures |CleanKeywords(cells)| <= |cells|
    ensures forall kw :: kw in CleanKeywords(cells) ==>
      kw != [] && Strip(kw) == kw && exists k :: 0 <= k < |cells| && cells[k].Text? && kw == Strip(cells[k].s)
    ensures forall k :: 0 <= k < |cells| && cells[k].Text? && !AllSpace(cells[k].s) ==>
      Strip(cells[k].s) in CleanKeywords(cells)
  {
    forall kw | kw in CleanKeywords(cells)
      ensures kw != [] && Strip(kw) == kw && exists k :: 0 <= k < |cells| && cells[k].Text? && kw == Strip(cells[k].s)
    {
      KeywordFromText(cells, kw);
    }
    forall k | 0 <= k < |cells| && cells[k].Text? && !AllSpace(cells[k].s)
      ensures Strip(cells[k].s) in CleanKeywords(cells)
    {
      TextCellKept(cells, k);
    }
  }

  lemma KeywordFromText(cells: seq<Cell>, kw: string)
    requires kw in CleanKeywords(cells)
    ensures kw != [] && Strip(kw) == kw
    ensures exists k :: 0 <= k < |cells| && cells[k].Text? && kw == Strip(cells[k].s)
  {
    KeywordHasSource(Texts(cells), kw);
    var t :| t in Texts(cells) && kw == Strip(t);
    StripIdempotent(t);
    assert Text(t) in cells;
    var k :| 0 <= k < |cells| && cells[k] == Text(t);
    assert cells[k].Text? && kw == Strip(cells[k].s);
  }

  lemma KeywordHasSource(texts: seq<string>, kw: string)
    requires kw in Filter(StripEach(texts), NonEmpty)
    ensures kw != []
    ensures exists t :: t in texts && kw == Strip(t)
  {
    var stripped := StripEach(texts);
    FilterMembers(stripped, NonEmpty);
    var j :| 0 <= j < |stripped| && stripped[j] == kw;
    assert texts[j] in texts && kw == Strip(texts[j]);
  }

  lemma TextCellKept(cells: seq<Cell>, k: nat)
    requires k < |cells| && cells[k].Text? && !AllSpace(cells[k].s)
    ensures Strip(cells[k].s) in CleanKeywords(cells)
  {
    var texts := Texts(cells);
    var stripped := StripEach(texts);
    var t := cells[k].s;
    assert t in texts;
    var j :| 0 <= j < |texts| && texts[j] == t;
    assert stripped[j] == Strip(t);
    assert Strip(t) in stripped;
    assert NonEmpty(Strip(t));
    FilterMembers(stripped, NonEmpty);
  }

  /** The exception a batch reply other than the vectors raises. */
  function FailureOf(reply: BatchReply): Reason
    requires !reply.Embeddings?
  {
    match reply
    case HttpError(code) => ApiFailed(code)
    case MissingData => NoData
    case Raised => RequestRaised
  }

  /** Vectors already gathered followed by what the rest of the run yields. */
  function Then(done: seq<Vector>, later: Attempt<seq<Vector>>): Attempt<seq<Vector>> {
    match later
    case Done(vs) => Done(done + vs)
    case Stopped(e) => Stopped(e)
  }

  lemma ThenNothing(x: Attempt<seq<Vector>>)
    ensures Then([], x) == x
  {
    if x.Done? {
      assert [] + x.value == x.value;
    }
  }

  lemma ThenAssoc(a: seq<Vector>, b: seq<Vector>, x: Attempt<seq<Vector>>)
    ensures Then(a + b, x) == Then(a, Then(b, x))
  {
    if x.Done? {
      assert (a + b) + x.value == a + (b + x.value);
    }
  }

  /** The batches numbered from `k` on, up to the first failure. */
  function FetchBatches(bs: seq<seq<string>>, api: nat -> BatchReply, k: nat): Attempt<seq<Vector>>
    decreases |bs|
  {
    if bs == [] then Done([])
    else if !api(k).Embeddings? then Stopped(FailureOf(api(k)))
    else Then(api(k).vectors, FetchBatches(bs[1..], api, k + 1))
  }

  /** What `get_embedding(texts)` returns or raises; `api(k)` answers batch
      `k` (from 0). Unlike ZhipuScoring, blank texts are sent as they are and
      nothing is zero-filled. */
  function Fetch(texts: seq<string>, api: nat -> BatchReply): Attempt<seq<Vector>> {
    FetchBatches(Batches(texts), api, 0)
  }

  /** The vectors of the replies numbered `k` to `k + n - 1`, in order. */
  function Replies(api: nat -> BatchReply, k: nat, n: nat): seq<Vector>
    decreases n
  {
    if n == 0 then []
    else (if api(k).Embeddings? then api(k).vectors else []) + Replies(api, k + 1, n - 1)
  }

  /** The run goes through exactly when every batch got its vectors, and then
      yields all of them in batch order. */
  lemma {:induction false} FetchBatchesSucceed(bs: seq<seq<string>>, api: nat -> BatchReply, k: nat)
    ensures FetchBatches(bs, api, k).Done? <==> forall j :: k <= j < k + |bs| ==> api(j).Embeddings?
    ensures FetchBatches(bs, api, k).Done? ==> FetchBatches(bs, api, k).value == Replies(api, k, |bs|)
    decreases |bs|
  {
    if bs != [] {
      FetchBatchesSucceed(bs[1..], api, k + 1);
    }
  }

  /** A stopped run stopped at the first failing batch, with its error. */
  lemma {:induction false} FetchBatchesFirstFailure(bs: seq<seq<string>>, api: nat -> BatchReply, k: nat) returns (j: nat)
    requires FetchBatches(bs, api, k).Stopped?
    ensures k <= j < k + |bs| && !api(j).Embeddings?
    ensures forall i :: k <= i < j ==> api(i).Embeddings?
    ensures FetchBatches(bs, api, k).reason == FailureOf(api(j))
    decreases |bs|
  {
    if !api(k).Embeddings? {
      j := k;
    } else {
      j := FetchBatchesFirstFailure(bs[1..], api, k + 1);
    }
  }

  /** `get_embedding` succeeds exactly when every one of its batches does,
      with the vectors of all replies in order; otherwise it raises the error
      of the first failing batch. */
  lemma FetchOutcome(texts: seq<string>, api: nat -> BatchReply)
    ensures var n := |Batches(texts)|;
      (Fetch(texts, api).Done? <==> forall j :: 0 <= j < n ==> api(j).Embeddings?)
      && (Fetch(texts, api).Done? ==> Fetch(texts, api).value == Replies(api, 0, n))
      && (Fetch(texts, api).Stopped? ==>
            exists j :: 0 <= j < n && !api(j).Embeddings? && (forall i :: 0 <= i < j ==> api(i).Embeddings?)
                        && Fetch(texts, api).reason == FailureOf(api(j)))
  {
    FetchBatchesSucceed(Batches(texts), api, 0);
    if Fetch(texts, api).Stopped? {
      var j := FetchBatchesFirstFailure(Batches(texts), api, 0);
    }
  }

  /** No texts, no requests: the result is empty whatever the service says. */
  lemma FetchNothing(api: nat -> BatchReply)
    ensures Fetch([], api) == Done([])
  {
    assert Batches([]) == [];
  }

  lemma BatchesStep(texts: seq<string>, i: nat)
    requires i < |texts|
    ensures Batches(Rest(texts, i))
      == [texts[i..if i + BatchSize <= |texts| then i + BatchSize else |texts|]] + Batches(Rest(texts, i + BatchSize))
  {
    var end := if i + BatchSize <= |texts| then i + BatchSize else |texts|;
    var bs := Batches(texts[i..]);
    if |texts[i..]| > BatchSize {
      assert texts[i..][BatchSize..] == texts[i + BatchSize..];
      assert texts[i..][..BatchSize] == texts[i..end];
    } else {
      assert texts[i..] == texts[i..end];
      assert Rest(texts, i + BatchSize) == [];
    }
  }

  /** `get_embedding`: the loop over batch offsets extending
      `all_embeddings`, raising on the first reply that is not the vectors. */
  method GetEmbedding(texts: seq<string>, api: nat -> BatchReply) returns (r: Attempt<seq<Vector>>)
    ensures r == Fetch(texts, api)
  {
    var all: seq<Vector> := [];
    var i: nat := 0;
    var k: nat := 0;  // the batch number `i // BATCH_SIZE`
    assert Rest(texts, 0) == texts;
    ThenNothing(Fetch(texts, api));
    while i < |texts|
      invariant Then(all, FetchBatches(Batches(Rest(texts, i)), api, k)) == Fetch(texts, api)
      decreases |texts| - i
    {
      var reply := api(k);
      BatchesStep(texts, i);
      if !reply.Embeddings? {
        return Stopped(FailureOf(reply));
      }
      var bs := Batches(Rest(texts, i));
      var later := FetchBatches(Batches(Rest(texts, i + BatchSize)), api, k + 1);
      assert bs[1..] == Batches(Rest(texts, i + BatchSize));
      assert FetchBatches(bs, api, k) == Then(reply.vectors, later);
      ThenAssoc(all, reply.vectors, later);
      all := all + reply.vectors;
      i := i + BatchSize;
      k := k + 1;
    }
    assert Batches(Rest(texts, i)) == [];
    assert all + [] == all;
    return Done(all);
  }

  /** `list(zip(keywords, similarities))`: as long as the shorter one. */
  function Zip(keywords: seq<string>, sims: seq<real>): (r: seq<Scored>)
    ensures |r| == if |keywords| <= |sims| then |keywords| else |sims|
    ensures forall k :: 0 <= k < |r| ==> r[k] == Scored(keywords[k], sims[k])
  {
    var n := if |keywords| <= |sims| then |keywords| else |sims|;
    seq(n, k requires 0 <= k < n => Scored(keywords[k], sims[k]))
  }

  /** `cosine_similarity([product_vec], keyword_vecs)[0]`. */
  function Similarities(pv: Vector, kv: seq<Vector>, cosine: (Vector, Vector) -> real): (r: seq<real>)
    ensures |r| == |kv| && forall k :: 0 <= k < |kv| ==> r[k] == cosine(pv, kv[k])
  {
    seq(|kv|, k requires 0 <= k < |kv| => cosine(pv, kv[k]))
  }

  /** `score >= threshold`. */
  function Passes(threshold: real): Scored -> bool {
    (x: Scored) => x.score >= threshold
  }

  function Sum(s: seq<real>): real {
    if s == [] then 0.0 else Sum(s[..|s| - 1]) + s[|s| - 1]
  }

  /** `similarities.max()`. */
  function Max(s: seq<real>): (m: real)
    requires s != []
    ensures forall k :: 0 <= k < |s| ==> s[k] <= m
    ensures exists k :: 0 <= k < |s| && s[k] == m
  {
    if |s| == 1 then s[0]
    else
      var rest := Max(s[1..]);
      assert forall k :: 1 <= k < |s| ==> s[k] == s[1..][k - 1];
      if s[0] >= rest then s[0] else rest
  }

  /** `similarities.min()`. */
  function Min(s: seq<real>): (m: real)
    requires s != []
    ensures forall k :: 0 <= k < |s| ==> m <= s[k]
    ensures exists k :: 0 <= k < |s| && s[k] == m
  {
    if |s| == 1 then s[0]
    else
      var rest := Min(s[1..]);
      assert forall k :: 1 <= k < |s| ==> s[k] == s[1..][k - 1];
      if s[0] <= rest then s[0] else rest
  }

  /** `{kw: float(score) for kw, score in keyword_scores}`: a later pair
      overrides an earlier one with the same keyword. */
  function ScoreMap(s: seq<Scored>): (m: map<string, real>)
    ensures forall w :: w in m <==> exists i :: 0 <= i < |s| && s[i].keyword == w
  {
    if s == [] then map[]
    else
      var x := s[|s| - 1];
      assert forall i :: 0 <= i < |s| - 1 ==> s[..|s| - 1][i] == s[i];
      ScoreMap(s[..|s| - 1])[x.keyword := x.score]
  }

  /** The map gives each keyword the score of its last pair. */
  lemma {:induction false} ScoreMapLast(s: seq<Scored>, j: nat)
    requires j < |s| && forall i :: j < i < |s| ==> s[i].keyword != s[j].keyword
    ensures ScoreMap(s)[s[j].keyword] == s[j].score
  {
    if j < |s| - 1 {
      assert s[..|s| - 1][j] == s[j];
      assert forall i :: j < i < |s| - 1 ==> s[..|s| - 1][i] == s[i];
      ScoreMapLast(s[..|s| - 1], j);
    }
  }

  /** The `stats` dict; the rates and the mean are exact. */
  datatype Stats = Stats(total: nat, filtered: nat, removed: int, filterRate: real, passRate: real,
                         avgScore: real, maxScore: real, minScore: real, threshold: real)

  /** The result dict: `filtered_keywords`, `all_scores`, the ranked pairs
      (`top_keywords` in one script, `ranked_keywords` in the other) and
      `stats`. */
  datatype Report = Report(filteredKeywords: seq<string>, allScores: map<string, real>,
                           ranked: seq<Scored>, stats: Stats)

  /** Ranking, filtering and statistics once the similarities are known. */
  function ReportOf(keywords: seq<string>, sims: seq<real>, threshold: real): Report
    requires keywords != [] && sims != []
  {
    var ranked := SortDesc(Zip(keywords, sims), ScoreOf);
    var passed := Filter(ranked, Passes(threshold));
    Report(Keywords(passed), ScoreMap(ranked), ranked, StatsOf(|keywords|, |passed|, sims, threshold))
  }

  /** The `stats` dict for `total` keywords of which `passed` pass. */
  function StatsOf(total: nat, passed: nat, sims: seq<real>, threshold: real): Stats
    requires total > 0 && sims != []
  {
    var n := total as real;
    var f := passed as real;
    Stats(total, passed, total - passed, 1.0 - f / n, f / n,
          Sum(sims) / (|sims| as real), Max(sims), Min(sims), threshold)
  }

  /** What `filter_keywords` (and `filter_keywords_with_zhipu`) return or
      raise: `descApi` and `kwApi` answer the two `get_embedding` calls and
      `cosineFails` says whether `cosine_similarity` raises on the vectors. */
  function FilterSpec(keywords: seq<string>, description: string, threshold: real,
                      descApi: nat -> BatchReply, kwApi: nat -> BatchReply,
                      cosine: (Vector, Vector) -> real, cosineFails: bool): Attempt<Report>
  {
    match Fetch([description], descApi)
    case Stopped(e) => Stopped(e)
    case Done(pv) =>
      if pv == [] then Stopped(NoProductVector)
      else
        match Fetch(keywords, kwApi)
        case Stopped(e) => Stopped(e)
        case Done(kv) =>
          if kv == [] || cosineFails then Stopped(SimilarityFailed)
          else
            FetchNothing(kwApi);
            Done(ReportOf(keywords, Similarities(pv[0], kv, cosine), threshold))
  }

  /** `filter_keywords`: the two embedding calls, the similarities, and the
      in-place sort followed by the comprehensions. */
  method FilterKeywords(keywords: seq<string>, description: string, threshold: real,
                        descApi: nat -> BatchReply, kwApi: nat -> BatchReply,
                        cosine: (Vector, Vector) -> real, cosineFails: bool)
    returns (r: Attempt<Report>)
    ensures r == FilterSpec(keywords, description, threshold, descApi, kwApi, cosine, cosineFails)
  {
    var pv := GetEmbedding([description], descApi);
    if pv.Stopped? {
      return Stopped(pv.reason);
    }
    if pv.value == [] {
      return Stopped(NoProductVector);
    }
    var kv := GetEmbedding(keywords, kwApi);
    if kv.Stopped? {
      return Stopped(kv.reason);
    }
    if kv.value == [] || cosineFails {
      return Stopped(SimilarityFailed);
    }
    FetchNothing(kwApi);
    var sims := Similarities(pv.value[0], kv.value, cosine);
    var keywordScores := SortDesc(Zip(keywords, sims), ScoreOf);
    var filtered := Filter(keywordScores, Passes(threshold));
    var stats := StatsOf(|keywords|, |filtered|, sims, threshold);
    r := Done(Report(Keywords(filtered), ScoreMap(keywordScores), keywordScores, stats));
  }

  /** In a list sorted by score, the pairs at or above the threshold are a
      prefix. */
  lemma {:induction false} PassingPrefix(s: seq<Scored>, threshold: real)
    requires SortedDesc(s, ScoreOf)
    ensures var n := |Filter(s, Passes(threshold))|;
      Filter(s, Passes(threshold)) == s[..n]
      && (forall k :: 0 <= k < n ==> s[k].score >= threshold)
      && (forall k :: n <= k < |s| ==> s[k].score < threshold)
  {
    if s != [] {
      assert SortedDesc(s[1..], ScoreOf);
      PassingPrefix(s[1..], threshold);
      if s[0].score < threshold {
        assert forall k :: 0 <= k < |s| ==> !Passes(threshold)(s[k]) by {
          forall k | 0 <= k < |s| ensures s[k].score < threshold {
            assert ScoreOf(s[0]) >= ScoreOf(s[k]) || k == 0;
          }
        }
        FilterNone(s, Passes(threshold));
      } else {
        var m := |Filter(s[1..], Passes(threshold))|;
        assert Filter(s, Passes(threshold)) == [s[0]] + s[1..][..m];
        assert [s[0]] + s[1..][..m] == s[..m + 1];
      }
    }
  }

  /** A sum is bounded by its length times a lower and an upper bound of its
      terms. */
  lemma {:induction false} SumBounds(s: seq<real>, lo: real, hi: real)
    requires forall k :: 0 <= k < |s| ==> lo <= s[k] <= hi
    ensures lo * (|s| as real) <= Sum(s) <= hi * (|s| as real)
  {
    if s != [] {
      var init := s[..|s| - 1];
      assert forall k :: 0 <= k < |init| ==> init[k] == s[k];
      SumBounds(init, lo, hi);
      assert lo * (|s| as real) == lo * (|init| as real) + lo;
      assert hi * (|s| as real) == hi * (|init| as real) + hi;
    }
  }

  /** A successful filter ranks every zipped pair from the highest score to
      the lowest, keeping input order among equal scores; its filtered
      keywords are exactly the ranked pairs with `score >= threshold`, which
      form a prefix of the ranking; and its counts add up:
      `filtered + removed == total == len(keywords)`. */
  lemma FilterReportCorrect(keywords: seq<string>, description: string, threshold: real,
                            descApi: nat -> BatchReply, kwApi: nat -> BatchReply,
                            cosine: (Vector, Vector) -> real, cosineFails: bool)
    requires FilterSpec(keywords, description, threshold, descApi, kwApi, cosine, cosineFails).Done?
    ensures var rep := FilterSpec(keywords, description, threshold, descApi, kwApi, cosine, cosineFails).value;
      var p := rep.stats.filtered;
      var z := Zip(keywords, Similarities(Fetch([description], descApi).value[0], Fetch(keywords, kwApi).value, cosine));
      SortedDesc(rep.ranked, ScoreOf) && multiset(rep.ranked) == multiset(z)
      && (forall v :: WithKey(rep.ranked, ScoreOf, v) == WithKey(z, ScoreOf, v))
      && p <= |rep.ranked| && rep.filteredKeywords == Keywords(rep.ranked[..p])
      && (forall k :: 0 <= k < |rep.ranked| ==> (k < p <==> rep.ranked[k].score >= threshold))
      && rep.stats.total == |keywords| && rep.stats.filtered + rep.stats.removed == rep.stats.total
      && 0 <= rep.stats.removed && rep.stats.threshold == threshold
  {
    var rep := FilterSpec(keywords, description, threshold, descApi, kwApi, cosine, cosineFails).value;
    var pv := Fetch([description], descApi).value;
    var kv := Fetch(keywords, kwApi).value;
    FetchNothing(kwApi);
    var z := Zip(keywords, Similarities(pv[0], kv, cosine));
    SortDescCorrect(z, ScoreOf);
    PassingPrefix(rep.ranked, threshold);
  }

  /** The statistics: the mean lies between the minimum and the
      maximum, each of which is one of the similarities, and the pass and
      filter rates add up to one. */
  lemma StatsBounds(total: nat, passed: nat, sims: seq<real>, threshold: real)
    requires total > 0 && sims != []
    ensures var st := StatsOf(total, passed, sims, threshold);
      st.minScore <= st.avgScore <= st.maxScore
      && (exists k :: 0 <= k < |sims| && sims[k] == st.maxScore)
      && (exists k :: 0 <= k < |sims| && sims[k] == st.minScore)
      && st.passRate + st.filterRate == 1.0
  {
    MeanBounds(sims);
    RatesAddUp(passed as real / total as real);
  }

  /** The mean of the similarities lies between their minimum and maximum. */
  lemma MeanBounds(sims: seq<real>)
    requires sims != []
    ensures Min(sims) <= Sum(sims) / (|sims| as real) <= Max(sims)
  {
    MeanBetween(sims, Min(sims), Max(sims));
  }

  /** Values between two bounds have their mean between them. */
  lemma MeanBetween(sims: seq<real>, lo: real, hi: real)
    requires sims != [] && forall k :: 0 <= k < |sims| ==> lo <= sims[k] <= hi
    ensures lo <= Sum(sims) / (|sims| as real) <= hi
  {
    SumBounds(sims, lo, hi);
    DivBounds(lo, Sum(sims), hi, |sims| as real);
  }

  /** The filter rate is what the pass rate leaves of one. */
  lemma RatesAddUp(f: real)
    ensures (1.0 - f) + f == 1.0
  {
  }

  lemma DivBounds(lo: real, s: real, hi: real, n: real)
    requires n > 0.0 && lo * n <= s <= hi * n
    ensures lo <= s / n <= hi
  {
  }

  /** An empty keyword list never reaches the rates, so nothing divides by
      zero: the run raises in the similarity step or before, and once the
      description has its vector it is `cosine_similarity` on an empty array
      that raises. */
  lemma NoKeywordsStops(description: string, threshold: real,
                        descApi: nat -> BatchReply, kwApi: nat -> BatchReply,
                        cosine: (Vector, Vector) -> real, cosineFails: bool)
    ensures FilterSpec([], description, threshold, descApi, kwApi, cosine, cosineFails).Stopped?
    ensures Fetch([description], descApi).Done? && Fetch([description], descApi).value != [] ==>
      FilterSpec([], description, threshold, descApi, kwApi, cosine, cosineFails) == Stopped(SimilarityFailed)
  {
    FetchNothing(kwApi);
  }

  /** In `all_scores` each ranked keyword maps to the score of its last
      ranked pair, and no other keyword appears. */
  lemma AllScoresLastWins(ranked: seq<Scored>, w: string, j: nat)
    requires j < |ranked| && ranked[j].keyword == w
    requires forall i :: j < i < |ranked| ==> ranked[i].keyword != w
    ensures w in ScoreMap(ranked) && ScoreMap(ranked)[w] == ranked[j].score
  {
    ScoreMapLast(ranked, j);
  }

  /** The labels of the two columns both scripts add to the sheet they write. */
  const ScoreColumnName: string := "相似度得分"
  const StatusColumnName: string := "状态"

  /** A column of the sheet being written: one read from the file, the
      scores (`NaN` as `None`) or the status labels. */
  datatype SheetColumn =
    | Kept(column: Column)
    | Scores(title: string, values: seq<Option<real>>)
    | Labels(title: string, texts: seq<string>)
  {
    function Name(): string {
      match this
      case Kept(c) => c.name
      case Scores(n, _) => n
      case Labels(n, _) => n
    }
  }

  function SheetNames(s: seq<SheetColumn>): (r: seq<string>)
    ensures |r| == |s| && forall k :: 0 <= k < |s| ==> r[k] == s[k].Name()
  {
    seq(|s|, k requires 0 <= k < |s| => s[k].Name())
  }

  /** The sheet as read. */
  function Sheet(f: Frame): (r: seq<SheetColumn>)
    ensures |r| == |f| && forall k :: 0 <= k < |f| ==> r[k] == Kept(f[k])
    ensures SheetNames(r) == Names(f)
  {
    seq(|f|, k requires 0 <= k < |f| => Kept(f[k]))
  }

  /** `df[label] = values`: every column already carrying the label takes the
      new values where it stands; a new label goes at the end. */
  function SetColumn(s: seq<SheetColumn>, c: SheetColumn): (r: seq<SheetColumn>)
    ensures SheetNames(r) == if c.Name() in SheetNames(s) then SheetNames(s) else SheetNames(s) + [c.Name()]
    ensures forall k :: 0 <= k < |r| && r[k].Name() == c.Name() ==> r[k] == c
    ensures forall k :: 0 <= k < |s| && s[k].Name() != c.Name() ==> r[k] == s[k]
    ensures c in r
  {
    if c.Name() in SheetNames(s) then
      var k :| 0 <= k < |s| && SheetNames(s)[k] == c.Name();
      var r := seq(|s|, j requires 0 <= j < |s| => if s[j].Name() == c.Name() then c else s[j]);
      assert r[k] == c;
      r
    else
      s + [c]
  }
  /** Setting two differently labelled columns leaves both in the sheet,
      with their labels, and the first is still the only column with its
      label. */
  lemma SetBoth(s: seq<SheetColumn>, c: SheetColumn, d: SheetColumn)
    requires c.Name() != d.Name()
    ensures var r := SetColumn(SetColumn(s, c), d);
      && c in r && d in r
      && c.Name() in SheetNames(r) && d.Name() in SheetNames(r)
      && (forall k :: 0 <= k < |r| && r[k].Name() == c.Name() ==> r[k] == c)
  {
    var s1 := SetColumn(s, c);
    var r := SetColumn(s1, d);
    var j :| 0 <= j < |s1| && s1[j] == c;
    assert r[j] == c;
    var jd :| 0 <= jd < |r| && r[jd] == d;
    assert SheetNames(r)[j] == c.Name() && SheetNames(r)[jd] == d.Name();
    forall k | 0 <= k < |r| && r[k].Name() == c.Name() ensures r[k] == c {
      assert r[k] == s1[k];
    }
  }


  /** `all_scores.get(x, np.nan)` for a cell of the keyword column: only a
      text cell can be a key of the map. */
  function ScoreFor(c: Cell, scores: map<string, real>): (r: Option<real>)
    ensures r.Some? <==> c.Text? && c.s in scores
    ensures r.Some? ==> r.value == scores[c.s]
  {
    match c
    case Text(s) => if s in scores then Some(scores[s]) else None
    case _ => None
  }

  /** `df[keyword_column].map(lambda x: all_scores.get(x, np.nan))`. */
  function CellScores(cells: seq<Cell>, scores: map<string, real>): (r: seq<Option<real>>)
    ensures |r| == |cells| && forall k :: 0 <= k < |cells| ==> r[k] == ScoreFor(cells[k], scores)
  {
    seq(|cells|, k requires 0 <= k < |cells| => ScoreFor(cells[k], scores))
  }

  /** The output name `f"{name}{suffix}{ext}"` with `name, ext =
      os.path.splitext(path)`. */
  function OutputName(path: string, suffix: string): (r: string)
    ensures |r| == |path| + |suffix|
    ensures StartsWith(r, SplitExt(path).0 + suffix)
  {
    SplitExt(path).0 + suffix + SplitExt(path).1
  }

  /** For an ordinary `stem.ext` name the suffix goes between stem and
      extension. */
  lemma OutputNameAt(stem: string, ext: string, suffix: string)
    requires stem != [] && stem[|stem| - 1] != '.' && stem[|stem| - 1] != '/'
    requires forall k :: 0 <= k < |ext| ==> ext[k] != '.' && ext[k] != '/'
    ensures OutputName(stem + "." + ext, suffix) == stem + suffix + "." + ext
  {
    SplitExtAt(stem, ext);
  }
}
