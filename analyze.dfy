/** The per-keyword analysis (`analyze_keyword_with_ai.py`): search, merge
    the images into a grid, record the reference-product analysis and the
    similarity analysis, and summarise. The search, the merge and the output
    directory are inputs; the two analyses are the placeholders the script
    ships, which ask for an external vision call instead of answering. The
    text of the prompts those placeholders carry is not modelled. */
module AnalyzeKeyword {
  import opened Strings
  import opened ZhipuVision
  import MergeImages
  import Paths

  const NoImagesError: string := "未找到商品图片"
  const MergeError: string := "图片合并失败"
  const McpMessage: string := "需要通过 MCP 调用 zai-mcp-server__analyze_image"
  const PendingMessage: string := "等待 MCP 分析完成"
  const MergedName: string := "merged_grid.jpg"

  /** A placeholder analysis: the image it is about and its message; its
      `analyzed` flag is always false. */
  datatype Placeholder = Placeholder(image: string, message: string)

  /** One entry of `similar_products`. */
  datatype SimilarProduct = SimilarProduct(position: int, similarityScore: real)

  /** The result of the similarity step: still waiting for the vision
      call, or answered. */
  datatype SimilarityAnalysis = Pending(placeholder: Placeholder) | Analyzed(similar: seq<SimilarProduct>, avgSimilarity: real)

  /** `analyze_reference_product`. */
  function AnalyzeReferenceProduct(imagePath: string): (p: Placeholder)
    ensures p.image == imagePath && p.message == McpMessage
  {
    Placeholder(imagePath, McpMessage)
  }

  /** `analyze_merged_grid`: whatever the grid, the answer is pending. */
  function AnalyzeMergedGrid(mergedPath: string): (a: SimilarityAnalysis)
    ensures a.Pending? && a.placeholder == Placeholder(mergedPath, McpMessage)
  {
    Pending(Placeholder(mergedPath, McpMessage))
  }

  datatype GridInfo = GridInfo(totalImages: nat, rows: nat, columns: nat, mergedPath: string)

  datatype SearchStep = SearchFailed | SearchFound(count: nat, urls: seq<string>)
  datatype MergeStep = MergeFailed | Merged(path: string, grid: GridInfo)
  /** The reference step: analysed now (a placeholder) or reused from the
      caller. */
  datatype ReferenceStep = FreshAnalysis(placeholder: Placeholder) | Reused(features: Json)

  datatype Steps = Steps(search: Option<SearchStep>, merge: Option<MergeStep>,
                         reference: Option<ReferenceStep>, similarity: Option<SimilarityAnalysis>)

  /** `result["summary"]`. */
  datatype Summary =
    | SummaryPending(message: string)
    | SummaryDone(totalProducts: nat, matchCount: nat, avgSimilarity: real, maxSimilarity: real,
                  isQualified: bool, threshold: real)

  datatype KeywordResult = KeywordResult(keyword: string, timestamp: string, outputDir: string, steps: Steps,
                                         summary: Option<Summary>, error: Option<string>)

  /** The number of products at or above the threshold. */
  function MatchCount(similar: seq<SimilarProduct>, threshold: real): (c: nat)
    ensures c <= |similar|
  {
    if similar == [] then 0
    else MatchCount(similar[..|similar| - 1], threshold) + (if similar[|similar| - 1].similarityScore >= threshold then 1 else 0)
  }

  /** `max(scores, default=0)`. */
  function MaxSimilarity(similar: seq<SimilarProduct>): (m: real)
    ensures similar == [] ==> m == 0.0
    ensures forall k :: 0 <= k < |similar| ==> similar[k].similarityScore <= m
    ensures similar != [] ==> exists k :: 0 <= k < |similar| && similar[k].similarityScore == m
  {
    if similar == [] then 0.0
    else if |similar| == 1 then similar[0].similarityScore
    else
      var rest := MaxSimilarity(similar[1..]);
      assert forall k :: 1 <= k < |similar| ==> similar[k] == similar[1..][k - 1];
      if similar[0].similarityScore >= rest then similar[0].similarityScore else rest
  }

  /** The summary: pending while the similarity step is, otherwise the
      counts, with a keyword qualifying once two products match. */
  function Summarize(analysis: SimilarityAnalysis, totalProducts: nat, threshold: real): (s: Summary)
    ensures analysis.Pending? ==> s == SummaryPending(PendingMessage)
    ensures analysis.Analyzed? ==>
      s.SummaryDone? && s.totalProducts == totalProducts && s.threshold == threshold
      && s.avgSimilarity == analysis.avgSimilarity
      && s.matchCount == MatchCount(analysis.similar, threshold)
      && s.maxSimilarity == MaxSimilarity(analysis.similar)
      && (s.isQualified <==> s.matchCount >= 2)
  {
    match analysis
    case Pending(_) => SummaryPending(PendingMessage)
    case Analyzed(similar, avg) =>
      var count := MatchCount(similar, threshold);
      SummaryDone(totalProducts, count, avg, MaxSimilarity(similar), count >= 2, threshold)
  }

  /** Counting over a prefix never gives more. */
  lemma {:induction false} MatchCountPrefix(similar: seq<SimilarProduct>, threshold: real, j: nat)
    requires j <= |similar|
    ensures MatchCount(similar[..j], threshold) <= MatchCount(similar, threshold)
    decreases |similar|
  {
    if j < |similar| {
      var init := similar[..|similar| - 1];
      assert init[..j] == similar[..j];
      MatchCountPrefix(init, threshold, j);
    } else {
      assert similar[..j] == similar;
    }
  }

  /** A positive count has a matching product. */
  lemma {:induction false} MatchWitness(similar: seq<SimilarProduct>, threshold: real) returns (i: nat)
    requires MatchCount(similar, threshold) >= 1
    ensures i < |similar| && similar[i].similarityScore >= threshold
    ensures MatchCount(similar[..i], threshold) == MatchCount(similar, threshold) - 1
  {
    var n := |similar|;
    var init := similar[..n - 1];
    if similar[n - 1].similarityScore >= threshold {
      i := n - 1;
    } else {
      i := MatchWitness(init, threshold);
      assert init[..i] == similar[..i];
    }
  }

  /** `is_qualified` holds exactly when two different products reach the
      threshold. */
  lemma Qualified(similar: seq<SimilarProduct>, threshold: real)
    ensures MatchCount(similar, threshold) >= 2 <==>
      exists i, j :: 0 <= i < j < |similar| && similar[i].similarityScore >= threshold
                     && similar[j].similarityScore >= threshold
  {
    if MatchCount(similar, threshold) >= 2 {
      TwoWitnesses(similar, threshold);
    }
    if exists i, j :: 0 <= i < j < |similar| && similar[i].similarityScore >= threshold
                      && similar[j].similarityScore >= threshold {
      var i, j :| 0 <= i < j < |similar| && similar[i].similarityScore >= threshold
                  && similar[j].similarityScore >= threshold;
      TwoMatchesCount(similar, threshold, i, j);
    }
  }

  /** A count of two has two matching products. */
  lemma TwoWitnesses(similar: seq<SimilarProduct>, threshold: real)
    requires MatchCount(similar, threshold) >= 2
    ensures exists i, j :: 0 <= i < j < |similar| && similar[i].similarityScore >= threshold
                           && similar[j].similarityScore >= threshold
  {
    var j := MatchWitness(similar, threshold);
    var i := MatchWitness(similar[..j], threshold);
    assert similar[..j][i] == similar[i];
  }

  /** Two matching products make a count of two. */
  lemma TwoMatchesCount(similar: seq<SimilarProduct>, threshold: real, i: nat, j: nat)
    requires i < j < |similar| && similar[i].similarityScore >= threshold && similar[j].similarityScore >= threshold
    ensures MatchCount(similar, threshold) >= 2
  {
    OneMatchCounts(similar, threshold, j);
    OneMatchCounts(similar[..j], threshold, i);
    assert similar[..j][i] == similar[i];
    assert similar[..j][..i + 1] == similar[..i + 1];
    MatchCountPrefix(similar, threshold, j + 1);
    MatchCountPrefix(similar[..j], threshold, i + 1);
  }

  /** A matching product at `i` adds one to the count of the first `i + 1`. */
  lemma OneMatchCounts(similar: seq<SimilarProduct>, threshold: real, i: nat)
    requires i < |similar| && similar[i].similarityScore >= threshold
    ensures MatchCount(similar[..i + 1], threshold) == MatchCount(similar[..i], threshold) + 1
  {
    assert similar[..i + 1][..i] == similar[..i];
  }

  /** The per-keyword folder name, `f"{safe_keyword}_{timestamp}"`. */
  function FolderName(keyword: string, timestamp: string): (n: string)
    ensures '/' !in timestamp ==> Paths.IsPart(n) && '/' !in n
  {
    var n := SafeName(keyword, 50) + "_" + timestamp;
    assert n[|SafeName(keyword, 50)|] == '_';
    n
  }

  /** `Path(output_dir) / f"{safe_keyword}_{timestamp}"`. */
  function KeywordPath(outputDir: string, keyword: string, timestamp: string): Paths.PurePath {
    Paths.Child(Paths.Parse(outputDir), FolderName(keyword, timestamp))
  }

  /** `str(keyword_dir)`: the output directory as `pathlib` reads it, with the
      folder name as one more part, written back out. */
  function KeywordDir(outputDir: string, keyword: string, timestamp: string): (d: string)
    ensures '/' !in timestamp ==>
      var out, name := Paths.Parse(outputDir), FolderName(keyword, timestamp);
      d == if out.parts == [] then out.root + name else Paths.Normalize(outputDir) + "/" + name
  {
    if '/' !in timestamp then
      Paths.ChildName(Paths.Parse(outputDir), FolderName(keyword, timestamp));
      Paths.Render(KeywordPath(outputDir, keyword, timestamp))
    else
      Paths.Render(KeywordPath(outputDir, keyword, timestamp))
  }

  /** Read back, the keyword folder is the output directory's path with the
      folder name as its last part. */
  lemma KeywordDirParts(outputDir: string, keyword: string, timestamp: string)
    requires '/' !in timestamp
    ensures var out := Paths.Parse(outputDir);
      Paths.Parse(KeywordDir(outputDir, keyword, timestamp))
        == Paths.PurePath(out.root, out.parts + [FolderName(keyword, timestamp)])
  {
    Paths.ChildName(Paths.Parse(outputDir), FolderName(keyword, timestamp));
    Paths.ParseRender(KeywordPath(outputDir, keyword, timestamp));
  }

  /** `str(keyword_dir / "merged_grid.jpg")`: the plain file name is one more
      part of the keyword folder's path (`Paths.ChildName`), so the merged
      image sits directly in that folder. */
  function MergedPath(outputDir: string, keyword: string, timestamp: string): (m: string)
    ensures '/' !in timestamp ==> m == KeywordDir(outputDir, keyword, timestamp) + "/" + MergedName
  {
    var dir := KeywordPath(outputDir, keyword, timestamp);
    if '/' !in timestamp then
      Paths.ChildName(Paths.Parse(outputDir), FolderName(keyword, timestamp));
      assert KeywordDir(outputDir, keyword, timestamp) == Paths.Render(dir);
      Paths.RenderAppend(dir, MergedName);
      Paths.Render(Paths.PurePath(dir.root, dir.parts + [MergedName]))
    else
      Paths.Render(Paths.PurePath(dir.root, dir.parts + [MergedName]))
  }

  /** `merge_images_grid` hands back `str(Path(output_path))`; for the merged
      path this run passes, that is the path itself. */
  lemma MergeReturnsMergedPath(outputDir: string, keyword: string, timestamp: string)
    ensures Paths.Normalize(MergedPath(outputDir, keyword, timestamp)) == MergedPath(outputDir, keyword, timestamp)
  {
    var dir := KeywordPath(outputDir, keyword, timestamp);
    assert '/' !in MergedName && Paths.IsPart(MergedName);
    var p := Paths.PurePath(dir.root, dir.parts + [MergedName]);
    assert Paths.WellFormed(p);
    Paths.ParseRender(p);
  }

  /** An output directory written as `./` and a plain name loses the `./`:
      with the default `./ai_analysis_results` the folder is
      `ai_analysis_results/<keyword>_<timestamp>`. */
  lemma DotPrefixDropped(base: string, keyword: string, timestamp: string)
    requires Paths.IsPart(base) && '/' !in base && '/' !in timestamp
    ensures KeywordDir("./" + base, keyword, timestamp) == base + "/" + FolderName(keyword, timestamp)
  {
    Paths.CurrentDirPrefix(base);
    Paths.ParseName(base);
    assert Paths.Normalize("./" + base) == base;
  }

  /** The weights the scoring criteria of the grid prompt read, in the order
      they read them. */
  const WeightKeys: seq<string> := ["color", "style", "features", "shape"]

  /** `weight * 100` goes through for a number, and also for a boolean, a
      string or a list, which Python repeats; `None` and a dict raise. */
  predicate Scalable(w: Json) {
    !w.JNull? && !w.JObject?
  }

  /** The `AttributeError` of `v.get(...)` on a decoded value that is not a
      dict. */
  function NoGetMessage(v: Json): string
    requires !v.JObject?
  {
    match v
    case JNull => "'NoneType' object has no attribute 'get'"
    case JBool(_) => "'bool' object has no attribute 'get'"
    case JInt(_) => "'int' object has no attribute 'get'"
    case JFloat(_) => "'float' object has no attribute 'get'"
    case JStr(_) => "'str' object has no attribute 'get'"
    case JArray(_) => "'list' object has no attribute 'get'"
  }

  /** The `TypeError` of `w * 100` on a weight that is not `Scalable`. */
  function ScaleMessage(w: Json): string
    requires !Scalable(w)
  {
    if w.JNull? then "unsupported operand type(s) for *: 'NoneType' and 'int'"
    else "unsupported operand type(s) for *: 'dict' and 'int'"
  }

  /** The exception of the first of `keys` whose weight is present and not
      `Scalable`; an absent weight takes its default, a float. */
  function FirstScaleError(weights: map<string, Json>, keys: seq<string>): Option<string> {
    if keys == [] then None
    else if keys[0] in weights && !Scalable(weights[keys[0]]) then Some(ScaleMessage(weights[keys[0]]))
    else FirstScaleError(weights, keys[1..])
  }

  /** What the four scoring-criteria lines of the grid prompt raise on the
      reference features, `reference_features.get('weights', {}).get(key,
      default) * 100`, or `None` when they go through. */
  function WeightsError(features: Json): Option<string> {
    if !features.JObject? then Some(NoGetMessage(features))
    else
      var weights := Get(features.fields, "weights", JObject(map[]));
      if !weights.JObject? then Some(NoGetMessage(weights))
      else FirstScaleError(weights.fields, WeightKeys)
  }

  /** Reference features the grid prompt can be built on: a dict whose
      weights, when given, are a dict whose four weights, where present,
      can be multiplied. */
  predicate PromptReady(features: Json) {
    features.JObject?
    && var weights := Get(features.fields, "weights", JObject(map[]));
       weights.JObject?
       && forall i :: 0 <= i < |WeightKeys| && WeightKeys[i] in weights.fields ==> Scalable(weights.fields[WeightKeys[i]])
  }

  /** The scan goes through exactly when every listed weight that is
      present can be multiplied. */
  lemma {:induction false} FirstScaleErrorNone(weights: map<string, Json>, keys: seq<string>)
    ensures FirstScaleError(weights, keys).None? <==>
      forall i :: 0 <= i < |keys| && keys[i] in weights ==> Scalable(weights[keys[i]])
    decreases |keys|
  {
    if keys != [] {
      FirstScaleErrorNone(weights, keys[1..]);
      assert forall i :: 1 <= i < |keys| ==> keys[i] == keys[1..][i - 1];
    }
  }

  /** A scan that raises does so with the message of the first listed weight
      that is present and cannot be multiplied. */
  lemma {:induction false} FirstScaleErrorFirst(weights: map<string, Json>, keys: seq<string>) returns (i: nat)
    requires FirstScaleError(weights, keys).Some?
    ensures i < |keys| && keys[i] in weights && !Scalable(weights[keys[i]])
    ensures forall j :: 0 <= j < i && keys[j] in weights ==> Scalable(weights[keys[j]])
    ensures FirstScaleError(weights, keys).value == ScaleMessage(weights[keys[i]])
    decreases |keys|
  {
    if keys[0] in weights && !Scalable(weights[keys[0]]) {
      i := 0;
    } else {
      var t := FirstScaleErrorFirst(weights, keys[1..]);
      i := t + 1;
      assert keys[i] == keys[1..][t];
      assert forall j :: 1 <= j < i ==> keys[j] == keys[1..][j - 1];
    }
  }

  /** The grid prompt raises exactly on features that are not `PromptReady`. */
  lemma WeightsErrorExactly(features: Json)
    ensures WeightsError(features).None? <==> PromptReady(features)
  {
    if features.JObject? {
      var weights := Get(features.fields, "weights", JObject(map[]));
      if weights.JObject? {
        FirstScaleErrorNone(weights.fields, WeightKeys);
      }
    }
  }

  /** A weight of `null` stops the run at the colour line, before the other
      weights are read. */
  lemma NullColourRaises(rest: map<string, Json>)
    ensures WeightsError(JObject(map["weights" := JObject(rest["color" := JNull])]))
      == Some("unsupported operand type(s) for *: 'NoneType' and 'int'")
  {
    var w := rest["color" := JNull];
    var features := JObject(map["weights" := JObject(w)]);
    assert Get(features.fields, "weights", JObject(map[])) == JObject(w);
    assert WeightKeys[0] == "color" && "color" in w && !Scalable(w["color"]);
    assert FirstScaleError(w, WeightKeys) == Some(ScaleMessage(JNull));
  }

  /** `reference_analysis is None`: a decoded `null` is Python's `None`, so
      it asks for a fresh analysis as an absent one does. */
  predicate Supplied(referenceAnalysis: Option<Json>) {
    referenceAnalysis.Some? && !referenceAnalysis.value.JNull?
  }

  /** `analyze_keyword_with_ai`: `urls` is what the search returned and
      `merged` what `merge_images_grid` returned. The steps are filled in
      order; a search with nothing and a merge with nothing end the run with
      their error. When both succeed, supplied reference features the grid
      prompt cannot be built on raise (`Failure` with the exception's text);
      otherwise the summary stays pending, as the similarity step is a
      placeholder. */
  method AnalyzeKeywordWithAi(keyword: string, productImage: string, referenceAnalysis: Option<Json>,
                              urls: seq<string>, merged: Option<string>, columns: nat, threshold: real,
                              outputDir: string, timestamp: string)
      returns (r: Result<KeywordResult>)
    requires columns > 0
    ensures r.Success? ==> r.value.keyword == keyword && r.value.timestamp == timestamp
    ensures r.Success? ==> r.value.outputDir == KeywordDir(outputDir, keyword, timestamp)
    ensures urls == [] ==>
      r.Success? && r.value.error == Some(NoImagesError)
      && r.value.steps == Steps(Some(SearchFailed), None, None, None) && r.value.summary == None
    ensures urls != [] && r.Success? ==> r.value.steps.search == Some(SearchFound(|urls|, urls))
    ensures urls != [] && (merged.None? || merged.value == []) ==>
      r.Success? && r.value.error == Some(MergeError) && r.value.steps.merge == Some(MergeFailed)
      && r.value.steps.reference == None && r.value.steps.similarity == None && r.value.summary == None
    ensures urls != [] && merged.Some? && merged.value != [] ==>
      (r.Failure? <==> Supplied(referenceAnalysis) && !PromptReady(referenceAnalysis.value))
    ensures urls != [] && merged.Some? && merged.value != [] && r.Failure? ==>
      Supplied(referenceAnalysis) && WeightsError(referenceAnalysis.value) == Some(r.error)
    ensures urls != [] && merged.Some? && merged.value != [] && r.Success? ==>
      r.value.error == None
      && r.value.steps.merge == Some(Merged(MergedPath(outputDir, keyword, timestamp),
                                      GridInfo(|urls|, MergeImages.Rows(|urls|, columns), columns,
                                               MergedPath(outputDir, keyword, timestamp))))
      && r.value.steps.reference == Some(if Supplied(referenceAnalysis) then Reused(referenceAnalysis.value)
                                         else FreshAnalysis(AnalyzeReferenceProduct(productImage)))
      && r.value.steps.similarity == Some(AnalyzeMergedGrid(MergedPath(outputDir, keyword, timestamp)))
      && r.value.summary == Some(SummaryPending(PendingMessage))
  {
    var dir := KeywordDir(outputDir, keyword, timestamp);
    var res := KeywordResult(keyword, timestamp, dir, Steps(None, None, None, None), None, None);
    if urls == [] {
      res := res.(error := Some(NoImagesError), steps := res.steps.(search := Some(SearchFailed)));
      return Success(res);
    }
    res := res.(steps := res.steps.(search := Some(SearchFound(|urls|, urls))));
    if merged.None? || merged.value == [] {
      res := res.(error := Some(MergeError), steps := res.steps.(merge := Some(MergeFailed)));
      return Success(res);
    }
    var mergedPath := MergedPath(outputDir, keyword, timestamp);
    var rows := MergeImages.Rows(|urls|, columns);  // (len(image_urls) + grid_columns - 1) // grid_columns
    var grid := GridInfo(|urls|, rows, columns, mergedPath);
    res := res.(steps := res.steps.(merge := Some(Merged(mergedPath, grid))));
    r := AnalyzeSteps(res, productImage, referenceAnalysis, mergedPath, |urls|, threshold);
  }

  /** Steps 3 to 5 of `analyze_keyword_with_ai` once the grid is merged: the
      reference step, the similarity step and the summary are added to `res`,
      unless supplied reference features make the grid prompt raise. */
  method AnalyzeSteps(res: KeywordResult, productImage: string, referenceAnalysis: Option<Json>,
                      mergedPath: string, total: nat, threshold: real)
      returns (r: Result<KeywordResult>)
    ensures r.Failure? <==> Supplied(referenceAnalysis) && !PromptReady(referenceAnalysis.value)
    ensures r.Failure? ==> Supplied(referenceAnalysis) && WeightsError(referenceAnalysis.value) == Some(r.error)
    ensures r.Success? ==>
      r.value == res.(steps := res.steps.(reference := Some(if Supplied(referenceAnalysis) then Reused(referenceAnalysis.value)
                                                              else FreshAnalysis(AnalyzeReferenceProduct(productImage))),
                                          similarity := Some(AnalyzeMergedGrid(mergedPath))),
                      summary := Some(SummaryPending(PendingMessage)))
  {
    var out := res;
    if !Supplied(referenceAnalysis) {
      var placeholder := AnalyzeReferenceProduct(productImage);
      out := out.(steps := out.steps.(reference := Some(FreshAnalysis(placeholder))));
    } else {
      out := out.(steps := out.steps.(reference := Some(Reused(referenceAnalysis.value))));
      // the fresh placeholder has no "weights", so only supplied features can raise
      var raised := WeightsError(referenceAnalysis.value);
      WeightsErrorExactly(referenceAnalysis.value);
      if raised.Some? {
        return Failure(raised.value);
      }
    }
    var similarity := AnalyzeMergedGrid(mergedPath);
    out := out.(steps := out.steps.(similarity := Some(similarity)));
    out := out.(summary := Some(Summarize(similarity, total, threshold)));
    return Success(out);
  }

  /** The grid recorded for a merged run has room for every URL, and one
      row fewer would not. */
  lemma GridFitsUrls(n: nat, columns: nat)
    requires columns > 0 && n > 0
    ensures MergeImages.Rows(n, columns) * columns >= n
    ensures (MergeImages.Rows(n, columns) - 1) * columns < n
  {
    MergeImages.RowsCeil(n, columns);
  }
}
