/** The triage engine (`WorkflowEngine`): it scores the uploaded keywords,
    splits them into three queues, lets a reviewer walk the manual queue,
    verifies the automatic queue against product images and exports the
    results onto the uploaded sheet. Each public method of the source holds
    one lock for its whole body, so each is one atomic step here. Threads,
    the browser and files are not modelled: what the scorer, the browser,
    the image search, the collage and the vision reply produced is an
    input. */
module WorkflowEngine {
  import opened Strings
  import opened Sorting
  import opened Frames
  import opened ZhipuVision
  import opened ZhipuScoring
  import opened WorkflowQueues
  import opened WorkflowVerification
  import opened WorkflowExport

  datatype ActionResult = ActionError(error: string) | ActionDone(nextIndex: nat)
  datatype NavigateResult = NavigateError(error: string) | NavigateDone
  datatype StartResult = Started(count: nat) | NoItems

  /** `get_status`'s dict. */
  datatype StatusView = StatusView(status: Message, progress: nat, manualCount: nat, autoCount: nat,
                                   excludedCount: nat, manualPending: nat, currentIndex: nat,
                                   currentKeyword: Option<Item>, verifiedKeep: nat, verifiedDrop: nat)

  /** The status messages the engine shows; `Text` is the string the
      source formats for each. */
  datatype Message =
    | Idle
    | ScoringInProgress
    | ScoringError(error: string)
    | AwaitingVerification
    | ScoringComplete(manual: nat, excluded: nat)
    | QueuesConfigured(manual: nat)
    | BrowserReady
    | BrowserFailed(error: string)
    | ReviewComplete
    | StartingVerification
  {
    function Text(): string {
      match this
      case Idle => "Idle"
      case ScoringInProgress => "AI Scoring in progress..."
      case ScoringError(e) => "Error during scoring: " + e
      case AwaitingVerification => "Scoring Complete. Waiting for Review to start Verification..."
      case ScoringComplete(m, e) =>
        "Scoring Complete. Manual: " + NatToString(m) + ", Auto: 0, Excl: " + NatToString(e)
      case QueuesConfigured(m) => "Queues Configured. Manual Review: " + NatToString(m) + " items."
      case BrowserReady => "Browser Ready. Waiting for manual review."
      case BrowserFailed(e) => "Browser Init Failed: " + e
      case ReviewComplete => "Manual Review Complete!"
      case StartingVerification => "Starting Parallel Verification (GLM-4V)..."
    }
  }

  /** The message `open_browser` leaves: `None` when the browser came up,
      otherwise the text of the exception it caught. */
  function BrowserMessage(browserError: Option<string>): Message {
    if browserError.None? then BrowserReady else BrowserFailed(browserError.value)
  }

  /** The status message after a successful split, before the browser is
      opened. */
  function SplitMessage(manualCount: nat, autoCount: nat, excludedCount: nat): Message {
    if autoCount > 0 then AwaitingVerification else ScoringComplete(manualCount, excludedCount)
  }

  /** The `TypeError` raised by `_run_scoring_and_split`'s call
      `score_keywords(keywords, product_description, progress_callback=...)`,
      as `score_keywords` takes no such parameter. */
  const ProgressCallbackError: string := "score_keywords() got an unexpected keyword argument 'progress_callback'"

  /** The engine, with the fields of `WorkflowEngine` that the modelled
      operations read or write. */
  class Engine {
    var manualQueue: seq<Item>
    var autoQueue: seq<Item>
    var excludedQueue: seq<Item>
    var isProcessing: bool
    var cursor: nat
    var statusMessage: Message
    var totalKeywords: nat
    var processedCount: nat
    var progress: nat
    var keepCount: nat
    var dropCount: nat
    var originalFrame: Option<Frame>
    var keywordColumn: Option<string>
    var productImage: Option<string>
    var productDescription: Option<string>

    constructor()
      ensures manualQueue == [] && autoQueue == [] && excludedQueue == []
      ensures !isProcessing && cursor == 0 && statusMessage == Idle
      ensures totalKeywords == 0 && processedCount == 0 && progress == 0
      ensures keepCount == 0 && dropCount == 0
      ensures originalFrame == None && keywordColumn == None
      ensures productImage == None && productDescription == None
    {
      manualQueue, autoQueue, excludedQueue := [], [], [];
      isProcessing := false;
      cursor := 0;
      statusMessage := Idle;
      totalKeywords, processedCount, progress := 0, 0, 0;
      keepCount, dropCount := 0, 0;
      originalFrame, keywordColumn := None, None;
      productImage, productDescription := None, None;
    }

    /** `start_analysis` up to the start of the scoring thread. */
    method StartAnalysis(keywords: seq<string>, description: string, image: Option<string>)
      modifies this`manualQueue, this`autoQueue, this`excludedQueue, this`isProcessing, this`statusMessage,
               this`totalKeywords, this`processedCount, this`progress, this`productImage, this`productDescription
      ensures isProcessing && statusMessage == ScoringInProgress
      ensures totalKeywords == |keywords| && processedCount == 0 && progress == 0
      ensures productImage == image && productDescription == Some(description)
      ensures manualQueue == [] && autoQueue == [] && excludedQueue == []
    {
      isProcessing := true;
      statusMessage := ScoringInProgress;
      totalKeywords := |keywords|;
      processedCount := 0;
      progress := 0;
      productImage := image;
      productDescription := Some(description);
      manualQueue, autoQueue, excludedQueue := [], [], [];
    }

    /** `_run_scoring_and_split` once the scorer has returned or raised. A
        failure only sets the message; a success refills the three queues by
        the thresholds and, when the manual queue is not empty, opens the
        browser, whose outcome is `browserError`. */
    method ScoreAndSplit(keywords: seq<string>, scoring: Result<seq<Scored>>, browserError: Option<string>)
      modifies this`manualQueue, this`autoQueue, this`excludedQueue, this`statusMessage, this`processedCount, this`progress
      ensures scoring.Failure? ==>
        statusMessage == ScoringError(scoring.error)
        && manualQueue == old(manualQueue) && autoQueue == old(autoQueue) && excludedQueue == old(excludedQueue)
        && processedCount == old(processedCount) && progress == old(progress)
      ensures scoring.Success? ==>
        manualQueue == Route(FromScored(scoring.value), SplitPlacement, ManualQ)
        && autoQueue == Route(FromScored(scoring.value), SplitPlacement, AutoQ)
        && excludedQueue == Route(FromScored(scoring.value), SplitPlacement, ExcludedQ)
        && processedCount == |keywords| && progress == 100
      ensures scoring.Success? ==>
        statusMessage == (if manualQueue != [] then BrowserMessage(browserError)
                          else SplitMessage(|manualQueue|, |autoQueue|, |excludedQueue|))
    {
      if scoring.Failure? {
        statusMessage := ScoringError(scoring.error);
        return;
      }
      manualQueue, autoQueue, excludedQueue := SplitQueues(FromScored(scoring.value));
      processedCount := |keywords|;
      progress := 100;
      statusMessage := SplitMessage(|manualQueue|, |autoQueue|, |excludedQueue|);
      if manualQueue != [] {
        statusMessage := BrowserMessage(browserError);
      }
    }

    /** `_run_scoring_and_split` as written: the call to `score_keywords`
        raises before anything is scored, whatever the keywords. */
    method RunScoringAsWritten(keywords: seq<string>)
      modifies this`manualQueue, this`autoQueue, this`excludedQueue, this`statusMessage, this`processedCount, this`progress
      ensures statusMessage == ScoringError(ProgressCallbackError)
      ensures manualQueue == old(manualQueue) && autoQueue == old(autoQueue) && excludedQueue == old(excludedQueue)
    {
      ScoreAndSplit(keywords, Failure(ProgressCallbackError), None);
    }

    /** `_run_scoring_and_split` with `score_keywords` called on the
        parameters it takes: every keyword the scorer returns is queued. */
    method RunScoring(keywords: seq<string>, description: string,
                      descApi: nat -> BatchReply, kwApi: nat -> BatchReply,
                      cosine: (Vector, Vector) -> real, cosineFails: bool, browserError: Option<string>)
      modifies this`manualQueue, this`autoQueue, this`excludedQueue, this`statusMessage, this`processedCount, this`progress
      ensures var spec := ScoreSpec(keywords, description, descApi, kwApi, cosine, cosineFails);
        spec.Success? ==>
          manualQueue == Route(FromScored(spec.value), SplitPlacement, ManualQ)
          && autoQueue == Route(FromScored(spec.value), SplitPlacement, AutoQ)
          && excludedQueue == Route(FromScored(spec.value), SplitPlacement, ExcludedQ)
          && |manualQueue| + |autoQueue| + |excludedQueue| == |spec.value|
      ensures var spec := ScoreSpec(keywords, description, descApi, kwApi, cosine, cosineFails);
        spec.Failure? ==> statusMessage == ScoringError(spec.error)
    {
      var scoring := ScoreKeywords(keywords, description, descApi, kwApi, cosine, cosineFails);
      ScoreAndSplit(keywords, scoring, browserError);
      if scoring.Success? {
        RouteSizes(FromScored(scoring.value), SplitPlacement);
      }
    }

    /** `configure_manual_review`: every queued item is re-routed by its
        score and the three flags, the cursor returns to 0, and the browser
        is opened when anything is left to review. */
    method ConfigureManualReview(includeManual: bool, includeAuto: bool, includeExcluded: bool,
                                 browserError: Option<string>) returns (count: nat)
      modifies this`manualQueue, this`autoQueue, this`excludedQueue, this`cursor, this`statusMessage
      ensures var all := old(manualQueue) + old(autoQueue) + old(excludedQueue);
        var place := ConfigRule(includeManual, includeAuto, includeExcluded);
        manualQueue == Route(all, place, ManualQ) && autoQueue == Route(all, place, AutoQ)
        && excludedQueue == Route(all, place, ExcludedQ)
      ensures |manualQueue| + |autoQueue| + |excludedQueue|
        == |old(manualQueue)| + |old(autoQueue)| + |old(excludedQueue)|
      ensures cursor == 0 && count == |manualQueue|
      ensures statusMessage == (if manualQueue != [] then BrowserMessage(browserError)
                                else QueuesConfigured(0))
    {
      manualQueue, autoQueue, excludedQueue :=
        ConfigureQueues(manualQueue + autoQueue + excludedQueue, includeManual, includeAuto, includeExcluded);
      cursor := 0;
      statusMessage := QueuesConfigured(|manualQueue|);
      if |manualQueue| > 0 {
        statusMessage := BrowserMessage(browserError);
      }
      count := |manualQueue|;
    }

    /** `move_all_to_manual`: every item goes to review as pending. */
    method MoveAllToManual(browserError: Option<string>) returns (count: nat)
      modifies this`manualQueue, this`autoQueue, this`excludedQueue, this`cursor, this`statusMessage
      ensures |manualQueue| == |old(manualQueue)| + |old(autoQueue)| + |old(excludedQueue)|
      ensures autoQueue == [] && excludedQueue == []
      ensures forall k :: 0 <= k < |manualQueue| ==> manualQueue[k].status == Pending
      ensures cursor == 0 && count == |manualQueue|
    {
      ghost var all := manualQueue + autoQueue + excludedQueue;
      count := ConfigureManualReview(true, true, true, browserError);
      RouteNone(all, ConfigRule(true, true, true), AutoQ);
      RouteNone(all, ConfigRule(true, true, true), ExcludedQ);
      RoutePlaced(all, ConfigRule(true, true, true), ManualQ);
    }

    /** `handle_manual_action`: an index outside the manual queue is refused
        and nothing changes; otherwise the item's status follows the action,
        the cursor moves past it, and the review is reported complete when
        that was the last item. Browser navigation is not modelled. */
    method HandleManualAction(action: string, index: int) returns (r: ActionResult)
      modifies this`manualQueue, this`cursor, this`statusMessage
      ensures !(0 <= index < |old(manualQueue)|) ==>
        r == ActionError("Invalid index") && manualQueue == old(manualQueue) && cursor == old(cursor)
        && statusMessage == old(statusMessage)
      ensures 0 <= index < |old(manualQueue)| ==>
        manualQueue == old(manualQueue)[index := old(manualQueue)[index].(status := ActionStatus(action, old(manualQueue)[index].status))]
        && cursor == index + 1 && r == ActionDone(index + 1)
        && statusMessage == (if index + 1 == |manualQueue| then ReviewComplete else old(statusMessage))
      ensures 0 <= index < |old(manualQueue)| ==>
        CurrentManualKeyword() == (if index + 1 < |manualQueue| then Some(manualQueue[index + 1]) else None)
    {
      if index < 0 || index >= |manualQueue| {
        return ActionError("Invalid index");
      }
      var item := manualQueue[index];
      if action == "keep" {
        item := item.(status := Kept);
      } else if action == "delete" {
        item := item.(status := Deleted);
      } else if action == "undecided" {
        item := item.(status := Undecided);
      }
      manualQueue := manualQueue[index := item];
      var next := index + 1;
      cursor := next;
      if next >= |manualQueue| {
        statusMessage := ReviewComplete;
      }
      r := ActionDone(next);
    }

    /** `manual_navigate`: a valid index becomes the cursor; any other is
        refused without change. */
    method ManualNavigate(index: int) returns (r: NavigateResult)
      modifies this`cursor
      ensures 0 <= index < |manualQueue| ==> r == NavigateDone && cursor == index
      ensures !(0 <= index < |manualQueue|) ==> r == NavigateError("Index out of bounds") && cursor == old(cursor)
      ensures 0 <= index < |manualQueue| ==> CurrentManualKeyword() == Some(manualQueue[index])
    {
      if 0 <= index < |manualQueue| {
        cursor := index;
        return NavigateDone;
      }
      r := NavigateError("Index out of bounds");
    }

    /** `_get_current_manual_keyword`: the item under the cursor, if any. */
    function CurrentManualKeyword(): (r: Option<Item>)
      reads this
      ensures r.Some? <==> cursor < |manualQueue|
      ensures r.Some? ==> r.value == manualQueue[cursor]
    {
      if cursor < |manualQueue| then Some(manualQueue[cursor]) else None
    }

    /** `get_status`. */
    function GetStatus(): (v: StatusView)
      reads this
      ensures v.manualCount == |manualQueue| && v.autoCount == |autoQueue| && v.excludedCount == |excludedQueue|
      ensures v.manualPending <= v.manualCount
      ensures v.manualPending == v.manualCount <==> forall k :: 0 <= k < |manualQueue| ==> manualQueue[k].status == Pending
      ensures v.manualPending == 0 <==> forall k :: 0 <= k < |manualQueue| ==> manualQueue[k].status != Pending
      ensures v.currentKeyword.Some? <==> v.currentIndex < v.manualCount
      ensures v.verifiedKeep == keepCount && v.verifiedDrop == dropCount && v.status == statusMessage
    {
      PendingCountBounds(manualQueue);
      StatusView(statusMessage, progress, |manualQueue|, |autoQueue|, |excludedQueue|,
                 PendingCount(manualQueue), cursor, CurrentManualKeyword(), keepCount, dropCount)
    }

    /** `get_manual_list`. */
    function GetManualList(): (r: seq<Item>)
      reads this
      ensures r == Filter(manualQueue, IsPending) + Filter(manualQueue, NotPending)
    {
      ManualListPendingFirst(manualQueue);
      ManualListOf(manualQueue)
    }

    /** `get_all_keywords_list`. */
    function GetAllKeywordsList(): (r: seq<Item>)
      reads this
      ensures multiset(r) == multiset(manualQueue) + multiset(autoQueue) + multiset(excludedQueue)
      ensures SortedDesc(r, ItemScore)
    {
      AllKeywordsRanked(manualQueue, autoQueue, excludedQueue);
      AllKeywordsOf(manualQueue, autoQueue, excludedQueue)
    }

    /** `start_auto_verification`: with automatic items, the verification
        pass runs over them; otherwise nothing happens. */
    method StartAutoVerification(outcomes: nat -> ItemOutcome, envKey: Option<string>) returns (r: StartResult)
      modifies this`autoQueue, this`statusMessage, this`keepCount, this`dropCount
      ensures old(autoQueue) == [] ==> r == NoItems && statusMessage == old(statusMessage)
      ensures old(autoQueue) != [] ==>
        r == Started(|old(autoQueue)|) && statusMessage == StartingVerification
      ensures autoQueue == VerifiedQueue(old(autoQueue), outcomes, envKey, productImage)
      ensures keepCount == old(keepCount) + KeptAmong(old(autoQueue), outcomes, envKey, productImage, |old(autoQueue)|)
      ensures dropCount == old(dropCount) + DroppedAmong(old(autoQueue), outcomes, envKey, productImage, |old(autoQueue)|)
    {
      if autoQueue == [] {
        return NoItems;
      }
      statusMessage := StartingVerification;
      r := Started(|autoQueue|);
      RunVerification(outcomes, envKey);
    }

    /** `_run_parallel_verification_thread`: every automatic item still
        marked `'AUTO'` is processed once, `outcomes(k)` being what the
        search, the collage and the vision call produced for position `k`.
        The pool runs items in any order, but each touches only its own item
        and adds at most one to one counter under the lock, so a pass in
        queue order ends in the same state. */
    method RunVerification(outcomes: nat -> ItemOutcome, envKey: Option<string>)
      modifies this`autoQueue, this`keepCount, this`dropCount
      ensures autoQueue == VerifiedQueue(old(autoQueue), outcomes, envKey, productImage)
      ensures keepCount == old(keepCount) + KeptAmong(old(autoQueue), outcomes, envKey, productImage, |old(autoQueue)|)
      ensures dropCount == old(dropCount) + DroppedAmong(old(autoQueue), outcomes, envKey, productImage, |old(autoQueue)|)
    {
      var q := autoQueue;
      var i := 0;
      while i < |q|
        invariant 0 <= i <= |q| && |autoQueue| == |q|
        invariant forall k :: 0 <= k < i ==> autoQueue[k] == Verified(q[k], outcomes(k), envKey, productImage)
        invariant forall k :: i <= k < |q| ==> autoQueue[k] == q[k]
        invariant keepCount == old(keepCount) + KeptAmong(q, outcomes, envKey, productImage, i)
        invariant dropCount == old(dropCount) + DroppedAmong(q, outcomes, envKey, productImage, i)
      {
        if q[i].status == Auto {
          ProcessOneItem(i, outcomes(i), envKey);
        }
        i := i + 1;
      }
      assert autoQueue == VerifiedQueue(q, outcomes, envKey, productImage);
    }

    /** `process_one_item` for the automatic item at position `i`: an
        exception anywhere leaves the item as it was. */
    method ProcessOneItem(i: nat, outcome: ItemOutcome, envKey: Option<string>)
      requires i < |autoQueue|
      modifies this`autoQueue, this`keepCount, this`dropCount
      ensures var step := VerifyItem(old(autoQueue)[i], outcome, envKey, productImage);
        autoQueue == old(autoQueue)[i := step.item]
        && keepCount == old(keepCount) + (if step.kept then 1 else 0)
        && dropCount == old(dropCount) + (if step.dropped then 1 else 0)
    {
      var item, kept, dropped := VerifyOne(autoQueue[i], outcome, envKey, productImage);
      autoQueue := autoQueue[i := item];
      if kept {
        keepCount := keepCount + 1;
      }
      if dropped {
        dropCount := dropCount + 1;
      }
    }

    /** `set_data`. */
    method SetData(frame: Frame, keywordCol: string)
      modifies this`originalFrame, this`keywordColumn
      ensures originalFrame == Some(frame) && keywordColumn == Some(keywordCol)
    {
      originalFrame := Some(frame);
      keywordColumn := Some(keywordCol);
    }

    /** `generate_export_excel` up to writing the workbook: it fails when
        nothing was uploaded, and otherwise exports the uploaded sheet
        joined with the queued items. */
    method GenerateExportExcel() returns (r: ExportResult)
      ensures r == ExportOf(originalFrame, keywordColumn, manualQueue + autoQueue + excludedQueue)
      ensures originalFrame.None? || keywordColumn.None? ==> r == ExportFailed(NoDataLoaded)
    {
      if originalFrame.None? || keywordColumn.None? {
        return ExportFailed(NoDataLoaded);
      }
      r := ExportSheet(originalFrame.value, keywordColumn.value, manualQueue + autoQueue + excludedQueue);
    }
  }

  /** The body of `process_one_item` for one item: an exception anywhere
      leaves the item as it was, and only a vision verdict moves a count. */
  method VerifyOne(x: Item, outcome: ItemOutcome, envKey: Option<string>, refImage: Option<string>)
      returns (item: Item, kept: bool, dropped: bool)
    ensures VerifyStep(item, kept, dropped) == VerifyItem(x, outcome, envKey, refImage)
  {
    item, kept, dropped := x, false, false;
    match outcome.search {
      case SearchRaised =>
        return;
      case Found(urls) =>
        if urls == [] {
          item := x.(reason := Some(JStr("No images found on Amazon")), status := VerifiedDelete);
          return;
        }
    }
    if !outcome.collageWritten {
      return;
    }
    var client := NewClient(None, envKey);
    if client.Failure? {
      return;
    }
    if refImage.None? || refImage.value == [] {
      item := x.(reason := Some(JStr("Missing Reference Image")), status := VerifiedDelete);
      return;
    }
    var result := AnalyzeImageSync(client.value, outcome.reply, outcome.decoded);
    if result.NonDict? {
      return;
    }
    var fields := result.fields;
    item := x.(visionScore := Some(Get(fields, "score", JInt(0))),
               similarCount := Some(Get(fields, "similar_count", JInt(0))),
               reason := Some(Get(fields, "reason", JNull)));
    if "decision" in fields && fields["decision"] == JStr("YES") {
      item := item.(status := VerifiedKeep);
      kept := true;
    } else {
      item := item.(status := VerifiedDelete);
      dropped := true;
    }
  }

  /** As written, scoring after `start_analysis` queues nothing, whatever was
      uploaded: here one keyword goes in and none comes out. */
  method ScoringAsWrittenLosesKeywords() returns (uploaded: nat, queued: nat, message: Message)
    ensures uploaded == 1 && queued == 0
    ensures message == ScoringError(ProgressCallbackError)
  {
    var e := new Engine();
    e.StartAnalysis(["hair stick"], "a wooden hair stick", None);
    e.RunScoringAsWritten(["hair stick"]);
    uploaded := e.totalKeywords;
    queued := |e.manualQueue| + |e.autoQueue| + |e.excludedQueue|;
    message := e.statusMessage;
  }

  /** Called on the parameters it takes, the scorer's results for the same
      upload are all queued. */
  method ScoringQueuesKeywords(descApi: nat -> BatchReply, kwApi: nat -> BatchReply,
                               cosine: (Vector, Vector) -> real)
      returns (uploaded: nat, queued: nat)
    requires ScoreSpec(["hair stick"], "a wooden hair stick", descApi, kwApi, cosine, false).Success?
    ensures uploaded == 1
    ensures queued == |ScoreSpec(["hair stick"], "a wooden hair stick", descApi, kwApi, cosine, false).value|
  {
    uploaded, queued := ScoreUpload(["hair stick"], "a wooden hair stick", descApi, kwApi, cosine);
  }

  /** A fresh engine that starts an analysis of `keywords` and runs the
      scorer on the same parameters queues every scored keyword. */
  method ScoreUpload(keywords: seq<string>, description: string, descApi: nat -> BatchReply,
                     kwApi: nat -> BatchReply, cosine: (Vector, Vector) -> real)
      returns (uploaded: nat, queued: nat)
    requires ScoreSpec(keywords, description, descApi, kwApi, cosine, false).Success?
    ensures uploaded == |keywords|
    ensures queued == |ScoreSpec(keywords, description, descApi, kwApi, cosine, false).value|
  {
    var e := new Engine();
    e.StartAnalysis(keywords, description, None);
    e.RunScoring(keywords, description, descApi, kwApi, cosine, false, None);
    uploaded := e.totalKeywords;
    queued := |e.manualQueue| + |e.autoQueue| + |e.excludedQueue|;
  }
}
