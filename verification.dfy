/** One verification step of the triage engine (`process_one_item`): what
    happens to an automatic item given what the image search, the collage and
    the vision call produced for it, and the whole automatic queue after the
    verification pass. */
module WorkflowVerification {
  import opened Strings
  import opened ZhipuVision
  import opened WorkflowQueues

  /** What the search, the collage and the vision request produced for one
      item. */
  datatype SearchOutcome = SearchRaised | Found(urls: seq<string>)
  datatype ItemOutcome = ItemOutcome(search: SearchOutcome, collageWritten: bool, reply: Reply, decoded: Option<Json>)

  /** The item after `process_one_item`, and whether it added to the keep or
      the drop count. */
  datatype VerifyStep = VerifyStep(item: Item, kept: bool, dropped: bool)

  function VerifyItem(x: Item, o: ItemOutcome, envKey: Option<string>, refImage: Option<string>): (s: VerifyStep)
    ensures s.item.keyword == x.keyword && s.item.score == x.score
    ensures !(s.kept && s.dropped)
    ensures s.kept ==> s.item.status == VerifiedKeep
    ensures s.dropped ==> s.item.status == VerifiedDelete
    ensures s.item.status == x.status || s.item.status in {VerifiedKeep, VerifiedDelete}
  {
    match o.search
    case SearchRaised => VerifyStep(x, false, false)
    case Found(urls) =>
      if urls == [] then
        VerifyStep(x.(reason := Some(JStr("No images found on Amazon")), status := VerifiedDelete), false, false)
      else if !o.collageWritten || NewClient(None, envKey).Failure? then VerifyStep(x, false, false)
      else if refImage.None? || refImage.value == [] then
        VerifyStep(x.(reason := Some(JStr("Missing Reference Image")), status := VerifiedDelete), false, false)
      else
        match Normalised(o.reply, o.decoded)
        case NonDict(_) => VerifyStep(x, false, false)
        case Dict(m) =>
          var y := x.(visionScore := Some(Get(m, "score", JInt(0))),
                      similarCount := Some(Get(m, "similar_count", JInt(0))),
                      reason := Some(Get(m, "reason", JNull)));
          if "decision" in m && m["decision"] == JStr("YES") then VerifyStep(y.(status := VerifiedKeep), true, false)
          else VerifyStep(y.(status := VerifiedDelete), false, true)
  }

  /** The verification outcomes as a decision table: which items end kept
      or deleted and which counts move. */
  lemma VerifyItemCases(x: Item, o: ItemOutcome, envKey: Option<string>, refImage: Option<string>)
    ensures o.search == Found([]) ==>
      VerifyItem(x, o, envKey, refImage) ==
        VerifyStep(x.(reason := Some(JStr("No images found on Amazon")), status := VerifiedDelete), false, false)
    ensures (o.search.SearchRaised? || (o.search.Found? && o.search.urls != []
             && (!o.collageWritten || NewClient(None, envKey).Failure?)))
      ==> VerifyItem(x, o, envKey, refImage) == VerifyStep(x, false, false)
    ensures (o.search.Found? && o.search.urls != [] && o.collageWritten && NewClient(None, envKey).Success?
             && (refImage.None? || refImage.value == []))
      ==> (VerifyItem(x, o, envKey, refImage) ==
           VerifyStep(x.(reason := Some(JStr("Missing Reference Image")), status := VerifiedDelete), false, false))
    ensures VerifyItem(x, o, envKey, refImage).kept <==>
      o.search.Found? && o.search.urls != [] && o.collageWritten && NewClient(None, envKey).Success?
      && refImage.Some? && refImage.value != [] && Normalised(o.reply, o.decoded).Dict?
      && "decision" in Normalised(o.reply, o.decoded).fields
      && Normalised(o.reply, o.decoded).fields["decision"] == JStr("YES")
  {
  }

  /** A failed vision request always counts as a drop once the search, the
      collage, the key and the reference image are in place. */
  lemma RequestFailureDrops(x: Item, o: ItemOutcome, envKey: Option<string>, refImage: Option<string>)
    requires o.search.Found? && o.search.urls != [] && o.collageWritten && NewClient(None, envKey).Success?
    requires refImage.Some? && refImage.value != [] && o.reply.RequestFailed?
    ensures VerifyItem(x, o, envKey, refImage).dropped
    ensures VerifyItem(x, o, envKey, refImage).item.reason == Some(JStr("API Error: " + o.reply.message))
  {
  }

  /** The automatic queue after verification: `'AUTO'` items are processed,
      all others are left exactly as they were. */
  function VerifiedQueue(q: seq<Item>, outcomes: nat -> ItemOutcome, envKey: Option<string>, refImage: Option<string>): (r: seq<Item>)
    ensures |r| == |q|
    ensures forall k :: 0 <= k < |q| ==> r[k] == Verified(q[k], outcomes(k), envKey, refImage)
  {
    seq(|q|, k requires 0 <= k < |q| => Verified(q[k], outcomes(k), envKey, refImage))
  }

  /** One entry after the pass: processed when it was a target. */
  function Verified(x: Item, o: ItemOutcome, envKey: Option<string>, refImage: Option<string>): (y: Item)
    ensures x.status != Auto ==> y == x
    ensures y.keyword == x.keyword && y.score == x.score
  {
    if x.status == Auto then VerifyItem(x, o, envKey, refImage).item else x
  }

  /** Whether the entry at position `k` adds to the keep (or the drop) count. */
  predicate KeepsAt(q: seq<Item>, outcomes: nat -> ItemOutcome, envKey: Option<string>, refImage: Option<string>, k: nat)
    requires k < |q|
  {
    q[k].status == Auto && VerifyItem(q[k], outcomes(k), envKey, refImage).kept
  }

  predicate DropsAt(q: seq<Item>, outcomes: nat -> ItemOutcome, envKey: Option<string>, refImage: Option<string>, k: nat)
    requires k < |q|
  {
    q[k].status == Auto && VerifyItem(q[k], outcomes(k), envKey, refImage).dropped
  }

  /** How many of the first `n` entries add to the keep count. */
  function KeptAmong(q: seq<Item>, outcomes: nat -> ItemOutcome, envKey: Option<string>, refImage: Option<string>, n: nat): nat
    requires n <= |q|
  {
    if n == 0 then 0
    else KeptAmong(q, outcomes, envKey, refImage, n - 1) + (if KeepsAt(q, outcomes, envKey, refImage, n - 1) then 1 else 0)
  }

  function DroppedAmong(q: seq<Item>, outcomes: nat -> ItemOutcome, envKey: Option<string>, refImage: Option<string>, n: nat): nat
    requires n <= |q|
  {
    if n == 0 then 0
    else DroppedAmong(q, outcomes, envKey, refImage, n - 1) + (if DropsAt(q, outcomes, envKey, refImage, n - 1) then 1 else 0)
  }

  /** How many of the first `n` entries of `before` were targets that are
      `'verified_keep'` in `after`. */
  function BecameKeep(before: seq<Item>, after: seq<Item>, n: nat): nat
    requires n <= |before| && n <= |after|
  {
    if n == 0 then 0
    else
      var last := if before[n - 1].status == Auto && after[n - 1].status == VerifiedKeep then 1 else 0;
      BecameKeep(before, after, n - 1) + last
  }

  /** How many of the first `n` entries are targets (`'AUTO'`). */
  function Targets(q: seq<Item>, n: nat): (c: nat)
    requires n <= |q|
    ensures c <= n
  {
    if n == 0 then 0 else Targets(q, n - 1) + (if q[n - 1].status == Auto then 1 else 0)
  }

  /** The keep count grows by exactly the number of targets that end
      `'verified_keep'`, and keeps plus drops never exceed the number of
      targets. */
  lemma {:induction false} CountsMatchQueue(q: seq<Item>, outcomes: nat -> ItemOutcome, envKey: Option<string>, refImage: Option<string>, n: nat)
    requires n <= |q|
    ensures KeptAmong(q, outcomes, envKey, refImage, n) == BecameKeep(q, VerifiedQueue(q, outcomes, envKey, refImage), n)
    ensures KeptAmong(q, outcomes, envKey, refImage, n) + DroppedAmong(q, outcomes, envKey, refImage, n) <= Targets(q, n)
  {
    if n > 0 {
      CountsMatchQueue(q, outcomes, envKey, refImage, n - 1);
      var x := q[n - 1];
      if x.status == Auto {
        var st := VerifyItem(x, outcomes(n - 1), envKey, refImage);
        assert st.kept <==> st.item.status == VerifiedKeep by {
          VerifyItemCases(x, outcomes(n - 1), envKey, refImage);
        }
      }
    }
  }

  /** With no targets, the pass changes nothing. */
  lemma {:induction false} NoTargetsNoChange(q: seq<Item>, outcomes: nat -> ItemOutcome, envKey: Option<string>, refImage: Option<string>)
    requires forall k :: 0 <= k < |q| ==> q[k].status != Auto
    ensures VerifiedQueue(q, outcomes, envKey, refImage) == q
    ensures KeptAmong(q, outcomes, envKey, refImage, |q|) == 0 && DroppedAmong(q, outcomes, envKey, refImage, |q|) == 0
  {
    NoCountsBelow(q, outcomes, envKey, refImage, |q|);
  }

  lemma {:induction false} NoCountsBelow(q: seq<Item>, outcomes: nat -> ItemOutcome, envKey: Option<string>, refImage: Option<string>, n: nat)
    requires n <= |q| && forall k :: 0 <= k < |q| ==> q[k].status != Auto
    ensures KeptAmong(q, outcomes, envKey, refImage, n) == 0 && DroppedAmong(q, outcomes, envKey, refImage, n) == 0
  {
    if n > 0 {
      NoCountsBelow(q, outcomes, envKey, refImage, n - 1);
    }
  }
}
