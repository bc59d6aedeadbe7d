/** The queues of the triage engine: the score thresholds that split scored
    keywords into a manual-review queue, an automatic queue and an excluded
    queue, the re-routing the reviewer configures, the review actions and the
    two listings the web page shows. */
module WorkflowQueues {
  import opened Strings
  import opened Sorting
  import opened ZhipuVision
  import opened ZhipuScoring

  const ManualThreshold: real := 0.6
  const AutoThreshold: real := 0.45

  /** The `status` strings an item carries. */
  datatype Status = Pending | Auto | Deleted | Kept | Undecided | VerifiedKeep | VerifiedDelete
  {
    function Name(): string {
      match this
      case Pending => "pending"
      case Auto => "AUTO"
      case Deleted => "deleted"
      case Kept => "kept"
      case Undecided => "undecided"
      case VerifiedKeep => "verified_keep"
      case VerifiedDelete => "verified_delete"
    }
  }

  /** Distinct statuses are written differently, so the exported labels
      identify the status. */
  lemma StatusNamesDistinct(a: Status, b: Status)
    ensures a.Name() == b.Name() ==> a == b
  {
  }

  /** A queue entry: the scored keyword plus what verification wrote to it.
      `None` in the last three fields means the key is absent from the dict. */
  datatype Item = Item(keyword: string, score: real, status: Status,
                       reason: Option<Json>, visionScore: Option<Json>, similarCount: Option<Json>)

  function ItemScore(x: Item): real { x.score }

  /** The dict `score_keywords` returns for a keyword; its status is set by
      the split before anyone reads it. */
  function FromScored(s: seq<Scored>): (r: seq<Item>)
    ensures |r| == |s|
    ensures forall k :: 0 <= k < |s| ==> r[k].keyword == s[k].keyword && r[k].score == s[k].score
  {
    seq(|s|, k requires 0 <= k < |s| => Item(s[k].keyword, s[k].score, Pending, None, None, None))
  }

  datatype Queue = ManualQ | AutoQ | ExcludedQ

  /** Where an item goes and the status it gets there. */
  datatype Placement = Placement(queue: Queue, status: Status)

  /** The split after scoring: above 0.6 for review, from 0.45 to 0.6
      automatic, below 0.45 excluded. */
  function SplitPlacement(score: real): (p: Placement)
    ensures p.queue == ManualQ <==> score > ManualThreshold
    ensures p.queue == AutoQ <==> AutoThreshold <= score <= ManualThreshold
    ensures p.queue == ExcludedQ <==> score < AutoThreshold
    ensures p.status == (match p.queue case ManualQ => Pending case AutoQ => Auto case ExcludedQ => Deleted)
  {
    if score > ManualThreshold then Placement(ManualQ, Pending)
    else if score >= AutoThreshold then Placement(AutoQ, Auto)
    else Placement(ExcludedQ, Deleted)
  }

  /** `configure_manual_review`: every tier the reviewer includes goes to the
      manual queue as pending; a high tier left out is kept in the automatic
      queue, a middle tier left out stays automatic, a low tier left out is
      excluded and deleted. */
  function ConfigPlacement(score: real, includeManual: bool, includeAuto: bool, includeExcluded: bool): (p: Placement)
    ensures p.queue == ManualQ <==>
      (score > ManualThreshold && includeManual)
      || (AutoThreshold <= score <= ManualThreshold && includeAuto)
      || (score < AutoThreshold && includeExcluded)
    ensures p.queue == ManualQ ==> p.status == Pending
    ensures p.queue == AutoQ <==>
      (score > ManualThreshold && !includeManual) || (AutoThreshold <= score <= ManualThreshold && !includeAuto)
    ensures p.queue == AutoQ ==> p.status == (if score > ManualThreshold then Kept else Auto)
    ensures p.queue == ExcludedQ <==> score < AutoThreshold && !includeExcluded
    ensures p.queue == ExcludedQ ==> p.status == Deleted
  {
    if score > ManualThreshold then
      (if includeManual then Placement(ManualQ, Pending) else Placement(AutoQ, Kept))
    else if score >= AutoThreshold then
      (if includeAuto then Placement(ManualQ, Pending) else Placement(AutoQ, Auto))
    else
      (if includeExcluded then Placement(ManualQ, Pending) else Placement(ExcludedQ, Deleted))
  }

  /** The routing rule of one `configure_manual_review` call. */
  function ConfigRule(includeManual: bool, includeAuto: bool, includeExcluded: bool): real -> Placement {
    s => ConfigPlacement(s, includeManual, includeAuto, includeExcluded)
  }

  /** The items that `place` sends to queue `q`, in input order, with the
      status set there. */
  function Route(s: seq<Item>, place: real -> Placement, q: Queue): (r: seq<Item>)
    ensures |r| <= |s|
  {
    if s == [] then []
    else
      var x := s[|s| - 1];
      Route(s[..|s| - 1], place, q)
        + (if place(x.score).queue == q then [x.(status := place(x.score).status)] else [])
  }

  /** Every item of a queue belongs there and carries the status set there. */
  lemma {:induction false} RoutePlaced(s: seq<Item>, place: real -> Placement, q: Queue)
    ensures forall k :: 0 <= k < |Route(s, place, q)| ==>
      place(Route(s, place, q)[k].score).queue == q
      && Route(s, place, q)[k].status == place(Route(s, place, q)[k].score).status
  {
    if s != [] {
      RoutePlaced(s[..|s| - 1], place, q);
    }
  }

  lemma {:induction false} RouteAppend(a: seq<Item>, b: seq<Item>, place: real -> Placement, q: Queue)
    ensures Route(a + b, place, q) == Route(a, place, q) + Route(b, place, q)
    decreases |b|
  {
    if b == [] {
      assert a + b == a;
    } else {
      var x := b[|b| - 1];
      assert (a + b)[..|a + b| - 1] == a + b[..|b| - 1];
      RouteAppend(a, b[..|b| - 1], place, q);
    }
  }

  /** The three queues together hold exactly as many items as the input. */
  lemma {:induction false} RouteSizes(s: seq<Item>, place: real -> Placement)
    ensures |Route(s, place, ManualQ)| + |Route(s, place, AutoQ)| + |Route(s, place, ExcludedQ)| == |s|
  {
    if s != [] {
      RouteSizes(s[..|s| - 1], place);
    }
  }

  /** One more item routed. */
  lemma RouteStep(s: seq<Item>, i: nat, place: real -> Placement, q: Queue)
    requires i < |s|
    ensures Route(s[..i + 1], place, q) == Route(s[..i], place, q)
      + (if place(s[i].score).queue == q then [s[i].(status := place(s[i].score).status)] else [])
  {
    assert s[..i + 1][..i] == s[..i];
  }

  /** The loop of `_run_scoring_and_split` that appends each scored item to
      the queue its score selects. */
  method SplitQueues(items: seq<Item>) returns (manual: seq<Item>, auto: seq<Item>, excluded: seq<Item>)
    ensures manual == Route(items, SplitPlacement, ManualQ)
    ensures auto == Route(items, SplitPlacement, AutoQ)
    ensures excluded == Route(items, SplitPlacement, ExcludedQ)
    ensures |manual| + |auto| + |excluded| == |items|
  {
    manual, auto, excluded := [], [], [];
    var i := 0;
    while i < |items|
      invariant 0 <= i <= |items|
      invariant manual == Route(items[..i], SplitPlacement, ManualQ)
      invariant auto == Route(items[..i], SplitPlacement, AutoQ)
      invariant excluded == Route(items[..i], SplitPlacement, ExcludedQ)
    {
      var item := items[i];
      RouteStep(items, i, SplitPlacement, ManualQ);
      RouteStep(items, i, SplitPlacement, AutoQ);
      RouteStep(items, i, SplitPlacement, ExcludedQ);
      if item.score > ManualThreshold {
        manual := manual + [item.(status := Pending)];
      } else if item.score >= AutoThreshold {
        auto := auto + [item.(status := Auto)];
      } else {
        excluded := excluded + [item.(status := Deleted)];
      }
      i := i + 1;
    }
    assert items[..i] == items;
    RouteSizes(items, SplitPlacement);
  }

  /** The loop of `configure_manual_review` over all queued items. */
  method ConfigureQueues(all: seq<Item>, includeManual: bool, includeAuto: bool, includeExcluded: bool)
    returns (manual: seq<Item>, auto: seq<Item>, excluded: seq<Item>)
    ensures manual == Route(all, ConfigRule(includeManual, includeAuto, includeExcluded), ManualQ)
    ensures auto == Route(all, ConfigRule(includeManual, includeAuto, includeExcluded), AutoQ)
    ensures excluded == Route(all, ConfigRule(includeManual, includeAuto, includeExcluded), ExcludedQ)
    ensures |manual| + |auto| + |excluded| == |all|
  {
    var place := ConfigRule(includeManual, includeAuto, includeExcluded);
    manual, auto, excluded := [], [], [];
    var i := 0;
    while i < |all|
      invariant 0 <= i <= |all|
      invariant manual == Route(all[..i], place, ManualQ)
      invariant auto == Route(all[..i], place, AutoQ)
      invariant excluded == Route(all[..i], place, ExcludedQ)
    {
      var item := all[i];
      var score := item.score;
      RouteStep(all, i, place, ManualQ);
      RouteStep(all, i, place, AutoQ);
      RouteStep(all, i, place, ExcludedQ);
      if score > ManualThreshold {
        if includeManual {
          manual := manual + [item.(status := Pending)];
        } else {
          auto := auto + [item.(status := Kept)];
        }
      } else if score >= AutoThreshold {
        if includeAuto {
          manual := manual + [item.(status := Pending)];
        } else {
          auto := auto + [item.(status := Auto)];
        }
      } else {
        if includeExcluded {
          manual := manual + [item.(status := Pending)];
        } else {
          excluded := excluded + [item.(status := Deleted)];
        }
      }
      i := i + 1;
    }
    assert all[..i] == all;
    RouteSizes(all, place);
  }

  /** `s` with every status set aside, to compare contents across routing. */
  function Unlabelled(s: seq<Item>): (r: seq<Item>)
    ensures |r| == |s| && forall k :: 0 <= k < |s| ==> r[k] == s[k].(status := Pending)
  {
    seq(|s|, k requires 0 <= k < |s| => s[k].(status := Pending))
  }

  lemma UnlabelledAppend(a: seq<Item>, b: seq<Item>)
    ensures Unlabelled(a + b) == Unlabelled(a) + Unlabelled(b)
  {
  }

  /** The contents of one queue grow by the last item exactly when it is
      routed there. */
  lemma RouteLastBag(s: seq<Item>, place: real -> Placement, q: Queue)
    requires s != []
    ensures multiset(Unlabelled(Route(s, place, q))) == multiset(Unlabelled(Route(s[..|s| - 1], place, q)))
      + (if place(s[|s| - 1].score).queue == q then multiset{s[|s| - 1].(status := Pending)} else multiset{})
  {
    var x := s[|s| - 1];
    var init := Route(s[..|s| - 1], place, q);
    var tail := if place(x.score).queue == q then [x.(status := place(x.score).status)] else [];
    assert Route(s, place, q) == init + tail;
    UnlabelledAppend(init, tail);
    assert Unlabelled(tail) == (if place(x.score).queue == q then [x.(status := Pending)] else []);
  }

  /** Every input item lands in exactly one queue, changed in nothing but its
      status. */
  lemma {:induction false} RoutePartition(s: seq<Item>, place: real -> Placement)
    ensures multiset(Unlabelled(Route(s, place, ManualQ))) + multiset(Unlabelled(Route(s, place, AutoQ)))
      + multiset(Unlabelled(Route(s, place, ExcludedQ))) == multiset(Unlabelled(s))
  {
    if s != [] {
      var init := s[..|s| - 1];
      var x := s[|s| - 1];
      var bx := multiset{x.(status := Pending)};
      var q := place(x.score).queue;
      assert multiset(Unlabelled(s)) == multiset(Unlabelled(init)) + bx by {
        assert s == init + [x];
        UnlabelledAppend(init, [x]);
      }
      RoutePartition(init, place);
      RouteLastBag(s, place, ManualQ);
      RouteLastBag(s, place, AutoQ);
      RouteLastBag(s, place, ExcludedQ);
    }
  }

  /** Items already routed to `q` are routed to `q` again unchanged. */
  lemma {:induction false} RouteFixed(s: seq<Item>, place: real -> Placement, q: Queue)
    requires forall k :: 0 <= k < |s| ==> place(s[k].score).queue == q && s[k].status == place(s[k].score).status
    ensures Route(s, place, q) == s
  {
    if s != [] {
      RouteFixed(s[..|s| - 1], place, q);
      assert s[..|s| - 1] + [s[|s| - 1]] == s;
    }
  }

  /** Items routed elsewhere contribute nothing to `q`. */
  lemma {:induction false} RouteNone(s: seq<Item>, place: real -> Placement, q: Queue)
    requires forall k :: 0 <= k < |s| ==> place(s[k].score).queue != q
    ensures Route(s, place, q) == []
  {
    if s != [] {
      RouteNone(s[..|s| - 1], place, q);
    }
  }

  /** Routing depends on score alone and keeps the relative order, so routing
      the three routed queues again, concatenated in the engine's order,
      reproduces each queue exactly. */
  lemma RouteIdempotent(s: seq<Item>, place: real -> Placement, q: Queue)
    ensures var m, a, e := Route(s, place, ManualQ), Route(s, place, AutoQ), Route(s, place, ExcludedQ);
      Route(m + a + e, place, q) == Route(s, place, q)
  {
    var m, a, e := Route(s, place, ManualQ), Route(s, place, AutoQ), Route(s, place, ExcludedQ);
    var rm, ra, re := Route(m, place, q), Route(a, place, q), Route(e, place, q);
    assert Route(m + a + e, place, q) == rm + ra + re by {
      RouteAppend(m + a, e, place, q);
      RouteAppend(m, a, place, q);
    }
    assert rm == (if q == ManualQ then m else []) by { RouteAgain(s, place, ManualQ, q); }
    assert ra == (if q == AutoQ then a else []) by { RouteAgain(s, place, AutoQ, q); }
    assert re == (if q == ExcludedQ then e else []) by { RouteAgain(s, place, ExcludedQ, q); }
    match q
    case ManualQ => assert rm + ra + re == m;
    case AutoQ => assert rm + ra + re == a;
    case ExcludedQ => assert rm + ra + re == e;
  }

  /** Routing the queue `r` once more keeps it whole for `r` and gives
      nothing for any other queue. */
  lemma RouteAgain(s: seq<Item>, place: real -> Placement, r: Queue, q: Queue)
    ensures Route(Route(s, place, r), place, q) == (if r == q then Route(s, place, q) else [])
  {
    RoutePlaced(s, place, r);
    if r == q { RouteFixed(Route(s, place, r), place, q); } else { RouteNone(Route(s, place, r), place, q); }
  }

  /** What a review action does to the status of the item it names. */
  function ActionStatus(action: string, current: Status): (s: Status)
    ensures action == "keep" ==> s == Kept
    ensures action == "delete" ==> s == Deleted
    ensures action == "undecided" ==> s == Undecided
    ensures action !in {"keep", "delete", "undecided"} ==> s == current
  {
    if action == "keep" then Kept
    else if action == "delete" then Deleted
    else if action == "undecided" then Undecided
    else current
  }

  function IsPending(x: Item): bool { x.status == Pending }
  function NotPending(x: Item): bool { x.status != Pending }
  function PendingFirstKey(x: Item): real { if x.status == Pending then 1.0 else 0.0 }

  /** `get_status`'s `manual_pending`. */
  function PendingCount(q: seq<Item>): (n: nat)
    ensures n <= |q|
  {
    if q == [] then 0 else (if q[0].status == Pending then 1 else 0) + PendingCount(q[1..])
  }

  /** The pending count reaches the queue length exactly when every item is
      pending, and is zero exactly when none is. */
  lemma {:induction false} PendingCountBounds(q: seq<Item>)
    ensures PendingCount(q) == |q| <==> forall k :: 0 <= k < |q| ==> q[k].status == Pending
    ensures PendingCount(q) == 0 <==> forall k :: 0 <= k < |q| ==> q[k].status != Pending
  {
    if q != [] {
      PendingCountBounds(q[1..]);
      assert forall k :: 1 <= k < |q| ==> q[k] == q[1..][k - 1];
    }
  }

  /** `get_manual_list`: `sorted` by the key 0 for pending and 1 otherwise,
      which is a stable sort putting pending items first. */
  function ManualListOf(q: seq<Item>): seq<Item> {
    SortDesc(q, PendingFirstKey)
  }

  lemma {:induction false} WithKeyAppendItems(a: seq<Item>, b: seq<Item>, v: real)
    ensures WithKey(a + b, PendingFirstKey, v) == WithKey(a, PendingFirstKey, v) + WithKey(b, PendingFirstKey, v)
  {
    if a != [] {
      assert (a + b)[0] == a[0] && (a + b)[1..] == a[1..] + b;
      WithKeyAppendItems(a[1..], b, v);
    } else {
      assert a + b == b;
    }
  }

  lemma {:induction false} WithKeyPending(s: seq<Item>, v: real)
    ensures WithKey(s, PendingFirstKey, v) ==
      (if v == 1.0 then Filter(s, IsPending) else if v == 0.0 then Filter(s, NotPending) else [])
  {
    if s != [] {
      WithKeyPending(s[1..], v);
    }
  }

  lemma {:induction false} FilterIdem(s: seq<Item>, p: Item -> bool, p2: Item -> bool)
    requires forall x :: p(x) ==> p2(x)
    ensures Filter(Filter(s, p), p2) == Filter(s, p)
  {
    if s != [] {
      FilterIdem(s[1..], p, p2);
      if p(s[0]) {
        var t := [s[0]] + Filter(s[1..], p);
        assert Filter(s, p) == t;
        assert t[0] == s[0] && t[1..] == Filter(s[1..], p);
        assert p2(s[0]);
        assert Filter(t, p2) == [s[0]] + Filter(Filter(s[1..], p), p2);
      } else {
        assert Filter(s, p) == Filter(s[1..], p);
      }
    }
  }

  lemma {:induction false} FilterDisjoint(s: seq<Item>, p: Item -> bool, p2: Item -> bool)
    requires forall x :: p(x) ==> !p2(x)
    ensures Filter(Filter(s, p), p2) == []
  {
    if s != [] {
      FilterDisjoint(s[1..], p, p2);
      if p(s[0]) {
        var t := [s[0]] + Filter(s[1..], p);
        assert Filter(s, p) == t;
        assert t[0] == s[0] && t[1..] == Filter(s[1..], p);
        assert !p2(s[0]);
        assert Filter(t, p2) == Filter(Filter(s[1..], p), p2);
      } else {
        assert Filter(s, p) == Filter(s[1..], p);
      }
    }
  }

  /** The manual list is the pending items followed by all others, each group
      in queue order. */
  lemma ManualListPendingFirst(q: seq<Item>)
    ensures ManualListOf(q) == Filter(q, IsPending) + Filter(q, NotPending)
  {
    var p, n := Filter(q, IsPending), Filter(q, NotPending);
    var t := p + n;
    SortDescCorrect(q, PendingFirstKey);
    FilterMembers(q, IsPending);
    FilterMembers(q, NotPending);
    assert SortedDesc(t, PendingFirstKey) by {
      forall i, j | 0 <= i < j < |t| ensures PendingFirstKey(t[i]) >= PendingFirstKey(t[j]) {
        if j < |p| {
          assert t[i] in p && t[j] in p;
        } else if i >= |p| {
          assert t[i] == n[i - |p|] && t[j] == n[j - |p|];
          assert t[i] in n && t[j] in n;
        } else {
          assert t[i] in p;
        }
      }
    }
    forall v ensures WithKey(t, PendingFirstKey, v) == WithKey(q, PendingFirstKey, v) {
      WithKeyAppendItems(p, n, v);
      WithKeyPending(p, v);
      WithKeyPending(n, v);
      WithKeyPending(q, v);
      FilterIdem(q, IsPending, IsPending);
      FilterIdem(q, NotPending, NotPending);
      FilterDisjoint(q, IsPending, NotPending);
      FilterDisjoint(q, NotPending, IsPending);
    }
    SortedStableUnique(ManualListOf(q), t, PendingFirstKey);
  }

  /** `get_all_keywords_list`: all three queues, manual first, stably sorted
      by score from highest to lowest (`score or 0` is the score itself, as
      every item carries a number). */
  function AllKeywordsOf(m: seq<Item>, a: seq<Item>, e: seq<Item>): seq<Item> {
    SortDesc(m + a + e, ItemScore)
  }

  /** The unified list holds every queued item exactly once, highest score
      first, equal scores in queue order. */
  lemma AllKeywordsRanked(m: seq<Item>, a: seq<Item>, e: seq<Item>)
    ensures multiset(AllKeywordsOf(m, a, e)) == multiset(m) + multiset(a) + multiset(e)
    ensures SortedDesc(AllKeywordsOf(m, a, e), ItemScore)
    ensures forall v :: WithKey(AllKeywordsOf(m, a, e), ItemScore, v) == WithKey(m + a + e, ItemScore, v)
  {
    SortDescCorrect(m + a + e, ItemScore);
  }

  /** Re-running `configure_manual_review` with the same flags changes
      nothing: same queues, same order, same statuses. */
  lemma ConfigureIdempotent(m: seq<Item>, a: seq<Item>, e: seq<Item>, incM: bool, incA: bool, incE: bool)
    ensures var place := ConfigRule(incM, incA, incE);
      var all := m + a + e;
      var all2 := Route(all, place, ManualQ) + Route(all, place, AutoQ) + Route(all, place, ExcludedQ);
      Route(all2, place, ManualQ) == Route(all, place, ManualQ)
      && Route(all2, place, AutoQ) == Route(all, place, AutoQ)
      && Route(all2, place, ExcludedQ) == Route(all, place, ExcludedQ)
  {
    var place := ConfigRule(incM, incA, incE);
    RouteIdempotent(m + a + e, place, ManualQ);
    RouteIdempotent(m + a + e, place, AutoQ);
    RouteIdempotent(m + a + e, place, ExcludedQ);
  }
}
