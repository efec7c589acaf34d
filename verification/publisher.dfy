/** One iteration of a publisher thread's loop: drain a bounded FIFO prefix of
    the outbound queue and send it as one batch, or, on an empty queue, idle
    once the crawl is committing and declare the commit complete when every
    publisher is idle. */
module Publisher {
  import opened Common
  import opened Lifecycle

  /** The number of publisher threads. */
  const CommitThreads: nat := 10

  /** The drain loop runs while its batch counter, which starts at 1, is
      below this bound; a batch therefore holds at most 9 items. */
  const BatchBound: nat := 10

  /** A publisher's slot: `Launched` is the plain `True` the slot holds from
      the moment its thread is started until it first runs. */
  datatype SlotStatus = Launched | Active | Idle

  /** One queued family, as handed to the message service. */
  datatype OutboundItem = OutboundItem(id: string, body: string)

  datatype PublishState = PublishState(
    outbound: seq<OutboundItem>,
    slots: map<nat, SlotStatus>,
    activeCommits: int,
    successCount: int,
    commitCompleted: bool)

  predicate AllIdle(slots: map<nat, SlotStatus>)
  {
    forall t :: t in slots ==> slots[t] == Idle
  }

  /** The slots after the first `n` publisher threads are started. */
  function LaunchedSlots(n: nat): (m: map<nat, SlotStatus>)
    ensures |m| == n
    ensures forall t: nat :: t in m <==> t < n
    ensures forall t :: t in m ==> m[t] == Launched
  {
    if n == 0 then map[] else LaunchedSlots(n - 1)[n - 1 := Launched]
  }

  /** Publishers right after the crawler is built: every slot launched, the
      queue empty, all counters at zero. */
  function InitialPublishState(): (s: PublishState)
    ensures |s.slots| == CommitThreads && !AllIdle(s.slots) && !s.commitCompleted
  {
    var slots := LaunchedSlots(CommitThreads);
    assert 0 in slots;
    PublishState([], slots, 0, 0, false)
  }

  /** How many items one drain takes from a queue of `n`. */
  function BatchSize(n: nat): nat
  {
    Min(n, BatchBound - 1)
  }

  /** The drain loop: takes items from the front of `queue` while the queue
      is not empty and the batch counter is below the bound, lowering the
      active-commit count once per item. */
  method DrainBatch(queue: seq<OutboundItem>, activeCommits: int)
    returns (batch: seq<OutboundItem>, rest: seq<OutboundItem>, commits: int, currentBatch: int)
    ensures batch + rest == queue
    ensures |batch| == BatchSize(|queue|)
    ensures commits == activeCommits - |batch|
    ensures currentBatch == |batch| + 1
  {
    batch, rest, commits, currentBatch := [], queue, activeCommits, 1;
    while |rest| > 0 && currentBatch < BatchBound
      invariant batch + rest == queue
      invariant currentBatch == |batch| + 1
      invariant commits == activeCommits - |batch|
      invariant |batch| <= BatchBound - 1
      decreases |rest|
    {
      batch := batch + [rest[0]];
      rest := rest[1..];
      commits := commits - 1;
      currentBatch := currentBatch + 1;
    }
  }

  /** What one iteration of a publisher's loop leads to. */
  datatype StepOutcome =
    | Finished(state: PublishState)
    | Waiting(state: PublishState)
    | Sent(state: PublishState, batch: seq<OutboundItem>)

  /** One iteration of publisher `t` while the crawl is in `status`. The batch
      send is an opaque call: whether it succeeded (`sendSucceeded`) changes
      nothing, and the success count rises by the final batch counter, one
      more than the number of items sent. */
  function PublisherStep(s: PublishState, t: nat, status: CrawlStatus, sendSucceeded: bool): (r: StepOutcome)
    ensures r.Sent? <==> |s.outbound| > 0
    ensures r.Finished? <==> |s.outbound| == 0 && status == Committing && AllIdle(s.slots[t := Idle])
    ensures r.Finished? ==> r.state.commitCompleted && AllIdle(r.state.slots)
    ensures !r.Finished? ==> r.state.commitCompleted == s.commitCompleted
    ensures r.Sent? ==>
              && 1 <= |r.batch| <= BatchBound - 1
              && r.batch + r.state.outbound == s.outbound
              && r.state.activeCommits == s.activeCommits - |r.batch|
              && r.state.successCount == s.successCount + |r.batch| + 1
              && r.state.slots == s.slots[t := Active]
    ensures !r.Sent? ==>
              && r.state.outbound == s.outbound
              && r.state.activeCommits == s.activeCommits
              && r.state.successCount == s.successCount
    ensures |s.outbound| == 0 && status == Committing ==> t in r.state.slots && r.state.slots[t] == Idle
    ensures |s.outbound| == 0 && status != Committing ==> r == Waiting(s)
    ensures t in r.state.slots && r.state.slots[t] == Idle && (t !in s.slots || s.slots[t] != Idle) ==>
              |s.outbound| == 0 && status == Committing
    ensures forall u :: u != t ==> (u in r.state.slots <==> u in s.slots)
    ensures forall u :: u != t && u in s.slots ==> r.state.slots[u] == s.slots[u]
  {
    if |s.outbound| == 0 then
      if status == Committing then
        var idled := s.(slots := s.slots[t := Idle]);
        if AllIdle(idled.slots) then Finished(idled.(commitCompleted := true)) else Waiting(idled)
      else Waiting(s)
    else
      var k := BatchSize(|s.outbound|);
      Sent(s.(outbound := s.outbound[k..],
              slots := s.slots[t := Active],
              activeCommits := s.activeCommits - k,
              successCount := s.successCount + k + 1),
           s.outbound[..k])
  }

  /** The drain takes a queue's first items in FIFO order: all of a queue of
      up to 9 items, and exactly 9 of a longer one. */
  lemma DrainTakesFifoPrefix(s: PublishState, t: nat, status: CrawlStatus, sendSucceeded: bool)
    requires |s.outbound| > 0
    ensures var r := PublisherStep(s, t, status, sendSucceeded);
            && r.batch == s.outbound[..|r.batch|]
            && (|s.outbound| <= BatchBound - 1 ==> r.batch == s.outbound && r.state.outbound == [])
            && (|s.outbound| > BatchBound - 1 ==> |r.batch| == BatchBound - 1)
  {
  }

  /** The send's result never matters to the publisher's state. */
  lemma SendResultIgnored(s: PublishState, t: nat, status: CrawlStatus)
    ensures PublisherStep(s, t, status, true) == PublisherStep(s, t, status, false)
  {
  }

  /** Right after launch no single publisher can complete the commit: the
      other slots still hold their launch value, not IDLE. */
  lemma NoCompletionFromLaunchedSlots(t: nat, status: CrawlStatus, sendSucceeded: bool)
    ensures !PublisherStep(InitialPublishState(), t, status, sendSucceeded).Finished?
  {
    var slots := InitialPublishState().slots;
    var u := if t == 0 then 1 else 0;
    assert u in slots && u != t;
    assert slots[t := Idle][u] == Launched;
  }

  /** The last publisher to find the queue empty while committing completes
      the commit: once every other slot is IDLE, its step finishes. */
  lemma LastIdlePublisherCompletes(s: PublishState, t: nat, sendSucceeded: bool)
    requires |s.outbound| == 0
    requires forall u :: u in s.slots && u != t ==> s.slots[u] == Idle
    ensures PublisherStep(s, t, Committing, sendSucceeded).Finished?
  {
  }

  /** Before the crawl is committing no publisher ever idles or completes. */
  lemma NoIdlingBeforeCommitting(s: PublishState, t: nat, status: CrawlStatus, sendSucceeded: bool)
    requires status != Committing
    ensures var r := PublisherStep(s, t, status, sendSucceeded);
            !r.Finished? && (t in s.slots ==> t in r.state.slots && (r.state.slots[t] == Idle ==> s.slots[t] == Idle))
  {
  }
}
