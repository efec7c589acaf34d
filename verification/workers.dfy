/** One crawl worker's loop, one iteration at a time, over an explicit
    shared state: the frontier of directories still to list (a FIFO queue),
    each worker's status, and the shared idle counter that decides when a
    worker stops. The counter is raised when a worker is demoted to IDLE and
    is never lowered when it is promoted back to ACTIVE. */
module Workers {
  import opened Paths
  import opened Listing
  import opened Expansion

  /** The number of crawl workers; also the idle count at which a worker stops. */
  const MaxCrawlThreads: int := 8

  datatype WorkerStatus = Starting | Active | Idle

  type WorkerId = nat

  datatype CrawlState = CrawlState(
    frontier: seq<Path>,
    workers: map<WorkerId, WorkerStatus>,
    idleCount: nat,
    maxThreads: int,
    failedDirs: seq<Path>)

  function IdleWorkers(workers: map<WorkerId, WorkerStatus>): set<WorkerId>
  {
    set w | w in workers && workers[w] == Idle
  }

  /** The idle counter is never below the number of workers now IDLE. */
  ghost predicate Inv(s: CrawlState)
  {
    |IdleWorkers(s.workers)| <= s.idleCount
  }

  /** The state when the crawl starts: only the root in the frontier, no
      worker yet, the idle counter at zero and nothing failed. */
  function InitialState(root: Path): (s: CrawlState)
    ensures Inv(s)
    ensures s.frontier == [root] && s.idleCount == 0
  {
    CrawlState([root], map[], 0, MaxCrawlThreads, [])
  }

  /** A worker's thread starts and announces itself as STARTING. */
  function Launch(s: CrawlState, w: WorkerId): (r: CrawlState)
    ensures w in r.workers && r.workers[w] == Starting
    ensures Inv(s) ==> Inv(r)
    ensures r.idleCount == s.idleCount && r.frontier == s.frontier
    ensures r.maxThreads == s.maxThreads && r.failedDirs == s.failedDirs
    ensures forall u :: u != w ==> (u in r.workers <==> u in s.workers)
    ensures forall u :: u != w && u in s.workers ==> r.workers[u] == s.workers[u]
  {
    IdleAfterUpdate(s.workers, w, Starting);
    s.(workers := s.workers[w := Starting])
  }

  /** What one poll of the frontier leads to. */
  datatype PollResult =
    | Terminate(state: CrawlState)
    | Wait(state: CrawlState)
    | Take(state: CrawlState, dir: Path)

  /** One poll of the frontier by worker `w`. On an empty frontier the worker
      is demoted to IDLE (counting the demotion) unless it already is, and
      stops when the counter has reached the thread count; otherwise it
      waits and polls again. On a non-empty frontier it takes the head and is
      promoted to ACTIVE, with the counter left as it is. */
  function Poll(s: CrawlState, w: WorkerId): (p: PollResult)
    requires w in s.workers
    ensures p.Take? <==> |s.frontier| > 0
    ensures p.Take? ==> [p.dir] + p.state.frontier == s.frontier
    ensures !p.Take? ==> p.state.frontier == s.frontier
    ensures p.state.idleCount >= s.idleCount
    ensures p.state.workers.Keys == s.workers.Keys
    ensures p.Terminate? ==> p.state.idleCount >= s.maxThreads && p.state.workers[w] == Idle
    ensures p.state.maxThreads == s.maxThreads && p.state.failedDirs == s.failedDirs
  {
    if |s.frontier| == 0 then
      var demoted :=
        if s.workers[w] != Idle
        then s.(workers := s.workers[w := Idle], idleCount := s.idleCount + 1)
        else s;
      if demoted.idleCount >= demoted.maxThreads then Terminate(demoted) else Wait(demoted)
    else
      var promoted := if s.workers[w] != Active then s.workers[w := Active] else s.workers;
      Take(s.(frontier := s.frontier[1..], workers := promoted), s.frontier[0])
  }

  /** Setting one worker's status adds it to, or removes it from, the IDLE
      workers and changes no other worker's membership. */
  lemma IdleAfterUpdate(m: map<WorkerId, WorkerStatus>, w: WorkerId, st: WorkerStatus)
    ensures st == Idle ==> IdleWorkers(m[w := st]) == IdleWorkers(m) + {w}
    ensures st != Idle ==> IdleWorkers(m[w := st]) == IdleWorkers(m) - {w}
    ensures st != Idle ==> |IdleWorkers(m[w := st])| <= |IdleWorkers(m)|
    ensures st == Idle && (w !in m || m[w] != Idle) ==>
              |IdleWorkers(m[w := st])| == |IdleWorkers(m)| + 1
  {
    if st == Idle {
      IdleAfterDemotion(m, w);
    } else {
      IdleAfterOther(m, w, st);
    }
  }

  lemma IdleAfterDemotion(m: map<WorkerId, WorkerStatus>, w: WorkerId)
    ensures IdleWorkers(m[w := Idle]) == IdleWorkers(m) + {w}
  {
    forall u | u in IdleWorkers(m[w := Idle])
      ensures u in IdleWorkers(m) + {w}
    {
    }
  }

  lemma IdleAfterOther(m: map<WorkerId, WorkerStatus>, w: WorkerId, st: WorkerStatus)
    requires st != Idle
    ensures IdleWorkers(m[w := st]) == IdleWorkers(m) - {w}
  {
    forall u | u in IdleWorkers(m) - {w}
      ensures u in IdleWorkers(m[w := st])
    {
    }
  }

  /** A poll keeps the counter at or above the number of IDLE workers. */
  lemma PollPreservesInv(s: CrawlState, w: WorkerId)
    requires w in s.workers && Inv(s)
    ensures Inv(Poll(s, w).state)
  {
    if |s.frontier| == 0 {
      if s.workers[w] != Idle {
        IdleAfterUpdate(s.workers, w, Idle);
      }
    } else if s.workers[w] != Active {
      IdleAfterUpdate(s.workers, w, Active);
    }
  }

  /** On an empty frontier a worker that is not IDLE becomes IDLE and the
      counter rises by exactly one; nothing else changes. */
  lemma EmptyPollDemotes(s: CrawlState, w: WorkerId)
    requires w in s.workers && |s.frontier| == 0 && s.workers[w] != Idle
    ensures Poll(s, w).state == s.(workers := s.workers[w := Idle], idleCount := s.idleCount + 1)
  {
  }

  /** On an empty frontier an already IDLE worker changes nothing: repeated
      empty polls are not counted twice. */
  lemma EmptyPollWhenIdle(s: CrawlState, w: WorkerId)
    requires w in s.workers && |s.frontier| == 0 && s.workers[w] == Idle
    ensures Poll(s, w).state == s
  {
  }

  /** An empty poll stops the worker exactly when the counter, after the
      possible demotion, has reached the thread count. */
  lemma EmptyPollTerminatesIff(s: CrawlState, w: WorkerId)
    requires w in s.workers && |s.frontier| == 0
    ensures Poll(s, w).Terminate?
            <==> s.idleCount + (if s.workers[w] != Idle then 1 else 0) >= s.maxThreads
  {
  }

  /** Taking a directory pops the head and makes the worker ACTIVE without
      touching the counter. */
  lemma TakePromotes(s: CrawlState, w: WorkerId)
    requires w in s.workers && |s.frontier| > 0
    ensures Poll(s, w) == Take(s.(frontier := s.frontier[1..], workers := s.workers[w := Active]),
                               s.frontier[0])
  {
    if s.workers[w] == Active {
      assert s.workers[w := Active] == s.workers;
    }
  }

  /** Promoting an IDLE worker lowers the number of IDLE workers but not the
      counter, so from then on the counter overstates the IDLE workers. */
  lemma PromotionOvercounts(s: CrawlState, w: WorkerId)
    requires w in s.workers && s.workers[w] == Idle && |s.frontier| > 0
    ensures Poll(s, w).state.idleCount == s.idleCount
    ensures |IdleWorkers(Poll(s, w).state.workers)| + 1 == |IdleWorkers(s.workers)|
  {
    IdleAfterUpdate(s.workers, w, Active);
    assert w in IdleWorkers(s.workers);
  }

  /** What one full iteration of a worker's loop leads to. */
  datatype Iteration =
    | Exited(state: CrawlState)
    | Waited(state: CrawlState)
    | Dropped(state: CrawlState, dir: Path)
    | Retrying(state: CrawlState, dir: Path)
    | Expanded(state: CrawlState, dir: Path, metadata: map<Path, FileMetadata>, halted: bool)

  /** One iteration of worker `w`: poll the frontier; on a taken directory run
      the retry loop over `attempts` (the successive outcomes of the listing
      call) and expand the listing it ends with. A directory abandoned as too
      large is dropped without any record. */
  method WorkerIteration(s: CrawlState, w: WorkerId, attempts: seq<Attempt>) returns (it: Iteration)
    requires w in s.workers
    ensures Inv(s) ==> Inv(it.state)
    ensures it.state.idleCount >= s.idleCount
    ensures it.state.failedDirs == s.failedDirs
    ensures it.state.workers.Keys == s.workers.Keys
    ensures it.state.maxThreads == s.maxThreads
    ensures forall u :: u in s.workers && u != w ==> it.state.workers[u] == s.workers[u]
    ensures it.Exited? || it.Waited? <==> |s.frontier| == 0
    ensures |s.frontier| == 0 ==> it.state == Poll(s, w).state && (it.Exited? <==> Poll(s, w).Terminate?)
    ensures it.Exited? || it.Waited? ==> it.state.frontier == s.frontier
    ensures it.Exited? ==> it.state.idleCount >= s.maxThreads
    ensures it.Dropped? || it.Retrying? || it.Expanded? ==>
              it.dir == s.frontier[0] && it.state.workers[w] == Active
              && it.state.idleCount == s.idleCount
    ensures it.Dropped? || it.Retrying? ==> it.state.frontier == s.frontier[1..]
    ensures it.Dropped? ==>
              exists k :: 0 <= k < |attempts| && Classify(attempts[k]).Abandon?
                          && forall i :: 0 <= i < k ==> Classify(attempts[i]).Retry?
    ensures it.Retrying? ==> forall i :: 0 <= i < |attempts| ==> Classify(attempts[i]).Retry?
    ensures it.Expanded? ==>
              exists k :: 0 <= k < |attempts| && attempts[k].Listed?
                          && (forall i :: 0 <= i < k ==> Classify(attempts[i]).Retry?)
                          && Expand(it.dir, attempts[k].entries, s.frontier[1..])
                             == Expansion(it.state.frontier, it.metadata, it.halted)
  {
    var p := Poll(s, w);
    if Inv(s) {
      PollPreservesInv(s, w);
    }
    match p
    case Terminate(s1) =>
      return Exited(s1);
    case Wait(s1) =>
      return Waited(s1);
    case Take(s1, dir) =>
      TakePromotes(s, w);
      var outcome, retried := AwaitListing(attempts);
      match outcome
      case Abandoned =>
        return Dropped(s1, dir);
      case StillRetrying =>
        return Retrying(s1, dir);
      case Listing(entries) =>
        var x := Expand(dir, entries, s1.frontier);
        return Expanded(s1.(frontier := x.frontier), dir, x.metadata, x.halted);
  }

  /** A stop looks only at the counter: a worker stops on an empty frontier
      even while another worker is ACTIVE on a directory it took. */
  lemma StopIgnoresActiveWorkers(s: CrawlState, w: WorkerId, v: WorkerId)
    requires w in s.workers && v in s.workers && v != w && s.workers[v] == Active
    requires |s.frontier| == 0 && s.workers[w] != Idle && s.idleCount + 1 >= s.maxThreads
    ensures Poll(s, w).Terminate? && Poll(s, w).state.workers[v] == Active
  {
  }

  /** The root of the two-worker run lists two sub-directories. */
  lemma RootListsTwoDirectories()
    ensures Expand("/r", [Entry("a", DirKind, 0), Entry("b", DirKind, 0)], []).frontier
            == ["/r/a", "/r/b"]
  {
    var listing := [Entry("a", DirKind, 0), Entry("b", DirKind, 0)];
    assert FirstFile(listing).None?;
    ExpandWithoutFiles("/r", listing, []);
    assert listing[1..][1..] == [];
    assert DirPaths("/r", listing) == [Join("/r", "a"), Join("/r", "b")];
    assert Join("/r", "a") == "/r/a" && Join("/r", "b") == "/r/b";
    assert [] + ["/r/a", "/r/b"] == ["/r/a", "/r/b"];
  }

  /** The steps of the two-worker run below, one poll each. */
  lemma RunStep1()
    ensures Poll(CrawlState(["/r"], map[0 := Starting, 1 := Starting], 0, 2, []), 0)
            == Take(CrawlState([], map[0 := Active, 1 := Starting], 0, 2, []), "/r")
  {
    TakePromotes(CrawlState(["/r"], map[0 := Starting, 1 := Starting], 0, 2, []), 0);
  }

  lemma RunStep2()
    ensures Poll(CrawlState([], map[0 := Active, 1 := Starting], 0, 2, []), 1)
            == Wait(CrawlState([], map[0 := Active, 1 := Idle], 1, 2, []))
  {
    EmptyPollDemotes(CrawlState([], map[0 := Active, 1 := Starting], 0, 2, []), 1);
  }

  lemma RunStep3()
    ensures Poll(CrawlState(["/r/a", "/r/b"], map[0 := Active, 1 := Idle], 1, 2, []), 1)
            == Take(CrawlState(["/r/b"], map[0 := Active, 1 := Active], 1, 2, []), "/r/a")
  {
    TakePromotes(CrawlState(["/r/a", "/r/b"], map[0 := Active, 1 := Idle], 1, 2, []), 1);
    assert map[0 := Active, 1 := Idle][1 := Active] == map[0 := Active, 1 := Active];
  }

  lemma RunStep4()
    ensures Poll(CrawlState(["/r/b"], map[0 := Active, 1 := Active], 1, 2, []), 0)
            == Take(CrawlState([], map[0 := Active, 1 := Active], 1, 2, []), "/r/b")
  {
    TakePromotes(CrawlState(["/r/b"], map[0 := Active, 1 := Active], 1, 2, []), 0);
  }

  lemma RunStep5()
    ensures Poll(CrawlState([], map[0 := Active, 1 := Active], 1, 2, []), 0)
            == Terminate(CrawlState([], map[0 := Idle, 1 := Active], 2, 2, []))
  {
    EmptyPollDemotes(CrawlState([], map[0 := Active, 1 := Active], 1, 2, []), 0);
    assert map[0 := Active, 1 := Active][0 := Idle] == map[0 := Idle, 1 := Active];
  }

  /** With two workers the counter can reach the thread count while the other
      worker is still ACTIVE on a directory it took: the root lists two
      sub-directories, worker 1 idles once before taking one of them, and
      worker 0 then stops as soon as it finds the frontier empty. */
  lemma TerminationWhileWorkerActive()
    ensures
      var s0 := CrawlState(["/r"], map[0 := Starting, 1 := Starting], 0, 2, []);
      var s1 := Poll(s0, 0).state;                       // worker 0 takes "/r"
      var s2 := Poll(s1, 1).state;                       // worker 1 idles
      var listing := [Entry("a", DirKind, 0), Entry("b", DirKind, 0)];
      var s3 := s2.(frontier := Expand("/r", listing, s2.frontier).frontier);
      var s4 := Poll(s3, 1).state;                       // worker 1 takes "/r/a"
      var s5 := Poll(s4, 0).state;                       // worker 0 takes "/r/b", lists nothing
      var p6 := Poll(s5, 0);                             // worker 0 stops
      && p6.Terminate?
      && p6.state.workers[1] == Active
      && p6.state.idleCount == 2
      && IdleWorkers(p6.state.workers) == {0}
  {
    RunStep1();
    RunStep2();
    RootListsTwoDirectories();
    RunStep3();
    RunStep4();
    RunStep5();
    assert IdleWorkers(map[0 := Idle, 1 := Active]) == {0};
  }
}
