# Globus crawler core: a Dafny model

This project models the sequential decision logic inside the Globus crawler
(`crawlers/globus_base_preserved.py`). The crawler walks a remote directory
tree with a pool of crawl workers. The workers share a FIFO frontier of
directories still to list, and a shared idle counter decides when a worker
stops. A second pool of publisher threads drains an outbound queue of
families in small batches. A crawl status moves from STARTING to COMMITTING
to SUCCEEDED.

The threads are not modelled. Each piece of per-thread logic is written as a
pure function or a single-step transition over an explicit state record:

- `Paths`: the extension of a file name (`get_extension`) and POSIX
  `os.path.join` for a directory and an entry name.
- `Listing`: the retry loop around a directory listing. It classifies each
  attempt as a retry, an abandoned directory, or a finished listing.
- `Expansion`: how one listing is expanded. Directories are appended to the
  frontier. Files become metadata records. The worker halts right after
  recording the first file.
- `Workers`: one poll of the frontier by one worker, and a full loop
  iteration. The poll covers demotion to IDLE, the termination check, and
  dequeue with promotion to ACTIVE.
- `Publisher`: one iteration of a publisher thread. It covers the bounded
  drain, the counters it updates, the IDLE rule and commit completion.
- `Lifecycle`: the crawl status assignments.
- `Common`: `Option` and `Min`.

Behaviour of the code that the model reproduces on purpose:

- The idle counter rises on every demotion to IDLE and never falls on
  promotion back to ACTIVE. A worker stops when the counter reaches the
  thread count, even while another worker is still ACTIVE
  (`Workers.TerminationWhileWorkerActive`).
- The listing loop catches every error. Errors whose first four characters
  contain "502" abandon the directory without any record, and all other
  errors are retried without bound. The outer `TransferAPIError` handler
  (lines 411-417) therefore never sees a listing error, and `failed_dirs`
  stays empty. `Workers.WorkerIteration` leaves `failedDirs` unchanged on
  every path.
- `exit()` follows the first file record (line 326). It raises SystemExit,
  so no later entry of that listing is examined and that worker's loop never
  resumes. The model reports this as `halted`.
- The drain loop's counter starts at 1 and runs while it is below 10. A batch
  therefore holds at most 9 items, and the success count rises by one more
  than the number of items sent.
- Publisher slots start as the value `True` (line 106), which is not IDLE.
  The model calls this value `Launched`.

Consequences of the code as written:

- The idle counter is never decremented on promotion, so it does not track
  the number of IDLE workers exactly. The model proves only the bound it does
  keep: the counter is at least the number of IDLE workers (`Workers.Inv`).
- The code assigns only the statuses STARTING, COMMITTING and SUCCEEDED.
  There is no separate crawling or failed status.
- Too-large directories are not recorded anywhere, and only the first file
  of a listing is recorded (see above).

Assumptions:

- Status checks in the code use identity (`is not "IDLE"`). The model uses
  enumerated statuses compared by value.
- Entry names are taken as given. `Join` follows POSIX `os.path.join` for two
  arguments: an absolute name replaces the directory, and no separator is
  added after an empty directory or one that already ends in `/`.

## Model

| member | source | states |
|---|---|---|
| `Paths.AfterLast` | crawlers/globus_base_preserved.py:164 | The final segment is the longest suffix of the path that contains no `/`. It is the whole path when there is no `/`, and is otherwise preceded by a `/`. |
| `Paths.GetExtension` | crawlers/globus_base_preserved.py:157-169 | The result is None exactly when the final segment has no dot. Otherwise it is the text after the segment's last dot, and it contains neither `.` nor `/`. |
| `Paths.DirectoryDotsIgnored` | crawlers/globus_base_preserved.py:164-169 | Dots in directory names are ignored: `dir/name` has the same extension as `name`. |
| `Paths.TrailingDotGivesEmptyExtension` | crawlers/globus_base_preserved.py:167-168 | A name ending in a dot (e.g. `"a."`) has the empty extension, not None. |
| `Paths.Join` | crawlers/globus_base_preserved.py:310 | Joining keeps the directory as prefix and the relative name as suffix. It inserts exactly one `/` when the directory is non-empty and does not end in one, and none otherwise. An absolute name replaces the directory. |
| `Paths.JoinKeepsExtension` | crawlers/globus_base_preserved.py:310-317 | The joined path has the entry's final segment, so the extension recorded from the entry name is the extension of the recorded path. |
| `Listing.MarksTooLarge` | crawlers/globus_base_preserved.py:294 | The too-large test holds exactly when "502" occurs as a substring of the message's first four characters. |
| `Listing.Classify` | crawlers/globus_base_preserved.py:273-297 | A listing ends the loop with its entries, and a timeout is retried. Any other error abandons the directory iff "502" occurs in its first four characters, and is retried otherwise. |
| `Listing.AwaitListing` | crawlers/globus_base_preserved.py:272-304 | Every attempt before the decisive one was retried. The loop ends with the first listing or the first too-large error. It is still retrying exactly when the attempts are all retries. |
| `Listing.TooLargeMessages` | crawlers/globus_base_preserved.py:294-297 | Messages starting with "502", or with one character and then "502", abandon the directory. |
| `Listing.OnlyHeadMatters` | crawlers/globus_base_preserved.py:294 | Text after the fourth character never changes the classification. |
| `Expansion.Expand` | crawlers/globus_base_preserved.py:308-352 | Expansion only appends to the back of the frontier, at most one path per entry. At most one file is recorded, and the worker halts exactly when one is. |
| `Expansion.ExpandWithoutFiles` | crawlers/globus_base_preserved.py:350-352 | Without a file entry, the joined paths of all `dir` entries are appended in listing order. Nothing is recorded and the worker continues. |
| `Expansion.ExpandUpToFirstFile` | crawlers/globus_base_preserved.py:310-326 | With a file entry, only the `dir` entries before the first file are appended. Only that file is recorded, as `{size, extension of its name, "globus"}` under its joined path, and the worker halts. |
| `Expansion.HaltsIffFile` | crawlers/globus_base_preserved.py:311-326 | The worker halts during an expansion exactly when the listing contains a `file` entry. |
| `Expansion.EntriesAfterFirstFileIgnored` | crawlers/globus_base_preserved.py:320-326 | Entries after the first file have no effect on the expansion. |
| `Workers.InitialState` | crawlers/globus_base_preserved.py:59-62 | The crawl starts with the root alone in the frontier (lines 427-428) and the idle counter at 0 (line 61), which satisfies the counter invariant. |
| `Workers.Launch` | crawlers/globus_base_preserved.py:222 | A starting worker's slot reads STARTING. Every other worker keeps its presence and status, the counter, frontier, thread count and failed directories are unchanged, and the invariant is kept. |
| `Workers.Poll` | crawlers/globus_base_preserved.py:234-269 | A poll takes a directory iff the frontier is non-empty, and then it pops the head. Otherwise the frontier is unchanged. The counter never decreases. A stop happens only with the counter at or above the thread count and the worker IDLE. |
| `Workers.PollPreservesInv` | crawlers/globus_base_preserved.py:235-268 | After every poll the counter is still at least the number of IDLE workers. |
| `Workers.EmptyPollDemotes` | crawlers/globus_base_preserved.py:235-240 | On an empty frontier, a worker that is not IDLE becomes IDLE and the counter rises by exactly one. Nothing else changes. |
| `Workers.EmptyPollWhenIdle` | crawlers/globus_base_preserved.py:236-240 | On an empty frontier an already IDLE worker leaves the state unchanged, so repeated empty polls are not counted twice. |
| `Workers.EmptyPollTerminatesIff` | crawlers/globus_base_preserved.py:244-250 | An empty poll stops the worker iff the counter, after the possible demotion, is at least the thread count. Otherwise the worker waits and polls again. |
| `Workers.TakePromotes` | crawlers/globus_base_preserved.py:252-268 | Taking a directory pops the frontier head and sets the worker ACTIVE. The counter is not touched. |
| `Workers.PromotionOvercounts` | crawlers/globus_base_preserved.py:256-268 | Re-promoting an IDLE worker removes it from the IDLE workers and leaves the counter as it was. |
| `Workers.StopIgnoresActiveWorkers` | crawlers/globus_base_preserved.py:244-246 | The stop test looks only at the counter: a worker demoted on an empty frontier stops once the counter reaches the thread count, even while another worker is ACTIVE. |
| `Workers.WorkerIteration` | crawlers/globus_base_preserved.py:230-352 | A full loop iteration keeps the invariant and never lowers the counter. On an empty frontier its state is exactly the poll's (demotion included) and it stops exactly when the poll's termination test holds. Other workers' statuses and the thread count never change, and no failed directory is recorded. An abandoned or still-retrying directory leaves just the popped frontier. An expansion matches the first listing after the retried attempts. |
| `Workers.TerminationWhileWorkerActive` | crawlers/globus_base_preserved.py:235-268 | With two workers, the counter reaches 2 while only one worker is IDLE. A worker then stops while the other is still ACTIVE. |
| `Lifecycle.Next` | crawlers/globus_base_preserved.py:446-453 | Each status assignment moves the crawl exactly one step forward, and nothing follows SUCCEEDED. |
| `Lifecycle.History` | crawlers/globus_base_preserved.py:419-453 | The statuses from any point on are strictly increasing and end at SUCCEEDED. |
| `Lifecycle.CrawlHistory` | crawlers/globus_base_preserved.py:59 | From the initial STARTING, the crawl takes STARTING, COMMITTING and SUCCEEDED in that order. |
| `Publisher.LaunchedSlots` | crawlers/globus_base_preserved.py:102-106 | Starting `n` publishers gives exactly the slots `0..n-1`, all holding the launch value. |
| `Publisher.InitialPublishState` | crawlers/globus_base_preserved.py:100-107 | Right after launch there are 10 slots, they are not all IDLE, and the commit is not complete. |
| `Publisher.DrainBatch` | crawlers/globus_base_preserved.py:137-142 | The drain loop takes the queue's first `min(n, 9)` items in FIFO order. It lowers the active-commit count by that number and ends with its batch counter one above it. |
| `Publisher.PublisherStep` | crawlers/globus_base_preserved.py:116-155 | A non-empty queue yields a batch of 1 to 9 items in FIFO order. Active commits fall by the batch size, and successes rise by one more. The slot becomes IDLE on an empty queue while COMMITTING, and only then. An empty queue in any other status leaves the state unchanged. The commit completes exactly when every slot is then IDLE. Other slots are untouched. |
| `Publisher.DrainTakesFifoPrefix` | crawlers/globus_base_preserved.py:137-142 | A queue of up to 9 items is drained completely. A longer queue loses exactly its first 9. |
| `Publisher.SendResultIgnored` | crawlers/globus_base_preserved.py:148-155 | Whether the batch send succeeded makes no difference to the resulting state. |
| `Publisher.NoCompletionFromLaunchedSlots` | crawlers/globus_base_preserved.py:122-131 | From the freshly launched slots, no single publisher step can complete the commit. |
| `Publisher.LastIdlePublisherCompletes` | crawlers/globus_base_preserved.py:124-131 | While COMMITTING, on an empty queue, the publisher whose slot is the last one not IDLE completes the commit. |
| `Publisher.NoIdlingBeforeCommitting` | crawlers/globus_base_preserved.py:122-133 | Before the crawl is COMMITTING, no publisher becomes IDLE or completes the commit. |

## Left out

- Threads, joins, `sleep` and `randint` back-off (lines 103-105, 126, 132, 248-249, 437-450) are left out. The model has single sequential steps. Interleavings are left to the caller, who composes the steps in any order.
- The race branch around `to_crawl.get()` (lines 255-264) is left out. In a sequential model a non-empty frontier always yields its head.
- SQS queue creation and `send_message_batch` (lines 81-91, 148-153) are left out. The send is an opaque call, and its result is a parameter that affects nothing.
- The Globus calls are left out: token introspection (171-187), `get_transfer` with autoactivation and `sys.exit` (192-207), and `operation_ls` itself (277). The model takes the successive listing outcomes as an input sequence.
- `Listing.AwaitListing` covers only finitely many attempts. The loop in the code retries without bound, and the model reports "still retrying" when the given attempts run out.
- Postgres insert and update (109-114, 430-435), the JSON failure files (473-477), logging setup (25-39, 211-220) and printing are left out. They are I/O.
- The extension-category tallies (327-346) are left out. They are unreachable after `exit()` and depend on a grouper's mappings that are not part of this model.
- The commented-out family and group assembly (359-409) is left out because it is not live code. It holds the file's only `families_to_enqueue.put` (line 408), so in the live code the outbound queue is always empty: the drain loop (139-142) never runs, and `active_commits` and `success_group_commit_count` never change. `Publisher.DrainBatch` and the `Sent` outcome of `Publisher.PublisherStep` model code that this file never reaches; they describe what the loop does once something fills the queue.
- `uuid4` (190) and timing values are left out because they are nondeterministic.
- `Workers.Poll` requires the worker to have a status slot. The code creates that slot when the worker starts (line 222, `Workers.Launch`), before the worker first polls.
- The `commit_queue_empty` wait before the registry update (464-471) is left out. The flag is constantly true and only gates I/O.
