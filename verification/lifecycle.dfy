/** The crawl's status as the crawler object records it: STARTING when the
    crawler is built, COMMITTING once every crawl worker has returned, and
    SUCCEEDED once every publisher has returned. */
module Lifecycle {
  import opened Common

  datatype CrawlStatus = Starting | Committing | Succeeded

  const InitialStatus: CrawlStatus := Starting

  /** Position of a status in the crawl's progression. */
  function Rank(s: CrawlStatus): nat
  {
    match s
    case Starting => 0
    case Committing => 1
    case Succeeded => 2
  }

  /** The status the crawl driver assigns next, if any. Each assignment moves
      the crawl exactly one step forward, and nothing follows SUCCEEDED. */
  function Next(s: CrawlStatus): (r: Option<CrawlStatus>)
    ensures r.Some? ==> Rank(r.value) == Rank(s) + 1
    ensures r.None? <==> s == Succeeded
  {
    match s
    case Starting => Some(Committing)
    case Committing => Some(Succeeded)
    case Succeeded => None
  }

  /** The statuses the crawl goes through from `s` on. */
  function History(s: CrawlStatus): (h: seq<CrawlStatus>)
    ensures |h| >= 1 && h[0] == s && h[|h| - 1] == Succeeded
    ensures |h| == 3 - Rank(s)
    ensures forall i, j :: 0 <= i < j < |h| ==> Rank(h[i]) < Rank(h[j])
    decreases 2 - Rank(s)
  {
    match Next(s)
    case None => [s]
    case Some(t) => [s] + History(t)
  }

  /** A crawl takes the statuses STARTING, COMMITTING and SUCCEEDED, each once
      and in that order. */
  lemma CrawlHistory()
    ensures History(InitialStatus) == [Starting, Committing, Succeeded]
  {
    assert History(Succeeded) == [Succeeded];
    assert History(Committing) == [Committing, Succeeded];
  }
}
