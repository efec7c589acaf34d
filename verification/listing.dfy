/** The retry loop around one directory listing: each attempt either returns
    the listing, times out, or fails with an error message; the worker retries
    until it gets a listing or an error it treats as "directory too large". */
module Listing {
  import opened Common

  /** One entry of a directory listing as the listing service returns it:
      its name relative to the listed directory, its type (`"file"`, `"dir"`,
      or anything else the service reports) and its size in bytes. */
  datatype Entry = Entry(name: string, kind: string, size: nat)

  /** The outcome of one listing call. `Failed` carries the text of the
      error (`str(e)`) for every error other than a timeout. */
  datatype Attempt =
    | Listed(entries: seq<Entry>)
    | TimedOut
    | Failed(message: string)

  /** What the retry loop does after one attempt. */
  datatype Decision = Retry | Abandon | Done(entries: seq<Entry>)

  /** What the retry loop ends with, given a finite run of attempts:
      the listing, the directory abandoned, or still retrying when the
      attempts run out (the loop itself has no retry bound). */
  datatype ListingOutcome = Listing(entries: seq<Entry>) | Abandoned | StillRetrying

  const TooLargeCode: string := "502"

  /** The first four characters of an error message, Python's `s[0:4]`. */
  function Head(message: string): string
  {
    message[..Min(4, |message|)]
  }

  /** `needle` occurs as a contiguous substring of `hay`: Python's `needle in hay`. */
  ghost predicate OccursIn(needle: string, hay: string)
  {
    exists i :: 0 <= i <= |hay| - |needle| && OccursAt(needle, hay, i)
  }

  ghost predicate OccursAt(needle: string, hay: string, i: int)
    requires 0 <= i <= |hay| - |needle|
  {
    hay[i..i + |needle|] == needle
  }

  /** The error message reports a too-large directory: "502" occurs within
      its first four characters, i.e. at position 0 or 1. */
  predicate MarksTooLarge(message: string)
    ensures MarksTooLarge(message) <==> OccursIn(TooLargeCode, Head(message))
  {
    var h := Head(message);
    var b := (|h| >= 3 && h[..3] == TooLargeCode) || (|h| >= 4 && h[1..4] == TooLargeCode);
    assert b ==> OccursIn(TooLargeCode, h) by {
      if |h| >= 3 && h[..3] == TooLargeCode {
        assert OccursAt(TooLargeCode, h, 0);
      } else if |h| >= 4 && h[1..4] == TooLargeCode {
        assert OccursAt(TooLargeCode, h, 1);
      }
    }
    b
  }

  /** Classifies one attempt: a listing ends the loop, a timeout is retried,
      any other error abandons the directory when its message marks it as too
      large and is retried otherwise. */
  function Classify(a: Attempt): (d: Decision)
    ensures d.Done? <==> a.Listed?
    ensures d.Done? ==> d.entries == a.entries
    ensures a.TimedOut? ==> d.Retry?
    ensures d.Abandon? <==> a.Failed? && OccursIn(TooLargeCode, Head(a.message))
  {
    match a
    case Listed(entries) => Done(entries)
    case TimedOut => Retry
    case Failed(message) => if MarksTooLarge(message) then Abandon else Retry
  }

  /** The retry loop over a finite run of attempts. `retried` is the number of
      attempts that were retried before the loop ended (or before the run of
      attempts ran out). */
  method AwaitListing(attempts: seq<Attempt>) returns (outcome: ListingOutcome, retried: nat)
    ensures retried <= |attempts|
    ensures forall i :: 0 <= i < retried ==> Classify(attempts[i]).Retry?
    ensures outcome.StillRetrying? <==> retried == |attempts|
    ensures retried < |attempts| ==>
              (outcome.Abandoned? <==> Classify(attempts[retried]).Abandon?)
              && (outcome.Listing? <==> attempts[retried].Listed?)
    ensures outcome.Listing? ==> outcome.entries == attempts[retried].entries
  {
    retried := 0;
    while retried < |attempts|
      invariant retried <= |attempts|
      invariant forall i :: 0 <= i < retried ==> Classify(attempts[i]).Retry?
    {
      match Classify(attempts[retried])
      case Done(entries) =>
        return Listing(entries), retried;
      case Abandon =>
        return Abandoned, retried;
      case Retry =>
        retried := retried + 1;
    }
    outcome := StillRetrying;
  }

  /** Any error whose message starts with "502" abandons the directory, and
      so does one with a single character before the code. */
  lemma TooLargeMessages(c: char, rest: string)
    ensures Classify(Failed(TooLargeCode + rest)) == Abandon
    ensures Classify(Failed([c] + TooLargeCode + rest)) == Abandon
  {
    var m1 := TooLargeCode + rest;
    assert Head(m1)[..3] == TooLargeCode;
    var m2 := [c] + TooLargeCode + rest;
    assert Head(m2)[1..4] == TooLargeCode;
  }

  /** Only the first four characters of an error message are looked at. */
  lemma OnlyHeadMatters(p: string, rest: string)
    requires |p| >= 4
    ensures Classify(Failed(p + rest)) == Classify(Failed(p))
  {
    assert Head(p + rest) == Head(p);
  }
}
