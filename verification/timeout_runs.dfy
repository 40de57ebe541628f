/**
 Reference definitions over one interface's record sequence, read backwards
 from the end rather than replayed forwards: the trailing run of timeouts, the
 start of the run ending at a given record, and the last record at which a run
 of timeouts had reached a given length (an outage). The state machines are
 proved to agree with these.
 */
module TimeoutRuns {
  import opened Records

  /** The timestamps of the maximal run of timeouts that ends the sequence. */
  function TrailingTimeouts(rs: seq<LogRecord>): (ts: seq<Timestamp>)
    ensures |ts| <= |rs|
    ensures forall k :: |rs| - |ts| <= k < |rs| ==> rs[k].IsTimedOut() && ts[k - (|rs| - |ts|)] == rs[k].time
    ensures |ts| < |rs| ==> !rs[|rs| - |ts| - 1].IsTimedOut()
    decreases |rs|
  {
    if |rs| == 0 || !rs[|rs| - 1].IsTimedOut() then []
    else TrailingTimeouts(rs[..|rs| - 1]) + [rs[|rs| - 1].time]
  }

  /** The index where the maximal run of timeouts ending at index k starts
      (k itself when the record before k is not a timeout). */
  function RunStart(rs: seq<LogRecord>, k: nat): (j: nat)
    requires k < |rs|
    ensures j <= k
    ensures forall m :: j <= m < k ==> rs[m].IsTimedOut()
    ensures j == 0 || !rs[j - 1].IsTimedOut()
    decreases k
  {
    if k > 0 && rs[k - 1].IsTimedOut() then RunStart(rs, k - 1) else k
  }

  /** Record k closes a run of at least `threshold` consecutive timeouts. */
  predicate OutageAt(rs: seq<LogRecord>, threshold: int, k: nat)
    requires k < |rs|
  {
    rs[k].IsTimedOut() && k + 1 - RunStart(rs, k) >= threshold
  }

  /** The last index below n at which an outage is reached, if any. */
  function LastOutageBelow(rs: seq<LogRecord>, threshold: int, n: nat): (o: Option<nat>)
    requires n <= |rs|
    ensures o.Some? ==> o.value < n && OutageAt(rs, threshold, o.value)
    ensures o.Some? ==> forall k :: o.value < k < n ==> !OutageAt(rs, threshold, k)
    ensures o.None? ==> forall k :: 0 <= k < n ==> !OutageAt(rs, threshold, k)
    decreases n
  {
    if n == 0 then None
    else if OutageAt(rs, threshold, n - 1) then Some(n - 1)
    else LastOutageBelow(rs, threshold, n - 1)
  }

  /** The last index of the whole sequence at which an outage is reached. */
  function LastOutage(rs: seq<LogRecord>, threshold: int): Option<nat>
  {
    LastOutageBelow(rs, threshold, |rs|)
  }

  /** When the sequence ends in a timeout, the trailing run is exactly the run
      ending at the last record. */
  lemma TrailingRunIsRunToEnd(rs: seq<LogRecord>)
    requires |rs| > 0 && rs[|rs| - 1].IsTimedOut()
    ensures |TrailingTimeouts(rs)| == |rs| - RunStart(rs, |rs| - 1)
    ensures TrailingTimeouts(rs)[0] == rs[RunStart(rs, |rs| - 1)].time
  {
  }

  /** Extending a sequence does not move the start of a run inside it. */
  lemma {:induction false} RunStartOfPrefix(rs: seq<LogRecord>, r: LogRecord, k: nat)
    requires k < |rs|
    ensures RunStart(rs + [r], k) == RunStart(rs, k)
    decreases k
  {
    if k > 0 && rs[k - 1].IsTimedOut() {
      RunStartOfPrefix(rs, r, k - 1);
    }
  }

  /** Outages inside a sequence stay outages, at the same places, once it is
      extended. */
  lemma OutageOfPrefix(rs: seq<LogRecord>, r: LogRecord, threshold: int, k: nat)
    requires k < |rs|
    ensures OutageAt(rs + [r], threshold, k) == OutageAt(rs, threshold, k)
  {
    RunStartOfPrefix(rs, r, k);
  }

  /** Appending one record: the last outage is either the new record or the
      last outage before it. */
  lemma {:induction false} LastOutageAppend(rs: seq<LogRecord>, r: LogRecord, threshold: int)
    ensures OutageAt(rs + [r], threshold, |rs|) ==> LastOutage(rs + [r], threshold) == Some(|rs|)
    ensures !OutageAt(rs + [r], threshold, |rs|) ==> LastOutage(rs + [r], threshold) == LastOutage(rs, threshold)
  {
    if !OutageAt(rs + [r], threshold, |rs|) {
      LastOutageBelowPrefix(rs, r, threshold, |rs|);
    }
  }

  lemma {:induction false} LastOutageBelowPrefix(rs: seq<LogRecord>, r: LogRecord, threshold: int, n: nat)
    requires n <= |rs|
    ensures LastOutageBelow(rs + [r], threshold, n) == LastOutageBelow(rs, threshold, n)
    decreases n
  {
    if n > 0 {
      OutageOfPrefix(rs, r, threshold, n - 1);
      LastOutageBelowPrefix(rs, r, threshold, n - 1);
    }
  }

  /** The run through an appended timeout is one longer than the trailing run
      before it. */
  lemma AppendedTimeoutRun(rs: seq<LogRecord>, r: LogRecord)
    requires r.IsTimedOut()
    ensures TrailingTimeouts(rs + [r]) == TrailingTimeouts(rs) + [r.time]
    ensures |rs + [r]| - RunStart(rs + [r], |rs|) == |TrailingTimeouts(rs)| + 1
    ensures RunStart(rs + [r], |rs|) < |rs| ==> RunStart(rs + [r], |rs|) == RunStart(rs, |rs| - 1)
    ensures (rs + [r])[RunStart(rs + [r], |rs|)].time == TrailingTimeouts(rs + [r])[0]
  {
    assert (rs + [r])[..|rs|] == rs;
    TrailingRunIsRunToEnd(rs + [r]);
    if |rs| > 0 && rs[|rs| - 1].IsTimedOut() {
      RunStartOfPrefix(rs, r, |rs| - 1);
    }
  }

  /** When the sequence does not end in an outage, its trailing run is shorter
      than the threshold. */
  lemma ShortTrailingRun(rs: seq<LogRecord>, threshold: int)
    requires threshold >= 1
    requires |rs| == 0 || !OutageAt(rs, threshold, |rs| - 1)
    ensures |TrailingTimeouts(rs)| < threshold
  {
    if |rs| > 0 && rs[|rs| - 1].IsTimedOut() {
      TrailingRunIsRunToEnd(rs);
    }
  }
}
