/**
 The first engine: failure and recovery with no threshold. A single timeout
 marks an interface failed; the first answered check after that marks it
 recovered, remembering when the failure started.
 */
module FailureDetection {
  import opened Records
  import opened TimeoutRuns
  import Replay

  datatype State =
    | Healthy
    | Failed(since: Timestamp)
    | Recovered(since: Timestamp, recoveredAt: Timestamp)

  /** Pushing one record into an interface's state. */
  function Step(s: State, r: LogRecord): (s': State)
    ensures s'.Failed? <==> r.IsTimedOut()
    ensures s'.Failed? ==> s'.since == (if s.Failed? then s.since else r.time)
    ensures s'.Recovered? ==> !s.Healthy? && s'.since == s.since
    ensures s'.Recovered? && s.Failed? ==> s'.recoveredAt == r.time
    ensures s' == Healthy <==> s == Healthy && !r.IsTimedOut()
  {
    match s
    case Healthy => if r.IsTimedOut() then Failed(r.time) else s
    case Failed(since) => if r.IsTimedOut() then s else Recovered(since, r.time)
    case Recovered(_, _) => if r.IsTimedOut() then Failed(r.time) else s
  }

  /** One interface's state after its records, starting Healthy. */
  function Run(rs: seq<LogRecord>): State
  {
    Replay.Run(Step, Healthy, rs)
  }

  /** The state read backwards off the records: Healthy if no check ever
      timed out; otherwise the last run of timeouts is the failure, still
      open when it ends the log and closed by the record right after it
      otherwise. */
  function Classify(rs: seq<LogRecord>): State
  {
    match LastOutage(rs, 1)
    case None => Healthy
    case Some(k) =>
      var since := rs[RunStart(rs, k)].time;
      if k == |rs| - 1 then Failed(since) else Recovered(since, rs[k + 1].time)
  }

  /** Replaying the records agrees with reading them backwards. */
  lemma {:induction false} RunMatchesClassify(rs: seq<LogRecord>)
    ensures Run(rs) == Classify(rs)
    decreases |rs|
  {
    if |rs| > 0 {
      var p, r := rs[..|rs| - 1], rs[|rs| - 1];
      assert rs == p + [r];
      RunMatchesClassify(p);
      LastOutageAppend(p, r, 1);
      if r.IsTimedOut() {
        AppendedTimeoutRun(p, r);
      } else {
        match LastOutage(p, 1)
        case None =>
        case Some(k) =>
          assert rs[k + 1] == (if k == |p| - 1 then r else p[k + 1]);
          RunStartOfPrefix(p, r, k);
      }
    }
  }

  /** The failure reported for an interface is open exactly when its log ends
      in a timeout, and it started at the first timeout of that final run. */
  lemma FailedIffEndsInTimeout(rs: seq<LogRecord>)
    ensures Run(rs).Failed? <==> |rs| > 0 && rs[|rs| - 1].IsTimedOut()
    ensures Run(rs).Failed? ==> Run(rs).since == TrailingTimeouts(rs)[0]
  {
    RunMatchesClassify(rs);
    if Run(rs).Failed? {
      TrailingRunIsRunToEnd(rs);
    }
  }

  /** An interface stays Healthy exactly when none of its checks timed out. */
  lemma HealthyIffNoTimeout(rs: seq<LogRecord>)
    ensures Run(rs) == Healthy <==> forall k :: 0 <= k < |rs| ==> !rs[k].IsTimedOut()
  {
    RunMatchesClassify(rs);
    assert forall k :: 0 <= k < |rs| ==> (OutageAt(rs, 1, k) <==> rs[k].IsTimedOut());
  }

  /** Only whether a check timed out matters, never how long the answer took:
      two logs with the same timestamps and the same timeouts give the same
      state. */
  lemma {:induction false} OnlyTimeoutsMatter(rs: seq<LogRecord>, qs: seq<LogRecord>)
    requires |rs| == |qs|
    requires forall k :: 0 <= k < |rs| ==> rs[k].time == qs[k].time && rs[k].IsTimedOut() == qs[k].IsTimedOut()
    ensures Run(rs) == Run(qs)
    decreases |rs|
  {
    if |rs| > 0 {
      OnlyTimeoutsMatter(rs[..|rs| - 1], qs[..|qs| - 1]);
    }
  }

  /** The driver: one state per interface, created Healthy on first sight. */
  function DetectFailureDuration(log: seq<LogRecord>): (m: map<Interface, State>)
    ensures m.Keys == Replay.InterfacesOf(log)
  {
    Replay.Detect(Step, Healthy, log)
  }

  /** Each interface's reported state is the backward reading of its own
      records. */
  lemma DetectClassifiesEachInterface(log: seq<LogRecord>, i: Interface)
    requires i in Replay.InterfacesOf(log)
    ensures DetectFailureDuration(log)[i] == Classify(Replay.RecordsOf(log, i))
  {
    Replay.DetectIsRunPerInterface(Step, Healthy, log, i);
    RunMatchesClassify(Replay.RecordsOf(log, i));
  }
}
