/**
 The second engine: failure needs a configurable number of consecutive
 timeouts. A healthy interface keeps the timestamps of its current run of
 timeouts; once the run is long enough the interface fails, and the failure
 is dated by the FIRST timeout of the run. A recovered interface follows the
 healthy rules again, keeping the annotation of the failure it recovered from.
 */
module TimeoutHysteresis {
  import opened Records
  import opened TimeoutRuns
  import Replay
  import FailureDetection

  datatype State =
    | Healthy(timeouts: seq<Timestamp>)
    | Failed(since: Timestamp)
    | Recovered(timeouts: seq<Timestamp>, since: Timestamp, recoveredAt: Timestamp)

  const Initial: State := Healthy([])

  /** What the healthy rules do with the timeout chain: extend it on a
      timeout and fail once it is long enough, empty it on an answer. */
  datatype ChainOutcome = KeepChain(timeouts: seq<Timestamp>) | FailSince(since: Timestamp)

  function ChainStep(threshold: int, timeouts: seq<Timestamp>, r: LogRecord): (o: ChainOutcome)
    ensures o.FailSince? <==> r.IsTimedOut() && |timeouts| + 1 >= threshold
    ensures o.FailSince? ==> o.since == (timeouts + [r.time])[0]
    ensures o.KeepChain? ==> o.timeouts == (if r.IsTimedOut() then timeouts + [r.time] else [])
  {
    if r.IsTimedOut() then
      var chain := timeouts + [r.time];
      if |chain| >= threshold then FailSince(chain[0]) else KeepChain(chain)
    else KeepChain([])
  }

  /** Pushing one record. Healthy and Recovered share the healthy rules;
      `threshold` is the consecutive-timeout threshold. */
  function Step(threshold: int, s: State, r: LogRecord): (s': State)
    ensures !r.IsTimedOut() ==> !s'.Failed?
    ensures s.Failed? && r.IsTimedOut() ==> s' == s
    ensures s'.Failed? && !s.Failed? ==>
              |s.timeouts| + 1 >= threshold && s'.since == (s.timeouts + [r.time])[0]
    ensures s'.Recovered? ==> !s.Healthy? && s'.since == s.since
    ensures !s'.Failed? && !r.IsTimedOut() ==> s'.timeouts == []
  {
    match s
    case Failed(since) => if r.IsTimedOut() then s else Recovered([], since, r.time)
    case Healthy(timeouts) =>
      (match ChainStep(threshold, timeouts, r)
       case FailSince(since) => Failed(since)
       case KeepChain(chain) => Healthy(chain))
    case Recovered(timeouts, since, at) =>
      (match ChainStep(threshold, timeouts, r)
       case FailSince(start) => Failed(start)
       case KeepChain(chain) => Recovered(chain, since, at))
  }

  function StepAt(threshold: int): (State, LogRecord) -> State
  {
    (s, r) => Step(threshold, s, r)
  }

  /** One interface's state after its records, starting Healthy. */
  function Run(threshold: int, rs: seq<LogRecord>): State
  {
    Replay.Run(StepAt(threshold), Initial, rs)
  }

  /** The state read backwards off the records: the last place where a run of
      timeouts reached the threshold is the failure (open when that run ends
      the log, closed by the next record otherwise); the timeout chain is the
      trailing run of timeouts. */
  function Classify(threshold: int, rs: seq<LogRecord>): State
  {
    match LastOutage(rs, threshold)
    case None => Healthy(TrailingTimeouts(rs))
    case Some(k) =>
      var since := rs[RunStart(rs, k)].time;
      if k == |rs| - 1 then Failed(since)
      else Recovered(TrailingTimeouts(rs), since, rs[k + 1].time)
  }

  /** Reading one more record backwards is one step of the machine. */
  lemma ClassifyAppend(threshold: int, p: seq<LogRecord>, r: LogRecord)
    requires threshold >= 1
    ensures Classify(threshold, p + [r]) == Step(threshold, Classify(threshold, p), r)
  {
    LastOutageAppend(p, r, threshold);
    if r.IsTimedOut() {
      ClassifyAppendTimeout(threshold, p, r);
    } else {
      match LastOutage(p, threshold)
      case None =>
      case Some(k) =>
        assert (p + [r])[k + 1] == (if k == |p| - 1 then r else p[k + 1]);
        RunStartOfPrefix(p, r, k);
    }
  }

  lemma ClassifyAppendTimeout(threshold: int, p: seq<LogRecord>, r: LogRecord)
    requires threshold >= 1 && r.IsTimedOut()
    ensures Classify(threshold, p + [r]) == Step(threshold, Classify(threshold, p), r)
  {
    var rs := p + [r];
    LastOutageAppend(p, r, threshold);
    AppendedTimeoutRun(p, r);
    match LastOutage(p, threshold)
    case None =>
      ShortTrailingRun(p, threshold);
    case Some(k) =>
      if k == |p| - 1 {
        TrailingRunIsRunToEnd(p);
      } else {
        ShortTrailingRun(p, threshold);
        assert rs[k + 1] == p[k + 1];
      }
      RunStartOfPrefix(p, r, k);
  }

  /** Replaying the records agrees with reading them backwards. */
  lemma {:induction false} RunMatchesClassify(threshold: int, rs: seq<LogRecord>)
    requires threshold >= 1
    ensures Run(threshold, rs) == Classify(threshold, rs)
    decreases |rs|
  {
    if |rs| > 0 {
      var p, r := rs[..|rs| - 1], rs[|rs| - 1];
      assert rs == p + [r];
      RunMatchesClassify(threshold, p);
      ClassifyAppend(threshold, p, r);
    }
  }

  /** An interface is Failed exactly when its trailing run of timeouts has
      reached the threshold, and the failure started at the run's first
      timeout, not at the timeout that crossed the threshold. */
  lemma FailedIffLongTrailingRun(threshold: int, rs: seq<LogRecord>)
    requires threshold >= 1
    ensures Run(threshold, rs).Failed? <==> |TrailingTimeouts(rs)| >= threshold
    ensures Run(threshold, rs).Failed? ==> Run(threshold, rs).since == TrailingTimeouts(rs)[0]
  {
    RunMatchesClassify(threshold, rs);
    if |rs| > 0 && rs[|rs| - 1].IsTimedOut() {
      TrailingRunIsRunToEnd(rs);
    }
  }

  /** In Healthy or Recovered the chain holds exactly the timestamps of the
      trailing consecutive timeouts, and it is shorter than the threshold. */
  lemma ChainIsShortTrailingRun(threshold: int, rs: seq<LogRecord>)
    requires threshold >= 1
    requires !Run(threshold, rs).Failed?
    ensures Run(threshold, rs).timeouts == TrailingTimeouts(rs)
    ensures |Run(threshold, rs).timeouts| < threshold
  {
    RunMatchesClassify(threshold, rs);
    FailedIffLongTrailingRun(threshold, rs);
  }

  /** The first engine's view of a state: the timeout chain dropped. */
  function Forget(s: State): FailureDetection.State
  {
    match s
    case Healthy(_) => FailureDetection.Healthy
    case Failed(since) => FailureDetection.Failed(since)
    case Recovered(_, since, at) => FailureDetection.Recovered(since, at)
  }

  /** With threshold 1 this engine is the first one, chain aside. */
  lemma ThresholdOneIsFailureDetection(rs: seq<LogRecord>)
    ensures Forget(Run(1, rs)) == FailureDetection.Run(rs)
  {
    RunMatchesClassify(1, rs);
    FailureDetection.RunMatchesClassify(rs);
  }

  /** The driver: one state per interface, created Healthy on first sight. */
  function DetectFailureDuration(threshold: int, log: seq<LogRecord>): (m: map<Interface, State>)
    ensures m.Keys == Replay.InterfacesOf(log)
  {
    Replay.Detect(StepAt(threshold), Initial, log)
  }

  /** Each interface's reported state is the backward reading of its own
      records. */
  lemma DetectClassifiesEachInterface(threshold: int, log: seq<LogRecord>, i: Interface)
    requires threshold >= 1
    requires i in Replay.InterfacesOf(log)
    ensures DetectFailureDuration(threshold, log)[i] == Classify(threshold, Replay.RecordsOf(log, i))
  {
    Replay.DetectIsRunPerInterface(StepAt(threshold), Initial, log, i);
    RunMatchesClassify(threshold, Replay.RecordsOf(log, i));
  }
}
