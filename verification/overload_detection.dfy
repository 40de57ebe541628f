/**
 The third engine (also the per-interface machine of the fourth): the
 timeout hysteresis of the second engine plus an overload path. An answer
 slower than the overload threshold extends an overload chain; enough of them
 make the interface Overloaded, dated by the first entry of the chain. The
 overload chain is emptied only by a timeout: an answer at or below the
 threshold leaves it as it is. A timeout while Overloaded compares a missing
 response with an int, which raises.
 */
module OverloadDetection {
  import opened Records
  import opened TimeoutRuns
  import Replay
  import TimeoutHysteresis

  /** The three thresholds every state is configured with. */
  datatype Config = Config(consecutiveTimeouts: int, overloadMs: int, consecutiveOverloads: int)

  /** The timestamps of the current timeout run and of the current overload
      chain, kept by every state that follows the healthy rules. */
  datatype Chains = Chains(timeouts: seq<Timestamp>, overloads: seq<Timestamp>)

  const NoChains: Chains := Chains([], [])

  datatype State =
    | Healthy(chains: Chains)
    | Failed(since: Timestamp)
    | FailRecovered(chains: Chains, since: Timestamp, recoveredAt: Timestamp)
    | Overloaded(since: Timestamp)
    | OverloadRecovered(chains: Chains, since: Timestamp, recoveredAt: Timestamp)
  {
    /** The states that follow the healthy rules. */
    predicate IsHealthyFamily() {
      Healthy? || FailRecovered? || OverloadRecovered?
    }
  }

  const Initial: State := Healthy(NoChains)

  /** A record answered, but slower than the overload threshold. */
  predicate IsSlow(cfg: Config, r: LogRecord) {
    !r.IsTimedOut() && r.responseMs.value > cfg.overloadMs
  }

  /** What the healthy rules do with the chains. */
  datatype ChainOutcome = KeepChains(chains: Chains) | FailSince(since: Timestamp) | OverloadSince(since: Timestamp)

  function ChainStep(cfg: Config, c: Chains, r: LogRecord): (o: ChainOutcome)
    ensures o.FailSince? <==> r.IsTimedOut() && |c.timeouts| + 1 >= cfg.consecutiveTimeouts
    ensures o.FailSince? ==> o.since == (c.timeouts + [r.time])[0]
    ensures o.OverloadSince? <==> IsSlow(cfg, r) && |c.overloads| + 1 >= cfg.consecutiveOverloads
    ensures o.OverloadSince? ==> o.since == (c.overloads + [r.time])[0]
    ensures o.KeepChains? && r.IsTimedOut() ==> o.chains == Chains(c.timeouts + [r.time], [])
    ensures o.KeepChains? && IsSlow(cfg, r) ==> o.chains == Chains([], c.overloads + [r.time])
    ensures !r.IsTimedOut() && !IsSlow(cfg, r) ==> o == KeepChains(Chains([], c.overloads))
  {
    if r.IsTimedOut() then
      var timeouts := c.timeouts + [r.time];
      if |timeouts| >= cfg.consecutiveTimeouts then FailSince(timeouts[0])
      else KeepChains(Chains(timeouts, []))
    else if r.responseMs.value > cfg.overloadMs then
      var overloads := c.overloads + [r.time];
      if |overloads| >= cfg.consecutiveOverloads then OverloadSince(overloads[0])
      else KeepChains(Chains([], overloads))
    else KeepChains(Chains([], c.overloads))
  }

  /** The same healthy-family variant, with its annotation, holding new chains. */
  function WithChains(s: State, c: Chains): (s': State)
    requires s.IsHealthyFamily()
    ensures s' == s.(chains := c)
  {
    match s
    case FailRecovered(_, since, at) => FailRecovered(c, since, at)
    case OverloadRecovered(_, since, at) => OverloadRecovered(c, since, at)
    case _ => Healthy(c)
  }

  /** Pushing one record into an interface's state. */
  function Step(cfg: Config, s: State, r: LogRecord): (o: Result<State>)
    ensures o.TypeError? <==> s.Overloaded? && r.IsTimedOut()
    ensures o.Ok? && o.value.IsHealthyFamily() ==> o.value.chains.timeouts == [] || o.value.chains.overloads == []
    ensures o.Ok? && o.value.Failed? ==> r.IsTimedOut()
    ensures o.Ok? && o.value.Overloaded? ==> IsSlow(cfg, r)
    ensures s.Failed? && r.IsTimedOut() ==> o == Ok(s)
    ensures s.Overloaded? && IsSlow(cfg, r) ==> o == Ok(s)
    ensures s.Failed? && !r.IsTimedOut() ==> o == Ok(FailRecovered(NoChains, s.since, r.time))
    ensures s.Overloaded? && !r.IsTimedOut() && !IsSlow(cfg, r) ==> o == Ok(OverloadRecovered(NoChains, s.since, r.time))
    ensures s.IsHealthyFamily() && ChainStep(cfg, s.chains, r).KeepChains? ==>
              o == Ok(s.(chains := ChainStep(cfg, s.chains, r).chains))
    ensures s.IsHealthyFamily() && ChainStep(cfg, s.chains, r).FailSince? ==>
              o == Ok(Failed(ChainStep(cfg, s.chains, r).since))
    ensures s.IsHealthyFamily() && ChainStep(cfg, s.chains, r).OverloadSince? ==>
              o == Ok(Overloaded(ChainStep(cfg, s.chains, r).since))
  {
    match s
    case Failed(since) =>
      Ok(if r.IsTimedOut() then s else FailRecovered(NoChains, since, r.time))
    case Overloaded(since) =>
      if r.IsTimedOut() then TypeError
      else if r.responseMs.value > cfg.overloadMs then Ok(s)
      else Ok(OverloadRecovered(NoChains, since, r.time))
    case _ =>
      Ok(match ChainStep(cfg, s.chains, r)
         case KeepChains(c) => WithChains(s, c)
         case FailSince(since) => Failed(since)
         case OverloadSince(since) => Overloaded(since))
  }

  /** The replay stops at the first exception. */
  function Advance(cfg: Config, o: Result<State>, r: LogRecord): Result<State>
  {
    if o.Ok? then Step(cfg, o.value, r) else o
  }

  function AdvanceAt(cfg: Config): (Result<State>, LogRecord) -> Result<State>
  {
    (o, r) => Advance(cfg, o, r)
  }

  /** One interface's state after its records, starting Healthy. */
  function Run(cfg: Config, rs: seq<LogRecord>): Result<State>
  {
    Replay.Run(AdvanceAt(cfg), Ok(Initial), rs)
  }

  /** Both chains shorter than their thresholds. */
  predicate ChainsShort(cfg: Config, c: Chains) {
    |c.timeouts| < cfg.consecutiveTimeouts && |c.overloads| < cfg.consecutiveOverloads
  }

  /** With thresholds of at least one, a step that stays in (or enters) the
      healthy family leaves both chains shorter than their thresholds. */
  lemma StepKeepsChainsShort(cfg: Config, s: State, r: LogRecord)
    requires cfg.consecutiveTimeouts >= 1 && cfg.consecutiveOverloads >= 1
    requires s.IsHealthyFamily() ==> ChainsShort(cfg, s.chains)
    requires Step(cfg, s, r).Ok? && Step(cfg, s, r).value.IsHealthyFamily()
    ensures ChainsShort(cfg, Step(cfg, s, r).value.chains)
  {
  }

  /** What holds of every state a replay reaches, read backwards off the
      records: in the healthy family the timeout chain is the trailing run of
      timeouts and both chains are short; Failed means the trailing run reached
      the threshold and is dated by its first timeout; Overloaded means the log
      does not end in a timeout. */
  ghost predicate Reachable(cfg: Config, rs: seq<LogRecord>, s: State) {
    && (s.IsHealthyFamily() ==>
          ChainsShort(cfg, s.chains) && s.chains.timeouts == TrailingTimeouts(rs))
    && (s.Failed? ==>
          && |TrailingTimeouts(rs)| >= cfg.consecutiveTimeouts
          && |TrailingTimeouts(rs)| > 0
          && s.since == TrailingTimeouts(rs)[0])
    && (s.Overloaded? ==> TrailingTimeouts(rs) == [])
  }

  lemma StepReachable(cfg: Config, p: seq<LogRecord>, s: State, r: LogRecord)
    requires cfg.consecutiveTimeouts >= 1 && cfg.consecutiveOverloads >= 1
    requires Reachable(cfg, p, s)
    requires Step(cfg, s, r).Ok?
    ensures Reachable(cfg, p + [r], Step(cfg, s, r).value)
  {
    if r.IsTimedOut() {
      StepReachableTimeout(cfg, p, s, r);
    } else if Step(cfg, s, r).value.IsHealthyFamily() {
      StepKeepsChainsShort(cfg, s, r);
    }
  }

  lemma StepReachableTimeout(cfg: Config, p: seq<LogRecord>, s: State, r: LogRecord)
    requires cfg.consecutiveTimeouts >= 1 && cfg.consecutiveOverloads >= 1
    requires Reachable(cfg, p, s)
    requires r.IsTimedOut() && Step(cfg, s, r).Ok?
    ensures Reachable(cfg, p + [r], Step(cfg, s, r).value)
  {
    AppendedTimeoutRun(p, r);
    if s.Failed? {
      assert TrailingTimeouts(p + [r])[0] == TrailingTimeouts(p)[0];
    }
  }

  lemma {:induction false} RunReachable(cfg: Config, rs: seq<LogRecord>)
    requires cfg.consecutiveTimeouts >= 1 && cfg.consecutiveOverloads >= 1
    requires Run(cfg, rs).Ok?
    ensures Reachable(cfg, rs, Run(cfg, rs).value)
    decreases |rs|
  {
    if |rs| > 0 {
      var p, r := rs[..|rs| - 1], rs[|rs| - 1];
      assert rs == p + [r];
      assert Run(cfg, rs) == Advance(cfg, Run(cfg, p), r);
      RunReachable(cfg, p);
      StepReachable(cfg, p, Run(cfg, p).value, r);
    }
  }

  /** For a replay that does not raise: the interface is Failed exactly when
      its trailing run of timeouts has reached the threshold, dated by the
      run's first timeout; otherwise, in the healthy family, the timeout chain
      is that trailing run and neither chain has reached its threshold. */
  lemma FailedIffLongTrailingRun(cfg: Config, rs: seq<LogRecord>)
    requires cfg.consecutiveTimeouts >= 1 && cfg.consecutiveOverloads >= 1
    requires Run(cfg, rs).Ok?
    ensures Run(cfg, rs).value.Failed? <==> |TrailingTimeouts(rs)| >= cfg.consecutiveTimeouts
    ensures Run(cfg, rs).value.Failed? ==> Run(cfg, rs).value.since == TrailingTimeouts(rs)[0]
    ensures Run(cfg, rs).value.IsHealthyFamily() ==>
              && Run(cfg, rs).value.chains.timeouts == TrailingTimeouts(rs)
              && ChainsShort(cfg, Run(cfg, rs).value.chains)
  {
    RunReachable(cfg, rs);
  }

  /** A replay raises exactly when some timeout reaches the interface while
      it is Overloaded. */
  lemma {:induction false} RaisesIffTimeoutWhileOverloaded(cfg: Config, rs: seq<LogRecord>)
    ensures Run(cfg, rs).TypeError? <==>
              exists k :: 0 <= k < |rs| && rs[k].IsTimedOut() && Run(cfg, rs[..k]).Ok? && Run(cfg, rs[..k]).value.Overloaded?
    decreases |rs|
  {
    if |rs| > 0 {
      var p, r := rs[..|rs| - 1], rs[|rs| - 1];
      RaisesIffTimeoutWhileOverloaded(cfg, p);
      assert forall k :: 0 <= k < |p| ==> rs[..k] == p[..k] && rs[k] == p[k];
      if Run(cfg, rs).TypeError? && Run(cfg, p).Ok? {
        assert rs[..|p|] == p;
      }
      if Run(cfg, p).TypeError? {
        var k :| 0 <= k < |p| && p[k].IsTimedOut() && Run(cfg, p[..k]).Ok? && Run(cfg, p[..k]).value.Overloaded?;
        assert rs[..k] == p[..k];
      }
    }
  }

  /** The third engine's states as the second engine would see them, when no
      answer was ever slow: Recovered becomes FailRecovered, with an empty
      overload chain. */
  function FromHysteresis(s: TimeoutHysteresis.State): State
  {
    match s
    case Healthy(timeouts) => Healthy(Chains(timeouts, []))
    case Failed(since) => Failed(since)
    case Recovered(timeouts, since, at) => FailRecovered(Chains(timeouts, []), since, at)
  }

  /** When no answer is slower than the overload threshold, the overload path
      never wakes: the replay never raises and agrees with the second engine. */
  lemma {:induction false} NoSlowAnswerIsHysteresis(cfg: Config, rs: seq<LogRecord>)
    requires forall k :: 0 <= k < |rs| ==> !IsSlow(cfg, rs[k])
    ensures Run(cfg, rs) == Ok(FromHysteresis(TimeoutHysteresis.Run(cfg.consecutiveTimeouts, rs)))
    decreases |rs|
  {
    if |rs| > 0 {
      var p := rs[..|rs| - 1];
      NoSlowAnswerIsHysteresis(cfg, p);
    }
  }

  /** Collects the per-interface outcomes: the whole replay raises if any
      interface's replay raised. */
  function Collect(m: map<Interface, Result<State>>): (o: Result<map<Interface, State>>)
    ensures o.TypeError? <==> exists i :: i in m && m[i].TypeError?
    ensures o.Ok? ==> o.value.Keys == m.Keys && forall i :: i in m ==> m[i] == Ok(o.value[i])
  {
    if exists i :: i in m && m[i].TypeError? then TypeError
    else Ok(map i | i in m :: m[i].value)
  }

  /** The driver: one state per interface, created Healthy on first sight,
      every record pushed to its own interface. It raises exactly when some
      interface's own replay raises; otherwise it maps each interface of the
      log to the replay of its own records. */
  function DetectFailureOrOverloadDuration(cfg: Config, log: seq<LogRecord>): (o: Result<map<Interface, State>>)
    ensures o.TypeError? <==> exists i :: i in Replay.InterfacesOf(log) && Run(cfg, Replay.RecordsOf(log, i)).TypeError?
    ensures o.Ok? ==> o.value.Keys == Replay.InterfacesOf(log)
    ensures o.Ok? ==> forall i :: i in o.value ==> Ok(o.value[i]) == Run(cfg, Replay.RecordsOf(log, i))
  {
    ReplayEntries(cfg, log);
    Collect(Replay.Detect(AdvanceAt(cfg), Ok(Initial), log))
  }

  /** Each entry of the replayed map is its interface's own replay. */
  lemma ReplayEntries(cfg: Config, log: seq<LogRecord>)
    ensures forall i :: i in Replay.InterfacesOf(log) ==>
              Replay.Detect(AdvanceAt(cfg), Ok(Initial), log)[i] == Run(cfg, Replay.RecordsOf(log, i))
  {
    forall i | i in Replay.InterfacesOf(log)
      ensures Replay.Detect(AdvanceAt(cfg), Ok(Initial), log)[i] == Run(cfg, Replay.RecordsOf(log, i))
    {
      Replay.DetectIsRunPerInterface(AdvanceAt(cfg), Ok(Initial), log, i);
    }
  }
}
