/**
 Concrete logs worked through the model: the example shipped with the first
 engine, the unit-test expectations that involve only a few records, and the
 behaviours the engines are documented with. Timestamps are the log's
 YYYYMMDDhhmmss digits read as numbers.
 */
module Scenarios {
  import opened Records
  import Replay
  import FailureDetection
  import TimeoutHysteresis
  import OverloadDetection
  import NetworkAggregation

  function Answered(t: Timestamp, i: Interface, ms: int): LogRecord
  {
    LogRecord(t, i, Some(ms))
  }

  function TimedOut(t: Timestamp, i: Interface): LogRecord
  {
    LogRecord(t, i, None)
  }

  /** 10.20.30.1/16 */
  const Host1: Interface := Interface(Ipv4(10, 20, 30, 1), 16)

  /** 10.20.30.2/16 */
  const Host2: Interface := Interface(Ipv4(10, 20, 30, 2), 16)

  /** 192.168.1.3/24 */
  const Host3: Interface := Interface(Ipv4(192, 168, 1, 3), 24)

  /** The thresholds of the third engine's unit test. */
  const TestConfig: OverloadDetection.Config := OverloadDetection.Config(3, 200, 3)

  /** Replaying a short literal log is stepping through its records. */
  lemma RunOfTwo<S>(step: (S, LogRecord) -> S, s: S, r0: LogRecord, r1: LogRecord)
    ensures Replay.Run(step, s, [r0, r1]) == step(step(s, r0), r1)
  {
    assert [r0] == [] + [r0];
    assert [r0, r1] == [r0] + [r1];
    Replay.RunAppend(step, s, [], r0);
    Replay.RunAppend(step, s, [r0], r1);
  }

  lemma RunOfThree<S>(step: (S, LogRecord) -> S, s: S, r0: LogRecord, r1: LogRecord, r2: LogRecord)
    ensures Replay.Run(step, s, [r0, r1, r2]) == step(step(step(s, r0), r1), r2)
  {
    assert [r0, r1, r2] == [r0, r1] + [r2];
    RunOfTwo(step, s, r0, r1);
    Replay.RunAppend(step, s, [r0, r1], r2);
  }

  lemma RunOfFour<S>(step: (S, LogRecord) -> S, s: S, r0: LogRecord, r1: LogRecord, r2: LogRecord, r3: LogRecord)
    ensures Replay.Run(step, s, [r0, r1, r2, r3]) == step(step(step(step(s, r0), r1), r2), r3)
  {
    assert [r0, r1, r2, r3] == [r0, r1, r2] + [r3];
    RunOfThree(step, s, r0, r1, r2);
    Replay.RunAppend(step, s, [r0, r1, r2], r3);
  }

  /** The example log of the first engine: answers of 2 ms and 522 ms, then a
      timeout, all from 10.20.30.1/16; the interface is Failed since the
      timeout, and it is the only interface reported. */
  lemma ExampleOfFirstEngine()
    ensures var log := [Answered(20201019133124, Host1, 2),
                        Answered(20201019133224, Host1, 522),
                        TimedOut(20201019133324, Host1)];
            && FailureDetection.DetectFailureDuration(log).Keys == {Host1}
            && FailureDetection.DetectFailureDuration(log)[Host1] == FailureDetection.Failed(20201019133324)
  {
    var log := [Answered(20201019133124, Host1, 2),
                Answered(20201019133224, Host1, 522),
                TimedOut(20201019133324, Host1)];
    assert log[0] in log;
    Replay.DetectIsRunPerInterface(FailureDetection.Step, FailureDetection.Healthy, log, Host1);
    RecordsOfOneInterface(log, Host1);
    RunOfThree(FailureDetection.Step, FailureDetection.Healthy, log[0], log[1], log[2]);
  }

  /** A single timeout after an answer marks a Failed interface, a further
      timeout does not move the failure time, and the next answer recovers it
      with the failure time kept. */
  lemma FailureThenRecovery()
    ensures var a := [Answered(20201019133124, Host1, 2),
                      TimedOut(20201019133224, Host1),
                      TimedOut(20201019133324, Host1)];
            && FailureDetection.Run(a) == FailureDetection.Failed(20201019133224)
            && FailureDetection.Run(a + [Answered(20201019133424, Host1, 2)])
               == FailureDetection.Recovered(20201019133224, 20201019133424)
  {
    var r0, r1, r2 := Answered(20201019133124, Host1, 2), TimedOut(20201019133224, Host1), TimedOut(20201019133324, Host1);
    var r3 := Answered(20201019133424, Host1, 2);
    RunOfThree(FailureDetection.Step, FailureDetection.Healthy, r0, r1, r2);
    RunOfFour(FailureDetection.Step, FailureDetection.Healthy, r0, r1, r2, r3);
  }

  /** With a threshold of three, two timeouts and an answer never fail the
      interface, and the answer empties the chain. */
  lemma ShortRunStaysHealthy()
    ensures TimeoutHysteresis.Run(3, [TimedOut(20201019133224, Host2),
                                      TimedOut(20201019133324, Host2),
                                      Answered(20201019133424, Host2, 2)])
            == TimeoutHysteresis.Healthy([])
  {
    var r0, r1, r2 := TimedOut(20201019133224, Host2), TimedOut(20201019133324, Host2), Answered(20201019133424, Host2, 2);
    RunOfThree(TimeoutHysteresis.StepAt(3), TimeoutHysteresis.Initial, r0, r1, r2);
  }

  /** With a threshold of three, a log that ends in a single timeout leaves
      the interface Healthy with that one timeout in its chain. */
  lemma SingleTrailingTimeoutIsChained()
    ensures TimeoutHysteresis.Run(3, [Answered(20201019133424, Host2, 2),
                                      TimedOut(20201019133525, Host2)])
            == TimeoutHysteresis.Healthy([20201019133525])
  {
    var r0, r1 := Answered(20201019133424, Host2, 2), TimedOut(20201019133525, Host2);
    RunOfTwo(TimeoutHysteresis.StepAt(3), TimeoutHysteresis.Initial, r0, r1);
  }

  /** Three timeouts in a row fail the interface from the first of them. */
  lemma ThresholdRunDatesFromFirstTimeout()
    ensures TimeoutHysteresis.Run(3, [TimedOut(20201019133224, Host1),
                                      TimedOut(20201019133324, Host1),
                                      TimedOut(20201019133424, Host1)])
            == TimeoutHysteresis.Failed(20201019133224)
  {
    var r0, r1, r2 := TimedOut(20201019133224, Host1), TimedOut(20201019133324, Host1), TimedOut(20201019133424, Host1);
    RunOfThree(TimeoutHysteresis.StepAt(3), TimeoutHysteresis.Initial, r0, r1, r2);
  }

  /** Three answers slower than 200 ms overload the interface from the first
      of them, and the next fast answer recovers it. */
  lemma OverloadThenRecovery()
    ensures var a := [Answered(20201019133235, Host3, 300),
                      Answered(20201019133335, Host3, 300),
                      Answered(20201019133435, Host3, 300)];
            && OverloadDetection.Run(TestConfig, a) == Ok(OverloadDetection.Overloaded(20201019133235))
            && OverloadDetection.Run(TestConfig, a + [Answered(20201019133535, Host3, 100)])
               == Ok(OverloadDetection.OverloadRecovered(OverloadDetection.NoChains, 20201019133235, 20201019133535))
  {
    var r0, r1, r2 := Answered(20201019133235, Host3, 300), Answered(20201019133335, Host3, 300), Answered(20201019133435, Host3, 300);
    var r3 := Answered(20201019133535, Host3, 100);
    RunOfThree(OverloadDetection.AdvanceAt(TestConfig), Ok(OverloadDetection.Initial), r0, r1, r2);
    RunOfFour(OverloadDetection.AdvanceAt(TestConfig), Ok(OverloadDetection.Initial), r0, r1, r2, r3);
  }

  /** A fast answer does not break an overload chain: slow, fast, slow, slow
      still overloads the interface, from the first slow answer. */
  lemma FastAnswerKeepsOverloadChain()
    ensures OverloadDetection.Run(TestConfig, [Answered(20201019133236, Host3, 300),
                                                 Answered(20201019133336, Host3, 100),
                                                 Answered(20201019133436, Host3, 300),
                                                 Answered(20201019133536, Host3, 300)])
            == Ok(OverloadDetection.Overloaded(20201019133236))
  {
    var r0, r1 := Answered(20201019133236, Host3, 300), Answered(20201019133336, Host3, 100);
    var r2, r3 := Answered(20201019133436, Host3, 300), Answered(20201019133536, Host3, 300);
    RunOfFour(OverloadDetection.AdvanceAt(TestConfig), Ok(OverloadDetection.Initial), r0, r1, r2, r3);
  }

  /** The log of an interface that is overloaded and then times out. */
  const OverloadThenTimeout: seq<LogRecord> :=
    [Answered(20201019133236, Host3, 300),
     Answered(20201019133336, Host3, 300),
     Answered(20201019133436, Host3, 300),
     TimedOut(20201019133536, Host3)]

  /** A timeout while Overloaded raises. */
  lemma TimeoutWhileOverloadedRaises()
    ensures OverloadDetection.Run(TestConfig, OverloadThenTimeout) == TypeError
  {
    var log := OverloadThenTimeout;
    var r0, r1, r2, r3 := log[0], log[1], log[2], log[3];
    RunOfFour(OverloadDetection.AdvanceAt(TestConfig), Ok(OverloadDetection.Initial), r0, r1, r2, r3);
  }

  /** One interface raising makes the whole driver raise. */
  lemma DriverRaisesWithIt()
    ensures OverloadDetection.DetectFailureOrOverloadDuration(TestConfig, OverloadThenTimeout) == TypeError
  {
    var log := OverloadThenTimeout;
    TimeoutWhileOverloadedRaises();
    assert log[0] in log;
    RecordsOfOneInterface(log, Host3);
  }

  /** A log of one interface is all that interface's records. */
  lemma {:induction false} RecordsOfOneInterface(log: seq<LogRecord>, i: Interface)
    requires forall k :: 0 <= k < |log| ==> log[k].iface == i
    ensures Replay.RecordsOf(log, i) == log
    decreases |log|
  {
    if |log| > 0 {
      RecordsOfOneInterface(log[..|log| - 1], i);
    }
  }

  /** The two interfaces of 10.20.30.x/16 share the network 10.20.0.0/16. */
  lemma NetworkOfFirstExample()
    ensures NetworkOf(Host1) == Network(Ipv4(10, 20, 0, 0), 16)
    ensures NetworkOf(Host2) == NetworkOf(Host1)
  {
    assert ShiftUp(2580, 8) == 660480 && Pow2(8) == 256;
    assert ShiftUp(2580, 16) == 169082880 && Pow2(16) == 65536;
    assert Ipv4(10, 20, 30, 1) == 169090561 && Ipv4(10, 20, 30, 2) == 169090562;
    NetworkIsTheAlignedBlock(Host1, 2580);
    NetworkIsTheAlignedBlock(Host2, 2580);
  }

  /** 192.168.10.1/24 and 192.168.10.2/24 share the network 192.168.10.0/24,
      and 192.168.1.3/24 lies outside it. */
  lemma NetworkOfSecondExample()
    ensures NetworkOf(Interface(Ipv4(192, 168, 10, 1), 24)) == Network(Ipv4(192, 168, 10, 0), 24)
    ensures NetworkOf(Interface(Ipv4(192, 168, 10, 2), 24)) == Network(Ipv4(192, 168, 10, 0), 24)
    ensures NetworkOf(Host3) != Network(Ipv4(192, 168, 10, 0), 24)
  {
    assert ShiftUp(12625930, 8) == 3232238080 && ShiftUp(12625921, 8) == 3232235776 && Pow2(8) == 256;
    assert Ipv4(192, 168, 10, 1) == 3232238081 && Ipv4(192, 168, 10, 2) == 3232238082;
    assert Ipv4(192, 168, 1, 3) == 3232235779;
    NetworkIsTheAlignedBlock(Interface(Ipv4(192, 168, 10, 1), 24), 12625930);
    NetworkIsTheAlignedBlock(Interface(Ipv4(192, 168, 10, 2), 24), 12625930);
    NetworkIsTheAlignedBlock(Host3, 12625921);
  }

  /** One Failed and one Healthy member keep the network Healthy; once both
      are Failed the network is Failed from the later of the two failures. */
  lemma NetworkFailsWhenAllMembersFail()
    ensures NetworkAggregation.Push(NetworkAggregation.NetworkHealthy,
                                    [OverloadDetection.Failed(20201019133344),
                                     OverloadDetection.Initial])
            == NetworkAggregation.NetworkHealthy
    ensures NetworkAggregation.Push(NetworkAggregation.NetworkHealthy,
                                    [OverloadDetection.Failed(20201019133344),
                                     OverloadDetection.Failed(20201019133345)])
            == NetworkAggregation.NetworkFailed(20201019133345)
  {
    var one := [OverloadDetection.Failed(20201019133344), OverloadDetection.Initial];
    assert one[1..] == [OverloadDetection.Initial];
    assert NetworkAggregation.LatestFailure(one, EarliestTimestamp) == None;
    var ms := [OverloadDetection.Failed(20201019133344), OverloadDetection.Failed(20201019133345)];
    assert ms[1..] == [ms[1]];
    assert ms[1..][1..] == [];
    assert NetworkAggregation.LatestFailure(ms[1..], 20201019133344) == Some(20201019133345);
    assert NetworkAggregation.LatestFailure(ms, EarliestTimestamp) == Some(20201019133345);
  }

  /** Two members recovered from failure: pushed once into a fresh Healthy
      network, as the batch path does, the network is Healthy; only a network
      already Failed would record the recovery, from the first recovered
      member. */
  lemma RecoveryNeedsAFailedNetwork()
    ensures var members := [OverloadDetection.FailRecovered(OverloadDetection.NoChains, 20201019133224, 20201019133524),
                            OverloadDetection.FailRecovered(OverloadDetection.NoChains, 20201019133225, 20201019133525)];
            && NetworkAggregation.Push(NetworkAggregation.NetworkHealthy, members) == NetworkAggregation.NetworkHealthy
            && NetworkAggregation.Push(NetworkAggregation.NetworkFailed(20201019133224), members)
               == NetworkAggregation.NetworkFailRecovered(20201019133224, 20201019133524)
  {
  }
}
