# Server health-check log analysis, modelled in Dafny

The repository answers a four-part exercise on a monitoring log. Each line of
the log records one health check: a timestamp, an IPv4 interface written
`a.b.c.d/p`, and either a response time in milliseconds or `-` for a timeout.
Every version of the engine replays the log through one state machine per
interface. Each interface gets its own context, created Healthy the first time
the interface appears. Records are pushed in arrival order.

- `answer1.py`: a single timeout fails an interface. The next answered check
  recovers it.
- `answer2.py`: failure needs a configurable number of consecutive timeouts.
  The failure is dated by the *first* timeout of the run.
- `answer3.py`: adds an overload path. Enough answers slower than a
  threshold make the interface Overloaded. A faster answer recovers it.
- `answer4.py`: reuses the machine of `answer3.py` and derives a verdict per
  network. Interfaces are grouped by network. A network is Failed when every
  member is Failed, dated by the latest member failure. A Failed network is
  recovered by the first member that has recovered from failure.

The model is functional. Each state class hierarchy is a `datatype`. Each
`push_newer_record` is a pure step function from a state and a record to the
next state. The dictionary of contexts is a map built by a fold over the log
(`Replay.Detect`). The configuration copied onto every state by
`transition_to` is passed to the step function as a parameter.

Each machine is related to an independent *reference definition* that reads
the state backwards off the interface's records:

- `TimeoutRuns.TrailingTimeouts` is the run of timeouts that ends the log.
- `TimeoutRuns.RunStart` is where the run ending at a given record begins.
- `TimeoutRuns.LastOutage` is the last record at which a run of timeouts
  reached the threshold.

The first two machines are proved equal to such a reading (`Classify`). The
third is characterised by an invariant over every reachable state. It is also
proved to coincide with the second whenever no answer is slow.

Modules, one file each:

| file | module | models |
|---|---|---|
| `records.dfy` | `Records` | `LogRecord`, interfaces, networks, `Option`/`Result` |
| `replay.dfy` | `Replay` | the per-interface dictionary of contexts (the driver loops) |
| `timeout_runs.dfy` | `TimeoutRuns` | reference definitions over one interface's records |
| `failure_detection.dfy` | `FailureDetection` | `answer1.py` |
| `timeout_hysteresis.dfy` | `TimeoutHysteresis` | `answer2.py` |
| `overload_detection.dfy` | `OverloadDetection` | `answer3.py`, and the record states of `answer4.py` |
| `network_aggregation.dfy` | `NetworkAggregation` | the network states, grouping and batch path of `answer4.py` |
| `scenarios.dfy` | `Scenarios` | concrete logs from the example and the unit tests |

Modelling choices:

- Timestamps are natural numbers. Any order-preserving encoding of datetimes
  will do. The scenarios read the log's `YYYYMMDDhhmmss` digits as a number.
  `0` plays the role of `datetime.min`.
- An IPv4 address is a natural number below 2^32. The network of an
  interface is its address with the low `32 - p` bits cleared (CIDR prefix,
  section 3.1 of RFC 4632).
- Exceptions are outcomes. In `answer3.py` and `answer4.py`, a timeout
  reaching an Overloaded interface evaluates `None > int`. That raises
  `TypeError`. The model returns `Result.TypeError`, the replay of that
  interface stops, and the whole driver fails.
- The record machine of `answer4.py` (lines 21-92) has the same logic as
  that of `answer3.py` (lines 21-124). `OverloadDetection` models both.
- The response time of a record is an unbounded `int`, as a Python `int` is.
  No arithmetic in the modelled code can overflow.

Two behaviours of the code are easy to miss:

- A response at or below the overload threshold does **not** clear the
  overload chain. Only a timeout clears it (`answer3.py:46-58`,
  `answer4.py:39-51`). A slow, fast, slow, slow sequence therefore overloads
  an interface when the overload threshold is three
  (`Scenarios.FastAnswerKeepsOverloadChain`).
- A timeout while Overloaded is not ignored. It raises (`answer3.py:104-111`,
  `answer4.py:78-85`).

## Model

| member | source | states |
|---|---|---|
| `Records.NetworkOf` | answer4.py:203-209 | the network keeps the interface's prefix length, and its block of 2^(32-p) addresses starting at the base contains the interface's address |
| `Records.NetworkIsTheAlignedBlock` | answer4.py:203-209 | the network is the unique aligned block of the prefix length that contains the address: any aligned block containing it is the network |
| `Records.SameNetworkIffSameHostPart` | answer4.py:203-209 | two interfaces with the same prefix length share a network exactly when their addresses agree above the host bits |
| `Records.NetworkOfBase` | answer4.py:203-209 | a network's own base address, under the same prefix, belongs to that same network |
| `Replay.RecordsOf` | answer3.py:176-187 | an interface's records are exactly the log's records for that interface, and they are empty exactly when the interface never appears |
| `Replay.RecordsOfSingle` | answer3.py:176-187 | a one-record log gives that record to its own interface and nothing to any other |
| `Replay.RecordsOfAppend` | answer3.py:176-187 | the records of a concatenated log are the first part's records followed by the second part's, so order and multiplicity follow the log |
| `Replay.FirstSeen` | answer4.py:241 | the dictionary's key order lists every interface of the log once, and no other |
| `Replay.Detect` | answer3.py:176-187 | the driver's dictionary has one entry per interface that appears in the log |
| `Replay.DetectIsRunPerInterface` | answer3.py:176-187 | each interface's entry is its own records replayed in arrival order from the initial state, whatever other interfaces' records are interleaved |
| `Replay.OtherInterfacesUnchanged` | answer1.py:98-104 | pushing a record changes no interface's entry but its own |
| `TimeoutRuns.TrailingTimeouts` | answer2.py:29-42 | the timestamps, in order, of the maximal run of timeouts ending the log: every record in it is a timeout, and the record before it is not |
| `TimeoutRuns.LastOutageBelow` | answer2.py:29-42 | returns the last index where a run of timeouts has reached the threshold, or None exactly when there is no such index |
| `TimeoutRuns.LastOutageAppend` | answer2.py:29-42 | a new record either ends a threshold run and becomes the last outage, or leaves the last outage where it was |
| `FailureDetection.Step` | answer1.py:19-65 | the next state is Failed exactly on a timeout. A fresh failure is dated by that timeout, and a running one keeps its date. Recovery keeps the failure date and is dated by the first answered record after the failure. Healthy stays Healthy exactly until the first timeout |
| `FailureDetection.RunMatchesClassify` | answer1.py:92-104 | replaying the records equals reading them backwards. No timeout means Healthy. A final run of timeouts means Failed from its first timeout. An earlier run means Recovered from it, at the next record |
| `FailureDetection.FailedIffEndsInTimeout` | answer1.py:22-65 | an interface is Failed exactly when its log ends in a timeout, dated by the first timeout of the final run |
| `FailureDetection.HealthyIffNoTimeout` | answer1.py:22-26 | an interface is Healthy exactly when none of its checks timed out |
| `FailureDetection.OnlyTimeoutsMatter` | answer1.py:22-65 | two logs with the same timestamps and the same timeouts give the same state, whatever the response times |
| `FailureDetection.DetectFailureDuration` | answer1.py:92-104 | one entry per interface of the log |
| `FailureDetection.DetectClassifiesEachInterface` | answer1.py:92-104 | each interface's entry is the backward reading of its own records |
| `TimeoutHysteresis.ChainStep` | answer2.py:29-42 | a timeout extends the chain and fails the interface exactly when the chain reaches the threshold, dated by the chain's first timestamp. An answer empties the chain |
| `TimeoutHysteresis.Step` | answer2.py:29-75 | an answer never leaves the interface Failed and empties the chain. A timeout while Failed changes nothing. A new failure needs a chain at the threshold and is dated by the chain's first timestamp. Recovered only comes from Failed or Recovered and keeps the failure date |
| `TimeoutHysteresis.ClassifyAppend` | answer2.py:29-75 | reading one more record backwards is one step of the machine |
| `TimeoutHysteresis.RunMatchesClassify` | answer2.py:109-124 | for a threshold of at least one, replaying the records equals reading them backwards: the last run that reached the threshold is the failure, and the trailing run is the chain |
| `TimeoutHysteresis.FailedIffLongTrailingRun` | answer2.py:29-62 | an interface is Failed exactly when its trailing run of timeouts reaches the threshold, dated by the run's first timeout and not by the timeout that crossed the threshold |
| `TimeoutHysteresis.ChainIsShortTrailingRun` | answer2.py:29-42 | in Healthy or Recovered the chain holds exactly the trailing run of timeouts and is shorter than the threshold |
| `TimeoutHysteresis.ThresholdOneIsFailureDetection` | answer2.py:29-75 | with threshold one, the machine is the machine of `answer1.py` once the chain is dropped |
| `TimeoutHysteresis.DetectFailureDuration` | answer2.py:109-124 | one entry per interface of the log |
| `TimeoutHysteresis.DetectClassifiesEachInterface` | answer2.py:109-124 | each interface's entry is the backward reading of its own records |
| `OverloadDetection.ChainStep` | answer3.py:33-58 | a timeout extends the timeout chain and empties the overload chain, failing from the first timeout at the threshold. A slow answer extends the overload chain and empties the timeout chain, overloading from its first entry at the threshold. Any other answer empties the timeout chain and leaves the overload chain as it is |
| `OverloadDetection.Step` | answer3.py:33-124 | the step raises exactly on a timeout while Overloaded. In the healthy family the two chains are never both non-empty. Failed needs a timeout and Overloaded a slow answer. A timeout while Failed and a slow answer while Overloaded change nothing. An answer while Failed recovers with empty chains, keeping the failure date and dated by the answer; a fast answer while Overloaded does the same for the overload. In the healthy family, a chain step that neither fails nor overloads keeps the variant and its recovery annotation and only replaces the chains; one that fails or overloads moves to Failed or Overloaded from the chain's start |
| `OverloadDetection.WithChains` | answer3.py:33-58 | updating the chains in place keeps the state's variant and its recovery annotation, and changes nothing but the chains |
| `OverloadDetection.StepKeepsChainsShort` | answer3.py:37-58 | for thresholds of at least one, any step that ends in the healthy family leaves both chains below their thresholds |
| `OverloadDetection.RunReachable` | answer3.py:33-124 | every state a replay reaches satisfies the invariant: healthy-family chains are short and the timeout chain is the trailing run of timeouts; Failed is dated by the first timeout of a trailing run at the threshold; Overloaded means the log does not end in a timeout |
| `OverloadDetection.FailedIffLongTrailingRun` | answer3.py:33-91 | for a replay that does not raise, the interface is Failed exactly when its trailing run of timeouts reaches the threshold, dated by that run's first timeout |
| `OverloadDetection.RaisesIffTimeoutWhileOverloaded` | answer3.py:104-111 | a replay raises exactly when some timeout arrives while the interface is Overloaded |
| `OverloadDetection.NoSlowAnswerIsHysteresis` | answer3.py:33-91 | when no answer exceeds the overload threshold, the replay never raises and equals the replay of `answer2.py`, with Recovered read as FailRecovered |
| `OverloadDetection.Collect` | answer3.py:176-187 | the driver raises exactly when some interface's replay raised, and otherwise keeps every interface's state |
| `OverloadDetection.ReplayEntries` | answer3.py:176-187 | each interface's entry in the dictionary of contexts is the replay of that interface's own records |
| `OverloadDetection.DetectFailureOrOverloadDuration` | answer3.py:163-187 | the driver raises exactly when some interface's own replay raises. Otherwise it maps each interface of the log, and nothing else, to the replay of its own records |
| `NetworkAggregation.LatestFailure` | answer4.py:147-156 | the scan yields a time exactly when every member is Failed. The time is the latest member failure, or the starting value when there are no members |
| `NetworkAggregation.FirstFailRecovery` | answer4.py:163-172 | the scan yields nothing exactly when no member has recovered from failure, and otherwise yields the recovery time of the first such member in order |
| `NetworkAggregation.Push` | answer4.py:141-178 | from Healthy or FailRecovered the network fails exactly when every member is Failed, dated by the latest member failure (the earliest timestamp for no members), and otherwise is unchanged. From Failed it records a recovery exactly when some member has recovered from failure, taking the first such member's time and keeping its own failure date, and otherwise is unchanged |
| `NetworkAggregation.HealthyPushIgnoresOrder` | answer4.py:243-253 | from a healthy-like state the verdict depends only on which member states occur, so the iteration order of a set of interfaces does not matter |
| `NetworkAggregation.AddToGroupKeepsGrouping` | answer4.py:203-209 | adding one more interface to its network's group keeps a grouping of the longer list |
| `NetworkAggregation.GroupByNetwork` | answer4.py:203-209 | there is one group per network that occurs. Every group is non-empty and repeat-free, every member belongs to its key's network and the input, and every input interface is in its own network's group |
| `NetworkAggregation.GroupVerdict` | answer4.py:243-253 | one fresh Healthy network pushed with a group's member states is never recovered, and is Failed exactly when every interface of that network is Failed, dated by the latest of their failures |
| `NetworkAggregation.BatchNetworks` | answer4.py:237-254 | there is one verdict per network of the interfaces, each as `GroupVerdict` describes |
| `NetworkAggregation.BatchOfRuns` | answer4.py:237-254 | the batch verdicts over the interfaces in order of first appearance, restated in terms of each interface's own replay |
| `NetworkAggregation.DetectNetworkFailure` | answer4.py:257-278 | the whole engine raises exactly when some interface's replay raises. Otherwise it returns the pair of the interface states and the network verdicts. The first maps each interface of the log to its own replay. The second gives one verdict per network of the log, never a recovery, Failed exactly when every interface of the network ended Failed, and dated by the latest of their failures |
| `Scenarios.ExampleOfFirstEngine` | example_detect_feailure_duration.py:12-22 | answers of 2 ms and 522 ms and then a timeout leave 10.20.30.1/16, the only interface, Failed since the timeout |
| `Scenarios.FailureThenRecovery` | answer1.py:39-46 | a second timeout does not move the failure time, and the next answer recovers the interface, keeping the failure time |
| `Scenarios.ShortRunStaysHealthy` | answer2.py:29-42 | with threshold three, two timeouts and an answer leave the interface Healthy with an empty chain |
| `Scenarios.SingleTrailingTimeoutIsChained` | test_answer2.py:36-41 | with threshold three, a log ending in one timeout leaves the interface Healthy with that timeout in its chain |
| `Scenarios.ThresholdRunDatesFromFirstTimeout` | answer2.py:32-40 | three timeouts at threshold three fail the interface from the first of them |
| `Scenarios.OverloadThenRecovery` | answer3.py:104-111 | three slow answers overload the interface from the first of them, and a fast answer recovers it with empty chains |
| `Scenarios.FastAnswerKeepsOverloadChain` | answer3.py:46-58 | slow, fast, slow, slow still overloads the interface from the first slow answer |
| `Scenarios.TimeoutWhileOverloadedRaises` | answer3.py:104-111 | a timeout after three slow answers raises |
| `Scenarios.DriverRaisesWithIt` | answer3.py:176-187 | the driver raises on that log too |
| `Scenarios.RecordsOfOneInterface` | answer3.py:176-187 | a log of a single interface is all of that interface's records |
| `Scenarios.NetworkOfFirstExample` | test_answer4.py:67 | 10.20.30.1/16 and 10.20.30.2/16 both lie in 10.20.0.0/16 |
| `Scenarios.NetworkOfSecondExample` | test_answer4.py:72 | 192.168.10.1/24 and 192.168.10.2/24 lie in 192.168.10.0/24, and 192.168.1.3/24 does not |
| `Scenarios.NetworkFailsWhenAllMembersFail` | answer4.py:147-156 | one Failed and one Healthy member keep the network Healthy. Two Failed members fail it from the later of their failures |
| `Scenarios.RecoveryNeedsAFailedNetwork` | test_answer4.py:67-70 | two members recovered from failure leave a fresh network Healthy, as the batch path computes it, whereas a network already Failed would record the first member's recovery. The commented-out expectation of a recovered 10.20.0.0/16 cannot come from the batch path |

## Left out

- Reading the log (`util.py` `read_log`, `LogRecord.from_primitive_dict`): CSV parsing, `datetime.strptime` and `IPv4Interface` parsing are replaced by the `LogRecord` datatype with natural-number timestamps and addresses.
- The `print_*` functions (`answer1.py:107-123`, `answer2.py:127-146`, `answer3.py:190-225`, `answer4.py:281-299`) and the debug prints at `answer4.py:245` and `answer4.py:249`: they only format output.
- The incremental network path of `answer4.py` is left out, because it cannot run.
  - `calc_failure_or_overload` calls a method on a dictionary (line 233). It fails on the first record.
  - `NetworkFailureContext.push_newer_record_context` calls a method no state defines (lines 191-192).
  - The abstract `push_newer_record_contexts` is never implemented (lines 134-138).
  - As a result, `detect_failure_or_overload_duration` (lines 257-278) cannot return.
  - `NetworkAggregation.DetectNetworkFailure` composes the per-interface replay with the batch path instead. This is what that driver evidently intends. Like the source, it returns the pair of the interface states and the network states (lines 272-278).
- `NetworkAggregation.BatchNetworks` models the batch path (`calc_network_failure_from_record_failure_context`, lines 237-254) as written, as if its network states could be built. In the source they cannot: `NetworkFailureContext()` constructs a `NetworkHealthyState` by default (line 183), and that class is still abstract because it never overrides `push_newer_record_contexts` (lines 134-138). The batch path would therefore raise `TypeError` at lines 250-251. The driver never reaches it anyway, because `calc_failure_or_overload` already builds a `NetworkFailureContext()` at lines 230-231, before line 233.
- `NetworkHealthyState.last_timeout_ip_datetime_chain` (`answer4.py:143-145`) is never read or written by any path, so the model drops it.
- The `_context` back-references and the copying of thresholds in `transition_to` are left out. The configuration is a parameter of the step functions.
- Python's set iteration order inside a group is left out. Groups are sequences in order of first appearance. `NetworkAggregation.HealthyPushIgnoresOrder` shows that the order cannot change a batch verdict.
- How an exception propagates is simplified. In Python, a `TypeError` aborts the whole replay at once. In the model the failing interface's replay stops, and `OverloadDetection.Collect` then fails the whole result. Both produce no result exactly when some interface raises.
- Real `datetime` values are left out. Timestamps are natural numbers, and only their order and equality matter to the code.
