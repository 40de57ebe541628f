/**
 The fourth engine: the per-interface machine of the third engine, then a
 verdict per network. Interfaces are grouped by network; a network is Failed
 only when every member is Failed (dated by the latest member failure), and a
 Failed network counts as recovered as soon as one member has recovered from
 failure. The verdicts are computed once, after the replay, each from a fresh
 Healthy network state.
 */
module NetworkAggregation {
  import opened Records
  import Replay
  import OverloadDetection

  type MemberState = OverloadDetection.State

  datatype NetworkState =
    | NetworkHealthy
    | NetworkFailed(since: Timestamp)
    | NetworkFailRecovered(since: Timestamp, recoveredAt: Timestamp)

  /** The scan of the Healthy network state: None as soon as a member is not
      Failed, otherwise the latest failure time, starting from `latest`. */
  function LatestFailure(members: seq<MemberState>, latest: Timestamp): (o: Option<Timestamp>)
    ensures o.Some? <==> forall k :: 0 <= k < |members| ==> members[k].Failed?
    ensures o.Some? ==> latest <= o.value
    ensures o.Some? ==> forall k :: 0 <= k < |members| ==> members[k].Failed? && members[k].since <= o.value
    ensures o.Some? ==> o.value == latest || exists k :: 0 <= k < |members| && members[k].Failed? && members[k].since == o.value
    decreases |members|
  {
    if |members| == 0 then Some(latest)
    else if !members[0].Failed? then None
    else
      var rest := LatestFailure(members[1..], if members[0].since > latest then members[0].since else latest);
      assert forall k :: 1 <= k < |members| ==> members[k] == members[1..][k - 1];
      rest
  }

  /** The scan of the Failed network state: the recovery time of the first
      member, in order, that has recovered from failure. */
  function FirstFailRecovery(members: seq<MemberState>): (o: Option<Timestamp>)
    ensures o.None? <==> forall k :: 0 <= k < |members| ==> !members[k].FailRecovered?
    ensures o.Some? ==> exists k :: && 0 <= k < |members|
                                    && members[k].FailRecovered?
                                    && members[k].recoveredAt == o.value
                                    && forall j :: 0 <= j < k ==> !members[j].FailRecovered?
    decreases |members|
  {
    if |members| == 0 then None
    else if members[0].FailRecovered? then Some(members[0].recoveredAt)
    else
      var rest := FirstFailRecovery(members[1..]);
      assert forall k :: 1 <= k < |members| ==> members[k] == members[1..][k - 1];
      assert forall k :: 0 <= k < |members| - 1 ==> members[1..][k] == members[k + 1];
      rest
  }

  /** Pushing the member states of one network into its state. From Healthy
      (and from FailRecovered, which behaves as Healthy) failure needs every
      member Failed; from Failed one recovered member is enough. */
  function Push(n: NetworkState, members: seq<MemberState>): (n': NetworkState)
    ensures !n.NetworkFailed? ==>
              (n'.NetworkFailed? <==> forall k :: 0 <= k < |members| ==> members[k].Failed?)
    ensures !n.NetworkFailed? && !n'.NetworkFailed? ==> n' == n
    ensures !n.NetworkFailed? && n'.NetworkFailed? ==>
              && (forall k :: 0 <= k < |members| ==> members[k].Failed? && members[k].since <= n'.since)
              && (|members| == 0 ==> n'.since == EarliestTimestamp)
              && (|members| > 0 ==> exists k :: 0 <= k < |members| && members[k].Failed? && members[k].since == n'.since)
    ensures n.NetworkFailed? ==>
              (n'.NetworkFailRecovered? <==> exists k :: 0 <= k < |members| && members[k].FailRecovered?)
    ensures n.NetworkFailed? && !n'.NetworkFailRecovered? ==> n' == n
    ensures n.NetworkFailed? && n'.NetworkFailRecovered? ==>
              && n'.since == n.since
              && exists k :: && 0 <= k < |members|
                             && members[k].FailRecovered?
                             && members[k].recoveredAt == n'.recoveredAt
                             && forall j :: 0 <= j < k ==> !members[j].FailRecovered?
  {
    match n
    case NetworkFailed(since) =>
      (match FirstFailRecovery(members)
       case Some(at) => NetworkFailRecovered(since, at)
       case None => n)
    case _ =>
      (match LatestFailure(members, EarliestTimestamp)
       case Some(latest) => NetworkFailed(latest)
       case None => n)
  }

  /** From a healthy-like network state the verdict depends only on which
      member states occur, not on their order: the order in which a set of
      interfaces happens to be iterated does not matter. */
  lemma HealthyPushIgnoresOrder(n: NetworkState, a: seq<MemberState>, b: seq<MemberState>)
    requires !n.NetworkFailed?
    requires forall x :: x in a <==> x in b
    ensures Push(n, a) == Push(n, b)
  {
    var pa, pb := Push(n, a), Push(n, b);
    assert (forall k :: 0 <= k < |a| ==> a[k].Failed?) <==> (forall k :: 0 <= k < |b| ==> b[k].Failed?) by {
      if forall k :: 0 <= k < |a| ==> a[k].Failed? {
        forall k | 0 <= k < |b| ensures b[k].Failed? {
          assert b[k] in a;
        }
      }
      if forall k :: 0 <= k < |b| ==> b[k].Failed? {
        forall k | 0 <= k < |a| ensures a[k].Failed? {
          assert a[k] in b;
        }
      }
    }
    if pa.NetworkFailed? {
      assert |a| == 0 <==> |b| == 0 by {
        if |a| > 0 { assert a[0] in b; }
        if |b| > 0 { assert b[0] in a; }
      }
      if |a| > 0 {
        var ka :| 0 <= ka < |a| && a[ka].Failed? && a[ka].since == pa.since;
        var kb :| 0 <= kb < |b| && b[kb].Failed? && b[kb].since == pb.since;
        assert a[ka] in b;
        assert b[kb] in a;
      }
    }
  }

  /** `g` groups `ifaces` by network: one key per network that occurs, each
      group non-empty and without repeats, every member in the group keyed by
      its own network, and every interface in its group. */
  ghost predicate IsGrouping(ifaces: seq<Interface>, g: map<Network, seq<Interface>>)
  {
    && g.Keys == (set i | i in ifaces :: NetworkOf(i))
    && NonEmptyGroups(g)
    && MembersBelong(ifaces, g)
    && EveryoneGrouped(ifaces, g)
    && NoRepeats(g)
  }

  ghost predicate NonEmptyGroups(g: map<Network, seq<Interface>>)
  {
    forall n :: n in g ==> |g[n]| > 0
  }

  ghost predicate MembersBelong(ifaces: seq<Interface>, g: map<Network, seq<Interface>>)
  {
    forall n, x :: n in g && x in g[n] ==> NetworkOf(x) == n && x in ifaces
  }

  ghost predicate EveryoneGrouped(ifaces: seq<Interface>, g: map<Network, seq<Interface>>)
  {
    forall i :: i in ifaces ==> NetworkOf(i) in g && i in g[NetworkOf(i)]
  }

  ghost predicate NoRepeats(g: map<Network, seq<Interface>>)
  {
    forall n :: n in g ==> forall j, k :: 0 <= j < k < |g[n]| ==> g[n][j] != g[n][k]
  }

  /** Adds an interface to the group of its network, unless already there. */
  function AddToGroup(g: map<Network, seq<Interface>>, i: Interface): map<Network, seq<Interface>>
  {
    var n := NetworkOf(i);
    var members := if n in g then g[n] else [];
    g[n := if i in members then members else members + [i]]
  }

  /** Adding one more interface keeps a grouping a grouping. */
  lemma AddToGroupKeepsGrouping(p: seq<Interface>, g: map<Network, seq<Interface>>, i: Interface)
    requires IsGrouping(p, g)
    ensures IsGrouping(p + [i], AddToGroup(g, i))
  {
    AddKeys(p, g, i);
    AddMembers(p, g, i);
    AddCovers(p, g, i);
    AddDistinct(g, i);
  }

  lemma AddKeys(p: seq<Interface>, g: map<Network, seq<Interface>>, i: Interface)
    requires g.Keys == (set x | x in p :: NetworkOf(x))
    ensures AddToGroup(g, i).Keys == (set x | x in p + [i] :: NetworkOf(x))
  {
    assert forall x :: x in p + [i] <==> x in p || x == i;
  }

  lemma AddMembers(p: seq<Interface>, g: map<Network, seq<Interface>>, i: Interface)
    requires MembersBelong(p, g)
    ensures MembersBelong(p + [i], AddToGroup(g, i))
  {
    var g' := AddToGroup(g, i);
    forall n, x | n in g' && x in g'[n]
      ensures NetworkOf(x) == n && x in p + [i]
    {
      if n != NetworkOf(i) {
        assert x in g[n];
      } else if x != i {
        assert x in g[n];
      }
    }
  }

  lemma AddCovers(p: seq<Interface>, g: map<Network, seq<Interface>>, i: Interface)
    requires EveryoneGrouped(p, g)
    ensures EveryoneGrouped(p + [i], AddToGroup(g, i))
  {
    var g' := AddToGroup(g, i);
    forall x | x in p + [i]
      ensures NetworkOf(x) in g' && x in g'[NetworkOf(x)]
    {
      if x != i {
        assert x in p;
      }
    }
  }

  lemma AddDistinct(g: map<Network, seq<Interface>>, i: Interface)
    requires NonEmptyGroups(g) && NoRepeats(g)
    ensures NonEmptyGroups(AddToGroup(g, i)) && NoRepeats(AddToGroup(g, i))
  {
  }

  /** Interfaces grouped by network, each group in order of first appearance
      and without repeats (a set in the grouped dictionary). */
  function GroupByNetwork(ifaces: seq<Interface>): (g: map<Network, seq<Interface>>)
    ensures IsGrouping(ifaces, g)
    decreases |ifaces|
  {
    if |ifaces| == 0 then map[]
    else
      var earlier := GroupByNetwork(ifaces[..|ifaces| - 1]);
      assert ifaces == ifaces[..|ifaces| - 1] + [ifaces[|ifaces| - 1]];
      AddToGroupKeepsGrouping(ifaces[..|ifaces| - 1], earlier, ifaces[|ifaces| - 1]);
      AddToGroup(earlier, ifaces[|ifaces| - 1])
  }

  /** The recorded states of a group's members, in the group's order. */
  function MemberStates(states: map<Interface, MemberState>, group: seq<Interface>): (ms: seq<MemberState>)
    requires forall i :: i in group ==> i in states
    ensures |ms| == |group|
    ensures forall k :: 0 <= k < |group| ==> ms[k] == states[group[k]]
  {
    seq(|group|, k requires 0 <= k < |group| => states[group[k]])
  }

  /** What one network's verdict says about the interfaces of that network:
      never a recovery; Failed exactly when all of them are Failed, dated by
      the latest of their failures. */
  ghost predicate VerdictFor(states: map<Interface, MemberState>, ifaces: seq<Interface>, n: Network, v: NetworkState)
    requires forall i :: i in ifaces ==> i in states
  {
    && !v.NetworkFailRecovered?
    && (v.NetworkFailed? <==> forall i :: i in ifaces && NetworkOf(i) == n ==> states[i].Failed?)
    && (v.NetworkFailed? ==>
          && (forall i :: i in ifaces && NetworkOf(i) == n ==> states[i].Failed? && states[i].since <= v.since)
          && (exists i :: i in ifaces && NetworkOf(i) == n && states[i].Failed? && states[i].since == v.since))
    && (!v.NetworkFailed? ==> v == NetworkHealthy)
  }

  lemma GroupVerdict(states: map<Interface, MemberState>, ifaces: seq<Interface>,
                     groups: map<Network, seq<Interface>>, n: Network)
    requires forall i :: i in ifaces ==> i in states
    requires IsGrouping(ifaces, groups) && n in groups
    ensures VerdictFor(states, ifaces, n, Push(NetworkHealthy, MemberStates(states, groups[n])))
  {
    var g := groups[n];
    var ms := MemberStates(states, g);
    var v := Push(NetworkHealthy, ms);
    assert forall i :: i in ifaces && NetworkOf(i) == n ==> exists k :: 0 <= k < |g| && g[k] == i;
    if v.NetworkFailed? {
      var k :| 0 <= k < |ms| && ms[k].Failed? && ms[k].since == v.since;
      assert g[k] in ifaces && NetworkOf(g[k]) == n;
    } else {
      var k :| 0 <= k < |ms| && !ms[k].Failed?;
      assert g[k] in ifaces && NetworkOf(g[k]) == n;
    }
  }

  /** The batch path: group the interfaces by network and push each group's
      member states, once, into a fresh Healthy network state. */
  function BatchNetworks(states: map<Interface, MemberState>, ifaces: seq<Interface>): (r: map<Network, NetworkState>)
    requires forall i :: i in ifaces ==> i in states
    ensures r.Keys == set i | i in ifaces :: NetworkOf(i)
    ensures forall n :: n in r ==> VerdictFor(states, ifaces, n, r[n])
  {
    var groups := GroupByNetwork(ifaces);
    var r := map n | n in groups :: Push(NetworkHealthy, MemberStates(states, groups[n]));
    assert forall n :: n in r ==> VerdictFor(states, ifaces, n, r[n]) by {
      forall n | n in r ensures VerdictFor(states, ifaces, n, r[n]) {
        GroupVerdict(states, ifaces, groups, n);
      }
    }
    r
  }

  /** The state the third engine reports for one interface of the log. */
  function MemberRun(cfg: OverloadDetection.Config, log: seq<LogRecord>, i: Interface): Result<MemberState>
  {
    OverloadDetection.Run(cfg, Replay.RecordsOf(log, i))
  }

  /** What one network's verdict says about the replays of the log's
      interfaces in that network; the same as `VerdictFor`, read off the
      records rather than off a map of states. */
  ghost predicate RunVerdict(cfg: OverloadDetection.Config, log: seq<LogRecord>, n: Network, v: NetworkState)
  {
    && !v.NetworkFailRecovered?
    && (v.NetworkFailed? <==>
          forall i :: i in Replay.InterfacesOf(log) && NetworkOf(i) == n ==>
            MemberRun(cfg, log, i).Ok? && MemberRun(cfg, log, i).value.Failed?)
    && (v.NetworkFailed? ==>
          && (forall i :: i in Replay.InterfacesOf(log) && NetworkOf(i) == n ==>
                MemberRun(cfg, log, i).Ok? && MemberRun(cfg, log, i).value.Failed? && MemberRun(cfg, log, i).value.since <= v.since)
          && (exists i :: && i in Replay.InterfacesOf(log) && NetworkOf(i) == n
                          && MemberRun(cfg, log, i).Ok? && MemberRun(cfg, log, i).value.Failed?
                          && MemberRun(cfg, log, i).value.since == v.since))
    && (!v.NetworkFailed? ==> v == NetworkHealthy)
  }

  lemma VerdictOfRuns(cfg: OverloadDetection.Config, log: seq<LogRecord>, states: map<Interface, MemberState>,
                      n: Network, v: NetworkState)
    requires forall i :: i in Replay.InterfacesOf(log) ==> i in states && MemberRun(cfg, log, i) == Ok(states[i])
    requires VerdictFor(states, Replay.FirstSeen(log), n, v)
    ensures RunVerdict(cfg, log, n, v)
  {
    if v.NetworkFailed? {
      var i :| i in Replay.FirstSeen(log) && NetworkOf(i) == n && states[i].Failed? && states[i].since == v.since;
      assert i in Replay.InterfacesOf(log);
    } else {
      var i :| i in Replay.FirstSeen(log) && NetworkOf(i) == n && !states[i].Failed?;
      assert i in Replay.InterfacesOf(log);
    }
  }

  /** The batch verdicts over the interfaces in order of first appearance,
      read off the records. */
  lemma BatchOfRuns(cfg: OverloadDetection.Config, log: seq<LogRecord>, states: map<Interface, MemberState>)
    requires forall i :: i in Replay.InterfacesOf(log) ==> i in states && MemberRun(cfg, log, i) == Ok(states[i])
    ensures forall i :: i in Replay.FirstSeen(log) ==> i in states
    ensures BatchNetworks(states, Replay.FirstSeen(log)).Keys == set i | i in Replay.InterfacesOf(log) :: NetworkOf(i)
    ensures forall n :: n in BatchNetworks(states, Replay.FirstSeen(log)) ==>
              RunVerdict(cfg, log, n, BatchNetworks(states, Replay.FirstSeen(log))[n])
  {
    var ifaces := Replay.FirstSeen(log);
    var r := BatchNetworks(states, ifaces);
    NetworksOfSameInterfaces(ifaces, Replay.InterfacesOf(log));
    forall n | n in r ensures RunVerdict(cfg, log, n, r[n]) {
      VerdictOfRuns(cfg, log, states, n, r[n]);
    }
  }

  lemma NetworksOfSameInterfaces(ifaces: seq<Interface>, s: set<Interface>)
    requires forall i :: i in ifaces <==> i in s
    ensures (set i | i in ifaces :: NetworkOf(i)) == set i | i in s :: NetworkOf(i)
  {
  }

  /** The whole fourth engine: replay every interface with the third engine's
      machine, then compute the network verdicts in one batch over the
      interfaces in order of first appearance, and report both maps. It
      raises exactly when some interface's replay raises; otherwise the
      interface map is the third engine's, and there is one verdict per
      network of the log, each as `RunVerdict` describes. */
  function DetectNetworkFailure(cfg: OverloadDetection.Config, log: seq<LogRecord>)
    : (o: Result<(map<Interface, MemberState>, map<Network, NetworkState>)>)
    ensures o.TypeError? <==> exists i :: i in Replay.InterfacesOf(log) && MemberRun(cfg, log, i).TypeError?
    ensures o.Ok? ==> o.value.0.Keys == Replay.InterfacesOf(log)
    ensures o.Ok? ==> forall i :: i in o.value.0 ==> MemberRun(cfg, log, i) == Ok(o.value.0[i])
    ensures o.Ok? ==> o.value.1.Keys == set i | i in Replay.InterfacesOf(log) :: NetworkOf(i)
    ensures o.Ok? ==> forall n :: n in o.value.1 ==> RunVerdict(cfg, log, n, o.value.1[n])
  {
    match OverloadDetection.DetectFailureOrOverloadDuration(cfg, log)
    case TypeError => TypeError
    case Ok(states) =>
      BatchOfRuns(cfg, log, states);
      Ok((states, BatchNetworks(states, Replay.FirstSeen(log))))
  }
}
