/**
 Replaying a log through one state machine per interface. Each version of the
 engine keeps a dictionary from interface to a context holding that interface's
 state: the context is created (in the initial state) the first time its
 interface appears, and every record is pushed into its own interface's context
 in arrival order. Here the dictionary is a map and the machine is a step
 function passed in.
 */
module Replay {
  import opened Records

  /** The state after feeding records `rs`, in order, to a machine started in `s`. */
  function Run<S>(step: (S, LogRecord) -> S, s: S, rs: seq<LogRecord>): S
    decreases |rs|
  {
    if |rs| == 0 then s else step(Run(step, s, rs[..|rs| - 1]), rs[|rs| - 1])
  }

  /** Feeding one more record is one more step. */
  lemma RunAppend<S>(step: (S, LogRecord) -> S, s: S, rs: seq<LogRecord>, r: LogRecord)
    ensures Run(step, s, rs + [r]) == step(Run(step, s, rs), r)
  {
    assert (rs + [r])[..|rs|] == rs;
  }

  /** The interfaces that appear in the log. */
  function InterfacesOf(log: seq<LogRecord>): set<Interface>
  {
    set r | r in log :: r.iface
  }

  /** The records of interface `i`, in arrival order. */
  function RecordsOf(log: seq<LogRecord>, i: Interface): (rs: seq<LogRecord>)
    ensures forall r :: r in rs <==> r in log && r.iface == i
    ensures rs == [] <==> i !in InterfacesOf(log)
    decreases |log|
  {
    if |log| == 0 then []
    else
      var earlier := RecordsOf(log[..|log| - 1], i);
      if log[|log| - 1].iface == i then earlier + [log[|log| - 1]] else earlier
  }

  /** A single record belongs to its own interface's records only. */
  lemma RecordsOfSingle(r: LogRecord, i: Interface)
    ensures RecordsOf([r], i) == if r.iface == i then [r] else []
  {
    assert [r][..0] == [];
  }

  /** Splitting the log splits every interface's records the same way: they
      keep their arrival order and their number. */
  lemma {:induction false} RecordsOfAppend(a: seq<LogRecord>, b: seq<LogRecord>, i: Interface)
    ensures RecordsOf(a + b, i) == RecordsOf(a, i) + RecordsOf(b, i)
    decreases |b|
  {
    if |b| == 0 {
      assert a + b == a;
    } else {
      var b', r := b[..|b| - 1], b[|b| - 1];
      assert (a + b)[..|a + b| - 1] == a + b';
      RecordsOfAppend(a, b', i);
    }
  }

  /** The interfaces in order of first appearance, each once: the key order of
      the dictionary the drivers build. */
  function FirstSeen(log: seq<LogRecord>): (order: seq<Interface>)
    ensures forall j, k :: 0 <= j < k < |order| ==> order[j] != order[k]
    ensures forall i :: i in order <==> i in InterfacesOf(log)
    decreases |log|
  {
    if |log| == 0 then []
    else
      var earlier := FirstSeen(log[..|log| - 1]);
      assert forall r :: r in log <==> r in log[..|log| - 1] || r == log[|log| - 1];
      if log[|log| - 1].iface in earlier then earlier else earlier + [log[|log| - 1].iface]
  }

  /** The driver loop: one state per interface, created as `init` on first
      sight and advanced by `step` for each of its records. */
  function Detect<S>(step: (S, LogRecord) -> S, init: S, log: seq<LogRecord>): (m: map<Interface, S>)
    ensures m.Keys == InterfacesOf(log)
    decreases |log|
  {
    if |log| == 0 then map[]
    else
      var earlier := Detect(step, init, log[..|log| - 1]);
      var r := log[|log| - 1];
      assert forall x :: x in log <==> x in log[..|log| - 1] || x == r;
      var current := if r.iface in earlier then earlier[r.iface] else init;
      earlier[r.iface := step(current, r)]
  }

  /** Each interface's final state is what its own records alone produce,
      replayed in arrival order from the initial state: records of other
      interfaces have no effect on it. */
  lemma {:induction false} DetectIsRunPerInterface<S>(step: (S, LogRecord) -> S, init: S,
                                                      log: seq<LogRecord>, i: Interface)
    requires i in InterfacesOf(log)
    ensures Detect(step, init, log)[i] == Run(step, init, RecordsOf(log, i))
    decreases |log|
  {
    var earlierLog := log[..|log| - 1];
    var r := log[|log| - 1];
    var earlier := Detect(step, init, earlierLog);
    if i in InterfacesOf(earlierLog) {
      DetectIsRunPerInterface(step, init, earlierLog, i);
    } else {
    }
    if r.iface == i {
      var rs := RecordsOf(log, i);
      assert rs[..|rs| - 1] == RecordsOf(earlierLog, i);
    }
  }

  /** Pushing one record changes only its own interface's entry. */
  lemma OtherInterfacesUnchanged<S>(step: (S, LogRecord) -> S, init: S,
                                   log: seq<LogRecord>, r: LogRecord, j: Interface)
    requires j in InterfacesOf(log) && j != r.iface
    ensures Detect(step, init, log + [r])[j] == Detect(step, init, log)[j]
  {
    assert (log + [r])[..|log|] == log;
  }
}
