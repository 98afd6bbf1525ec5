/** Overlapping boot-time probes and the reboots they reveal: internal/daemon/reboot.go. */
module Reboot {
  import opened Options

  datatype Observation = Observation(bootTime: nat, rebootedAt: Option<int>)

  datatype Probe = Probe(key: string, generation: nat, order: nat)

  datatype Node = Node(observation: Observation, generation: nat, nextSeq: nat, appliedSeq: nat)

  datatype Verdict = Verdict(observation: Observation, previous: nat, changed: bool, applied: bool)

  const NOTICE_TTL := 900_000_000_000
  const NOTHING := Observation(0, None)
  const REJECTED := Verdict(NOTHING, 0, false, false)

  type Log = map<string, Node>

  /** The entry of a node, zero for one never seen. */
  function Entry(log: Log, key: string): Node
  {
    if key in log then log[key] else Node(NOTHING, 0, 0, 0)
  }

  function Token(log: Log, key: string): Probe
  {
    Probe(key, Entry(log, key).generation, Entry(log, key).nextSeq + 1)
  }

  function Begun(log: Log, key: string): Log
  {
    log[key := Entry(log, key).(nextSeq := Entry(log, key).nextSeq + 1)]
  }

  predicate Admits(log: Log, probe: Probe, bootTime: nat)
  {
    && probe.key in log && probe.generation == log[probe.key].generation
    && probe.order >= log[probe.key].appliedSeq && bootTime != 0
  }

  /** What the log shows after an admitted probe: a first sample is a baseline, an equal one
      changes nothing, a different one is a reboot. */
  function Judged(log: Log, probe: Probe, bootTime: nat, now: int): Verdict
  {
    if !Admits(log, probe, bootTime) then REJECTED
    else
      var previous := log[probe.key].observation;
      if previous.bootTime == 0 then Verdict(Observation(bootTime, None), 0, false, true)
      else if previous.bootTime == bootTime then Verdict(previous, bootTime, false, true)
      else Verdict(Observation(bootTime, Some(now)), previous.bootTime, true, true)
  }

  function Completed(log: Log, probe: Probe, bootTime: nat, now: int): Log
  {
    if !Admits(log, probe, bootTime) then log
    else
      var observation := Judged(log, probe, bootTime, now).observation;
      log[probe.key := log[probe.key].(appliedSeq := probe.order, observation := observation)]
  }

  function Blank(n: Node): Node { n.(generation := n.generation + 1, observation := NOTHING, appliedSeq := 0) }

  function Forgotten(log: Log, key: string): Log { log[key := Blank(Entry(log, key))] }

  function PrefixForgotten(log: Log, prefix: string): Log
  {
    map k | k in log :: if prefix <= k then Blank(log[k]) else log[k]
  }

  /** The critical sections of the log. */
  class RebootLog {
    var nodes: Log

    constructor ()
      ensures nodes == map[]
    {
      nodes := map[];
    }

    method BeginObserve(key: string) returns (probe: Probe)
      modifies this
      ensures probe == Token(old(nodes), key) && nodes == Begun(old(nodes), key)
    {
      var state := Entry(nodes, key);
      state := state.(nextSeq := state.nextSeq + 1);
      nodes := nodes[key := state];
      probe := Probe(key, state.generation, state.nextSeq);
    }

    method CompleteObserve(probe: Probe, bootTime: nat, now: int) returns (verdict: Verdict)
      modifies this
      ensures verdict == Judged(old(nodes), probe, bootTime, now)
      ensures nodes == Completed(old(nodes), probe, bootTime, now)
    {
      if probe.key !in nodes {
        return REJECTED;
      }
      var state := nodes[probe.key];
      if probe.generation != state.generation || probe.order < state.appliedSeq || bootTime == 0 {
        return REJECTED;
      }
      var previous := state.observation;
      state := state.(appliedSeq := probe.order);
      if previous.bootTime == 0 {
        state := state.(observation := Observation(bootTime, None));
        nodes := nodes[probe.key := state];
        return Verdict(state.observation, 0, false, true);
      }
      if previous.bootTime == bootTime {
        nodes := nodes[probe.key := state];
        return Verdict(previous, previous.bootTime, false, true);
      }
      state := state.(observation := Observation(bootTime, Some(now)));
      nodes := nodes[probe.key := state];
      return Verdict(state.observation, previous.bootTime, true, true);
    }

    /** The reboot still worth a notice, if there is one. */
    method Current(key: string, now: int) returns (notice: Option<Observation>)
      ensures notice.Some? <==>
        key in nodes && nodes[key].observation.rebootedAt.Some?
          && now < nodes[key].observation.rebootedAt.value + 900_000_000_000
      ensures notice.Some? ==> notice.value == nodes[key].observation
    {
      var observation := Entry(nodes, key).observation;
      if observation.rebootedAt.None? || now - observation.rebootedAt.value >= NOTICE_TTL {
        return None;
      }
      return Some(observation);
    }

    method Forget(key: string)
      modifies this
      ensures nodes == Forgotten(old(nodes), key)
    {
      nodes := nodes[key := Blank(Entry(nodes, key))];
    }

    method ForgetPrefix(prefix: string)
      modifies this
      ensures nodes == PrefixForgotten(old(nodes), prefix)
    {
      var keys := nodes.Keys;
      while keys != {}
        invariant keys <= nodes.Keys == old(nodes).Keys
        invariant forall k :: k in nodes ==>
          nodes[k] == if k !in keys && prefix <= k then Blank(old(nodes)[k]) else old(nodes)[k]
      {
        var key :| key in keys;
        keys := keys - {key};
        if prefix <= key {
          nodes := nodes[key := Blank(nodes[key])];
        }
      }
    }
  }

  // ----- Runs, told by position

  /** What happens to the log, in order. A completion names the event that began its probe;
      forgetting everything is forgetting the empty prefix. */
  datatype Event =
    | Begin(key: string)
    | Complete(begun: nat, bootTime: nat, now: int)
    | ForgetOne(key: string)
    | ForgetAll(prefix: string)

  ghost predicate WellFormed(events: seq<Event>)
  {
    forall i :: 0 <= i < |events| && events[i].Complete? ==> events[i].begun < i && events[events[i].begun].Begin?
  }

  ghost function At(events: seq<Event>, n: nat): Log
    requires WellFormed(events) && n <= |events|
    decreases n, 0
  {
    if n == 0 then map[]
    else
      var log := At(events, n - 1);
      match events[n - 1]
      case Begin(key) => Begun(log, key)
      case Complete(b, bootTime, now) => Completed(log, TokenOf(events, b), bootTime, now)
      case ForgetOne(key) => Forgotten(log, key)
      case ForgetAll(prefix) => PrefixForgotten(log, prefix)
  }

  /** The probe the event at b began. */
  ghost function TokenOf(events: seq<Event>, b: nat): Probe
    requires WellFormed(events) && b < |events| && events[b].Begin?
    decreases b, 1
  {
    Token(At(events, b), events[b].key)
  }

  ghost predicate Forgets(e: Event, key: string)
  {
    (e.ForgetOne? && e.key == key) || (e.ForgetAll? && e.prefix <= key)
  }

  ghost predicate Unforgotten(events: seq<Event>, key: string, from: nat, to: nat)
    requires to <= |events|
  {
    forall i :: from <= i < to ==> !Forgets(events[i], key)
  }

  ghost predicate About(events: seq<Event>, i: nat, key: string)
    requires WellFormed(events) && i < |events|
  {
    events[i].Complete? && events[events[i].begun].key == key
  }

  /** The reference, without generations or sequence numbers: a completion counts when it
      carries a boot time, nothing forgot its node since its probe began, and no completion
      that counted belongs to a probe begun later. */
  ghost predicate Counts(events: seq<Event>, i: nat)
    requires WellFormed(events) && i < |events| && events[i].Complete?
    decreases i
  {
    var b, key := events[i].begun, events[events[i].begun].key;
    && events[i].bootTime != 0
    && Unforgotten(events, key, b, i)
    && forall j :: 0 <= j < i && About(events, j, key) && Counts(events, j) ==> events[j].begun <= b
  }

  /** The last completion that counts for the node and has not been forgotten since. */
  ghost function Latest(events: seq<Event>, n: nat, key: string): (k: nat)
    requires WellFormed(events) && n <= |events|
    ensures k <= n
    ensures k < n ==> About(events, k, key) && Counts(events, k) && Unforgotten(events, key, k, n)
    ensures k < n ==> forall j :: k < j < n && About(events, j, key) ==> !Counts(events, j)
    ensures k == n ==> forall j :: 0 <= j < n && About(events, j, key) && Counts(events, j) ==>
      !Unforgotten(events, key, j, n)
    decreases n
  {
    if n == 0 then 0
    else if Forgets(events[n - 1], key) then n
    else if About(events, n - 1, key) && Counts(events, n - 1) then n - 1
    else
      var k := Latest(events, n - 1, key);
      if k < n - 1 then k else n
  }

  ghost predicate Changes(events: seq<Event>, i: nat)
    requires WellFormed(events) && i < |events| && events[i].Complete?
  {
    var k := Latest(events, i, events[events[i].begun].key);
    Counts(events, i) && k < i && events[k].bootTime != events[i].bootTime
  }

  /** The last change of boot time for the node not forgotten since. */
  ghost function LastChange(events: seq<Event>, n: nat, key: string): (k: nat)
    requires WellFormed(events) && n <= |events|
    ensures k < n ==> About(events, k, key) && Latest(events, n, key) < n
    decreases n
  {
    if n == 0 then 0
    else if Forgets(events[n - 1], key) then n
    else if About(events, n - 1, key) && Changes(events, n - 1) then n - 1
    else
      var k := LastChange(events, n - 1, key);
      if k < n - 1 then k else n
  }

  // ----- The log agrees with the reference

  /** Generations and sequence numbers only grow, and a generation stays exactly as long as
      nothing forgets the node. */
  lemma {:induction false} Grow(events: seq<Event>, m: nat, n: nat, key: string)
    requires WellFormed(events) && m <= n <= |events|
    ensures var before, after := Entry(At(events, m), key), Entry(At(events, n), key);
      && before.generation <= after.generation && before.nextSeq <= after.nextSeq
      && (key in At(events, m) ==> key in At(events, n))
      && (key in At(events, m) ==> (before.generation == after.generation <==> Unforgotten(events, key, m, n)))
    decreases n - m
  {
    if m < n {
      Grow(events, m, n - 1, key);
      assert Unforgotten(events, key, m, n) <==> Unforgotten(events, key, m, n - 1) && !Forgets(events[n - 1], key);
      hide Unforgotten, Judged, TokenOf;
    }
  }

  /** Probes of one node are numbered in the order they began. */
  lemma BeginOrder(events: seq<Event>, b: nat, c: nat)
    requires WellFormed(events) && b < c < |events|
    requires events[b].Begin? && events[c].Begin? && events[b].key == events[c].key
    ensures TokenOf(events, b).order < TokenOf(events, c).order
  {
    Grow(events, b + 1, c, events[b].key);
  }

  lemma BeganIsKnown(events: seq<Event>, b: nat, n: nat)
    requires WellFormed(events) && b < n <= |events| && events[b].Begin?
    ensures var key := events[b].key;
      && key in At(events, n)
      && (TokenOf(events, b).generation == At(events, n)[key].generation <==> Unforgotten(events, key, b, n))
      && TokenOf(events, b).order > 0
  {
    var key := events[b].key;
    assert key in At(events, b + 1) && At(events, b + 1)[key].generation == TokenOf(events, b).generation;
    Grow(events, b + 1, n, key);
    assert Unforgotten(events, key, b, n) <==> Unforgotten(events, key, b + 1, n);
  }

  ghost predicate Stored(events: seq<Event>, n: nat, key: string)
    requires WellFormed(events) && n <= |events|
  {
    var node, k, c := Entry(At(events, n), key), Latest(events, n, key), LastChange(events, n, key);
    && (if k < n then node.appliedSeq == TokenOf(events, events[k].begun).order else node.appliedSeq == 0)
    && node.observation.bootTime == (if k < n then events[k].bootTime else 0)
    && node.observation.rebootedAt == (if c < n then Some(events[c].now) else None)
  }

  /** Whether a completion counts is settled by the last one that did. */
  lemma CountsByLatest(events: seq<Event>, i: nat)
    requires WellFormed(events) && i < |events| && events[i].Complete?
    ensures var b := events[i].begun;
      var key := events[b].key;
      var k := Latest(events, i, key);
      Counts(events, i) <==>
        events[i].bootTime != 0 && Unforgotten(events, key, b, i) && (k < i ==> events[k].begun <= b)
  {
    var b := events[i].begun;
    var key := events[b].key;
    var k := Latest(events, i, key);
    hide Latest, LastChange;
    if events[i].bootTime != 0 && Unforgotten(events, key, b, i) && (k < i ==> events[k].begun <= b) {
      forall j | 0 <= j < i && About(events, j, key) && Counts(events, j)
        ensures events[j].begun <= b
      {
        if k < i {
          assert j <= k;
        } else {
          assert !Unforgotten(events, key, j, i);
        }
      }
    }
  }

  lemma OrderAgrees(events: seq<Event>, b: nat, c: nat)
    requires WellFormed(events) && b < |events| && c < |events|
    requires events[b].Begin? && events[c].Begin? && events[b].key == events[c].key
    ensures TokenOf(events, b).order <= TokenOf(events, c).order <==> b <= c
  {
    if b < c {
      BeginOrder(events, b, c);
    } else if c < b {
      BeginOrder(events, c, b);
    }
  }

  /** A completion is admitted by generation and sequence number exactly when it counts. */
  lemma AdmittedIffCounts(events: seq<Event>, i: nat)
    requires WellFormed(events) && i < |events| && events[i].Complete?
    requires Stored(events, i, events[events[i].begun].key)
    ensures Admits(At(events, i), TokenOf(events, events[i].begun), events[i].bootTime) <==> Counts(events, i)
  {
    var b := events[i].begun;
    BeganIsKnown(events, b, i);
    CountsByLatest(events, i);
    var k := Latest(events, i, events[b].key);
    if k < i {
      OrderAgrees(events, events[k].begun, b);
    }
    assert TokenOf(events, b).key == events[b].key;
    hide At, TokenOf, Latest, LastChange, Counts, Unforgotten;
  }

  lemma LatestBootTime(events: seq<Event>, n: nat, key: string)
    requires WellFormed(events) && n <= |events|
    ensures var k := Latest(events, n, key); k < n ==> events[k].bootTime != 0
  {
  }

  lemma UnfoldOwn(events: seq<Event>, n: nat, key: string)
    requires WellFormed(events) && 0 < n <= |events| && About(events, n - 1, key)
    ensures var e := events[n - 1];
      var k, c := Latest(events, n - 1, key), LastChange(events, n - 1, key);
      && At(events, n) == Completed(At(events, n - 1), TokenOf(events, e.begun), e.bootTime, e.now)
      && Latest(events, n, key) == (if Counts(events, n - 1) then n - 1 else if k < n - 1 then k else n)
      && LastChange(events, n, key) == (if Changes(events, n - 1) then n - 1 else if c < n - 1 then c else n)
      && TokenOf(events, e.begun).key == key
      && (c < n - 1 ==> k < n - 1) && (k < n - 1 ==> events[k].bootTime != 0)
  {
    LatestBootTime(events, n - 1, key);
  }

  lemma StoredAfterOwn(events: seq<Event>, n: nat, key: string)
    requires WellFormed(events) && 0 < n <= |events| && About(events, n - 1, key) && Stored(events, n - 1, key)
    ensures Stored(events, n, key)
  {
    UnfoldOwn(events, n, key);
    AdmittedIffCounts(events, n - 1);
    hide At, Latest, LastChange, TokenOf, Counts, Unforgotten;
  }

  lemma StoredAfterOther(events: seq<Event>, n: nat, key: string)
    requires WellFormed(events) && 0 < n <= |events| && !About(events, n - 1, key) && Stored(events, n - 1, key)
    ensures Stored(events, n, key)
  {
    var e := events[n - 1];
    if e.Complete? {
      assert TokenOf(events, e.begun).key == events[e.begun].key;
    }
    hide TokenOf, Counts, Unforgotten, Judged;
  }

  lemma {:induction false} StoredAt(events: seq<Event>, n: nat, key: string)
    requires WellFormed(events) && n <= |events|
    ensures Stored(events, n, key)
    decreases n
  {
    if n > 0 {
      hide Stored;
      StoredAt(events, n - 1, key);
      if About(events, n - 1, key) {
        StoredAfterOwn(events, n, key);
      } else {
        StoredAfterOther(events, n, key);
      }
    }
  }

  /** After any interleaving of begins, completions and forgets, and for every node: the
      boot time on record is that of the completion whose probe began last among those that
      count since the node was last forgotten, and the reboot on record is its last change. */
  lemma RecordIsLatest(events: seq<Event>, key: string)
    requires WellFormed(events)
    ensures var n := |events|;
      var node, k, c := Entry(At(events, n), key), Latest(events, n, key), LastChange(events, n, key);
      && node.observation.bootTime == (if k < n then events[k].bootTime else 0)
      && node.observation.rebootedAt == (if c < n then Some(events[c].now) else None)
      && (k < n ==>
            forall j :: 0 <= j < n && About(events, j, key) && Counts(events, j) && Unforgotten(events, key, j, n) ==>
              events[j].begun <= events[k].begun)
  {
    StoredAt(events, |events|, key);
    hide At, TokenOf, LastChange;
  }

  /** A completion is accepted exactly when it counts, and a reboot is reported exactly when
      it changes the boot time of the completion accepted before it. What is reported is what is
      then on record, together with that earlier boot time. */
  lemma ReportedIffChanged(events: seq<Event>, i: nat)
    requires WellFormed(events) && i < |events| && events[i].Complete?
    ensures var v := Judged(At(events, i), TokenOf(events, events[i].begun), events[i].bootTime, events[i].now);
      && (v.applied <==> Counts(events, i))
      && (v.changed <==> Changes(events, i))
      && (!v.applied ==> v == Verdict(Observation(0, None), 0, false, false))
      && (v.applied ==>
            var key := events[events[i].begun].key;
            && v.observation == Entry(At(events, i + 1), key).observation
            && v.observation.bootTime == events[i].bootTime
            && v.previous == if Latest(events, i, key) < i then events[Latest(events, i, key)].bootTime else 0)
      && (v.changed ==> v.observation.rebootedAt == Some(events[i].now))
  {
    var key := events[events[i].begun].key;
    StoredAt(events, i, key);
    LatestBootTime(events, i, key);
    AdmittedIffCounts(events, i);
    assert TokenOf(events, events[i].begun).key == key;
    assert At(events, i + 1) ==
      Completed(At(events, i), TokenOf(events, events[i].begun), events[i].bootTime, events[i].now);
    hide At, TokenOf, LastChange, Counts, Latest;
  }

  /** A probe begun before its node was forgotten is never accepted afterwards. */
  lemma ForgottenProbe(events: seq<Event>, f: nat, i: nat)
    requires WellFormed(events) && i < |events| && events[i].Complete?
    requires events[i].begun < f < i && Forgets(events[f], events[events[i].begun].key)
    ensures !Judged(At(events, i), TokenOf(events, events[i].begun), events[i].bootTime, events[i].now).applied
  {
    ReportedIffChanged(events, i);
    hide Judged, At, TokenOf;
    assert !Unforgotten(events, events[events[i].begun].key, events[i].begun, i);
  }
}
