/** The handover between the holder of a cluster's mutation lock and the operations queued
    behind it: internal/daemon/preempt.go. */
module Preempt {
  import Text

  /** What the mutex guards. Interrupts are known by their registration number. */
  datatype Core = Core(sequence: nat, pending: map<string, int>, interrupts: map<string, set<nat>>)

  function ClusterKey(name: string): string { Text.Lower(name) }

  /** Names share a key exactly when they agree but for the case of letters. */
  lemma KeyIffSameCluster(a: string, b: string)
    ensures ClusterKey(a) == ClusterKey(b) <==> Text.EqualFold(a, b)
  {
    Text.LowerIffEqualFold(a, b);
  }

  function Interrupts(c: Core, key: string): set<nat>
  {
    if key in c.interrupts then c.interrupts[key] else {}
  }

  function Queued(c: Core, key: string): int
  {
    if key in c.pending then c.pending[key] else 0
  }

  function Announced(c: Core, key: string): Core
  {
    c.(pending := c.pending[key := Queued(c, key) + 1])
  }

  function Unannounced(c: Core, key: string): Core
  {
    if Queued(c, key) - 1 <= 0 then c.(pending := c.pending - {key})
    else c.(pending := c.pending[key := Queued(c, key) - 1])
  }

  function Registered(c: Core, key: string): Core
  {
    c.(sequence := c.sequence + 1, interrupts := c.interrupts[key := Interrupts(c, key) + {c.sequence + 1}])
  }

  function Removed(c: Core, key: string, id: nat): Core
  {
    if Interrupts(c, key) - {id} == {} then c.(interrupts := c.interrupts - {key})
    else c.(interrupts := c.interrupts[key := Interrupts(c, key) - {id}])
  }

  /** The four critical sections. What is returned is fired after the mutex is released. */
  class Preemptions {
    var sequence: nat
    var pending: map<string, int>
    var interrupts: map<string, set<nat>>

    function View(): Core
      reads this
    {
      Core(sequence, pending, interrupts)
    }

    constructor ()
      ensures View() == Core(0, map[], map[])
    {
      sequence, pending, interrupts := 0, map[], map[];
    }

    method Request(name: string) returns (key: string, fire: set<nat>)
      modifies this
      ensures key == ClusterKey(name) && View() == Announced(old(View()), key)
      ensures fire == Interrupts(old(View()), key)
    {
      key := ClusterKey(name);
      pending := pending[key := (if key in pending then pending[key] else 0) + 1];
      fire := if key in interrupts then interrupts[key] else {};
    }

    method Release(key: string)
      modifies this
      ensures View() == Unannounced(old(View()), key)
    {
      pending := pending[key := (if key in pending then pending[key] else 0) - 1];
      if pending[key] <= 0 {
        pending := pending - {key};
        assert pending == old(pending) - {key};
      }
    }

    method Register(name: string) returns (key: string, id: nat, queued: bool)
      modifies this
      ensures key == ClusterKey(name) && View() == Registered(old(View()), key)
      ensures id == sequence && (queued <==> Queued(old(View()), key) > 0)
    {
      key := ClusterKey(name);
      if key !in interrupts {
        interrupts := interrupts[key := {}];
      }
      sequence := sequence + 1;
      id := sequence;
      interrupts := interrupts[key := interrupts[key] + {id}];
      queued := key in pending && pending[key] > 0;
      assert interrupts == old(interrupts)[key := Interrupts(old(View()), key) + {id}];
    }

    method Remove(key: string, id: nat)
      modifies this
      ensures View() == Removed(old(View()), key, id)
    {
      if key in interrupts {
        interrupts := interrupts[key := interrupts[key] - {id}];
      }
      if key !in interrupts || interrupts[key] == {} {
        interrupts := interrupts - {key};
        assert interrupts == old(interrupts) - {key};
      }
    }
  }

  // ----- All interleavings

  /** A queued operation: the interrupts it still has to fire, and whether it has released. */
  datatype Waiter = Waiter(name: string, key: string, fire: set<nat>, released: bool)

  /** A holder's offer: whether its own thread still has to fire it, and whether it is withdrawn. */
  datatype Offer = Offer(name: string, key: string, fire: bool, removed: bool)

  datatype State = State(core: Core, waiters: map<nat, Waiter>, offers: map<nat, Offer>, fired: set<nat>)

  datatype Step =
    | Request(w: nat, name: string)
    | FireFrom(w: nat, id: nat)
    | Release(w: nat)
    | Register(name: string)
    | FireOwn(id: nat)
    | Remove(id: nat)

  /** Releases and removals are handed out only after the caller's own fires are done. */
  ghost predicate Enabled(s: State, step: Step)
  {
    match step
    case Request(w, _) => w !in s.waiters
    case FireFrom(w, id) => w in s.waiters && id in s.waiters[w].fire
    case Release(w) => w in s.waiters && s.waiters[w].fire == {}
    case Register(_) => true
    case FireOwn(id) => id in s.offers && s.offers[id].fire
    case Remove(id) => id in s.offers && !s.offers[id].fire
  }

  ghost function Next(s: State, step: Step): State
    requires Enabled(s, step)
  {
    match step
    case Request(w, name) =>
      var key := ClusterKey(name);
      s.(core := Announced(s.core, key), waiters := s.waiters[w := Waiter(name, key, Interrupts(s.core, key), false)])
    case FireFrom(w, id) =>
      s.(waiters := s.waiters[w := s.waiters[w].(fire := s.waiters[w].fire - {id})], fired := s.fired + {id})
    case Release(w) =>
      if s.waiters[w].released then s
      else s.(core := Unannounced(s.core, s.waiters[w].key), waiters := s.waiters[w := s.waiters[w].(released := true)])
    case Register(name) =>
      var key := ClusterKey(name);
      s.(core := Registered(s.core, key),
         offers := s.offers[s.core.sequence + 1 := Offer(name, key, Queued(s.core, key) > 0, false)])
    case FireOwn(id) =>
      s.(offers := s.offers[id := s.offers[id].(fire := false)], fired := s.fired + {id})
    case Remove(id) =>
      if s.offers[id].removed then s
      else s.(core := Removed(s.core, s.offers[id].key, id), offers := s.offers[id := s.offers[id].(removed := true)])
  }

  ghost function Outstanding(waiters: map<nat, Waiter>, key: string): set<nat>
  {
    set w | w in waiters && waiters[w].key == key && !waiters[w].released
  }

  ghost function Standing(offers: map<nat, Offer>, key: string): set<nat>
  {
    set id | id in offers && offers[id].key == key && !offers[id].removed
  }

  /** The count of queued operations is the number announced and not released, and the
      interrupts on file are the offers not withdrawn, key by key. */
  ghost predicate CountedAt(c: Core, waiters: map<nat, Waiter>, k: string)
  {
    (k in c.pending <==> Outstanding(waiters, k) != {}) && Queued(c, k) == |Outstanding(waiters, k)|
  }

  ghost predicate FiledAt(c: Core, offers: map<nat, Offer>, k: string)
  {
    (k in c.interrupts <==> Standing(offers, k) != {}) && Interrupts(c, k) == Standing(offers, k)
  }

  ghost predicate Inv(s: State)
  {
    && (forall k :: CountedAt(s.core, s.waiters, k))
    && (forall k :: FiledAt(s.core, s.offers, k))
    && (forall id :: id in s.offers ==> id <= s.core.sequence)
  }

  /** Everybody uses the key of the name they came with. */
  ghost predicate Keyed(s: State)
  {
    && (forall w :: w in s.waiters ==> s.waiters[w].key == ClusterKey(s.waiters[w].name))
    && (forall id :: id in s.offers ==> s.offers[id].key == ClusterKey(s.offers[id].name))
  }

  /** An operation on the offer's cluster, by whatever name, is queued while the offer stands. */
  ghost predicate Together(s: State, id: nat)
  {
    && id in s.offers && !s.offers[id].removed
    && exists w :: w in s.waiters && !s.waiters[w].released && Text.EqualFold(s.waiters[w].name, s.offers[id].name)
  }

  /** The same, told from the keys. */
  ghost predicate Meets(s: State, id: nat)
  {
    id in s.offers && !s.offers[id].removed && Outstanding(s.waiters, s.offers[id].key) != {}
  }

  lemma TogetherIffMeets(s: State, id: nat)
    requires Keyed(s)
    ensures Together(s, id) <==> Meets(s, id)
  {
    hide ClusterKey, Text.EqualFold;
    if id in s.offers {
      var name := s.offers[id].name;
      if w :| w in s.waiters && !s.waiters[w].released && Text.EqualFold(s.waiters[w].name, name) {
        KeyIffSameCluster(s.waiters[w].name, name);
        assert w in Outstanding(s.waiters, s.offers[id].key);
      }
      if w :| w in Outstanding(s.waiters, s.offers[id].key) {
        KeyIffSameCluster(s.waiters[w].name, name);
      }
    }
  }

  ghost predicate Due(s: State, id: nat)
  {
    || (id in s.offers && s.offers[id].fire)
    || exists w :: w in s.waiters && id in s.waiters[w].fire
  }

  ghost predicate FiredOrDue(s: State, id: nat) { id in s.fired || Due(s, id) }

  lemma OutstandingUpdate(waiters: map<nat, Waiter>, w: nat, to: Waiter, k: string)
    requires w in waiters ==> waiters[w].key == to.key
    ensures Outstanding(waiters[w := to], k)
         == if k != to.key then Outstanding(waiters, k)
            else if to.released then Outstanding(waiters, k) - {w}
            else Outstanding(waiters, k) + {w}
  {
  }

  lemma StandingUpdate(offers: map<nat, Offer>, id: nat, to: Offer, k: string)
    requires id in offers ==> offers[id].key == to.key
    ensures Standing(offers[id := to], k)
         == if k != to.key then Standing(offers, k)
            else if to.removed then Standing(offers, k) - {id}
            else Standing(offers, k) + {id}
  {
  }

  lemma AnnounceCounts(c: Core, waiters: map<nat, Waiter>, w: nat, to: Waiter, k: string)
    requires CountedAt(c, waiters, k) && w !in waiters && !to.released
    ensures CountedAt(Announced(c, to.key), waiters[w := to], k)
  {
    OutstandingUpdate(waiters, w, to, k);
    assert w !in Outstanding(waiters, k);
  }

  lemma ReleaseCounts(c: Core, waiters: map<nat, Waiter>, w: nat, k: string)
    requires CountedAt(c, waiters, k) && w in waiters && !waiters[w].released
    ensures CountedAt(Unannounced(c, waiters[w].key), waiters[w := waiters[w].(released := true)], k)
  {
    OutstandingUpdate(waiters, w, waiters[w].(released := true), k);
    var rest := Outstanding(waiters, k) - {w};
    assert k == waiters[w].key ==> w in Outstanding(waiters, k) && |Outstanding(waiters, k)| == |rest| + 1;
    assert rest == {} <==> |rest| == 0;
  }

  lemma FireCounts(c: Core, waiters: map<nat, Waiter>, w: nat, fire: set<nat>, k: string)
    requires CountedAt(c, waiters, k) && w in waiters
    ensures CountedAt(c, waiters[w := waiters[w].(fire := fire)], k)
  {
    OutstandingUpdate(waiters, w, waiters[w].(fire := fire), k);
    assert k == waiters[w].key ==> (w in Outstanding(waiters, k) <==> !waiters[w].released);
    assert Outstanding(waiters[w := waiters[w].(fire := fire)], k) == Outstanding(waiters, k);
  }

  lemma RegisterFiles(c: Core, offers: map<nat, Offer>, to: Offer, k: string)
    requires FiledAt(c, offers, k) && c.sequence + 1 !in offers && !to.removed
    ensures FiledAt(Registered(c, to.key), offers[c.sequence + 1 := to], k)
  {
    StandingUpdate(offers, c.sequence + 1, to, k);
  }

  lemma RemoveFiles(c: Core, offers: map<nat, Offer>, id: nat, k: string)
    requires FiledAt(c, offers, k) && id in offers
    ensures FiledAt(Removed(c, offers[id].key, id), offers[id := offers[id].(removed := true)], k)
  {
    StandingUpdate(offers, id, offers[id].(removed := true), k);
  }

  lemma FireFiles(c: Core, offers: map<nat, Offer>, id: nat, k: string)
    requires FiledAt(c, offers, k) && id in offers
    ensures FiledAt(c, offers[id := offers[id].(fire := false)], k)
  {
    StandingUpdate(offers, id, offers[id].(fire := false), k);
    assert k == offers[id].key ==> (id in Standing(offers, k) <==> !offers[id].removed);
    assert Standing(offers[id := offers[id].(fire := false)], k) == Standing(offers, k);
  }

  lemma WaiterStep(s: State, step: Step)
    requires Inv(s) && Enabled(s, step) && (step.Request? || step.FireFrom? || step.Release?)
    ensures Inv(Next(s, step))
  {
    hide Outstanding, Standing, ClusterKey;
    var t := Next(s, step);
    assert t.core.interrupts == s.core.interrupts && t.core.sequence == s.core.sequence && t.offers == s.offers;
    assert forall k :: FiledAt(s.core, s.offers, k) ==> FiledAt(t.core, t.offers, k);
    hide FiledAt, CountedAt;
    forall k
      ensures CountedAt(t.core, t.waiters, k)
    {
      match step
      case Request(w, _) => AnnounceCounts(s.core, s.waiters, w, t.waiters[w], k);
      case FireFrom(w, id) => FireCounts(s.core, s.waiters, w, s.waiters[w].fire - {id}, k);
      case Release(w) =>
        if !s.waiters[w].released {
          ReleaseCounts(s.core, s.waiters, w, k);
        }
    }
  }

  lemma OfferStep(s: State, step: Step)
    requires Inv(s) && Enabled(s, step) && (step.Register? || step.FireOwn? || step.Remove?)
    ensures Inv(Next(s, step))
  {
    hide Outstanding, Standing, ClusterKey;
    var t := Next(s, step);
    assert t.core.pending == s.core.pending && t.waiters == s.waiters;
    assert forall k :: CountedAt(s.core, s.waiters, k) ==> CountedAt(t.core, t.waiters, k);
    hide FiledAt, CountedAt;
    forall k
      ensures FiledAt(t.core, t.offers, k)
    {
      match step
      case Register(_) => RegisterFiles(s.core, s.offers, t.offers[s.core.sequence + 1], k);
      case FireOwn(id) => FireFiles(s.core, s.offers, id, k);
      case Remove(id) =>
        if !s.offers[id].removed {
          RemoveFiles(s.core, s.offers, id, k);
        }
    }
  }

  /** What a step does to the one who takes it. */
  ghost predicate Taken(s: State, step: Step, t: State)
    requires Enabled(s, step)
  {
    match step
    case Request(w, name) => w in t.waiters && t.waiters[w].name == name && !t.waiters[w].released
    case FireFrom(w, id) => w in t.waiters && t.waiters[w].fire == s.waiters[w].fire - {id} && id in t.fired
    case Release(w) => w in t.waiters && t.waiters[w].released
    case Register(name) =>
      exists id :: id !in s.offers && id in t.offers && t.offers[id].name == name && !t.offers[id].removed
    case FireOwn(id) => id in t.offers && !t.offers[id].fire && id in t.fired
    case Remove(id) => id in t.offers && t.offers[id].removed
  }

  lemma StepIsTaken(s: State, step: Step)
    requires Inv(s) && Enabled(s, step)
    ensures Taken(s, step, Next(s, step))
  {
    hide ClusterKey, Announced, Unannounced, Removed, Interrupts, Queued, CountedAt, FiledAt;
    if step.Register? {
      var id := s.core.sequence + 1;
      assert id !in s.offers && Next(s, step).offers[id].name == step.name;
    }
  }

  /** Every step keeps the count of queued operations and the file of offers exact. */
  lemma StepKeepsCount(s: State, step: Step)
    requires Inv(s) && Enabled(s, step)
    ensures Inv(Next(s, step)) && Taken(s, step, Next(s, step))
  {
    StepIsTaken(s, step);
    hide Inv, Next, Taken;
    match step
    case Request(_, _) => WaiterStep(s, step);
    case FireFrom(_, _) => WaiterStep(s, step);
    case Release(_) => WaiterStep(s, step);
    case Register(_) => OfferStep(s, step);
    case FireOwn(_) => OfferStep(s, step);
    case Remove(_) => OfferStep(s, step);
  }

  // ----- No wakeup lost, none spurious

  lemma MeetsBy(s: State, id: nat, w: nat)
    requires id in s.offers && !s.offers[id].removed
    requires w in s.waiters && s.waiters[w].key == s.offers[id].key && !s.waiters[w].released
    ensures Meets(s, id)
  {
    assert w in Outstanding(s.waiters, s.offers[id].key);
  }

  lemma RequestReaches(s: State, step: Step, id: nat)
    requires Inv(s) && Enabled(s, step) && step.Request?
    requires Meets(s, id) ==> FiredOrDue(s, id)
    ensures FiredOrDue(Next(s, step), id) <==> FiredOrDue(s, id) || Meets(Next(s, step), id)
  {
    hide ClusterKey;
    var t, w := Next(s, step), step.w;
    var key := t.waiters[w].key;
    assert FiledAt(s.core, s.offers, key);
    if id in t.waiters[w].fire {
      MeetsBy(t, id, w);
    }
    if id in s.offers {
      OutstandingUpdate(s.waiters, w, t.waiters[w], s.offers[id].key);
      if s.offers[id].key == key && !s.offers[id].removed {
        assert id in Standing(s.offers, key);
        assert id in t.waiters[w].fire;
      }
    }
    forall v | v in s.waiters && id in s.waiters[v].fire
      ensures Due(t, id)
    {
      assert t.waiters[v] == s.waiters[v];
    }
  }

  lemma RegisterReaches(s: State, step: Step, id: nat)
    requires Inv(s) && Enabled(s, step) && step.Register?
    requires Meets(s, id) ==> FiredOrDue(s, id)
    ensures FiredOrDue(Next(s, step), id) <==> FiredOrDue(s, id) || Meets(Next(s, step), id)
  {
    hide ClusterKey;
    var key := ClusterKey(step.name);
    assert CountedAt(s.core, s.waiters, key);
  }

  lemma FireReaches(s: State, step: Step, id: nat)
    requires Inv(s) && Enabled(s, step) && (step.FireFrom? || step.FireOwn?)
    requires Meets(s, id) ==> FiredOrDue(s, id)
    ensures FiredOrDue(Next(s, step), id) <==> FiredOrDue(s, id) || Meets(Next(s, step), id)
  {
    var t := Next(s, step);
    if step.FireFrom? {
      var w := step.w;
      forall v | v in s.waiters && id in s.waiters[v].fire
        ensures FiredOrDue(t, id)
      {
        assert v in t.waiters && (id in t.waiters[v].fire || id in t.fired);
      }
      forall k
        ensures Outstanding(t.waiters, k) == Outstanding(s.waiters, k)
      {
        OutstandingUpdate(s.waiters, w, t.waiters[w], k);
      }
    }
  }

  lemma LeaveReaches(s: State, step: Step, id: nat)
    requires Inv(s) && Enabled(s, step) && (step.Release? || step.Remove?)
    requires Meets(s, id) ==> FiredOrDue(s, id)
    ensures FiredOrDue(Next(s, step), id) <==> FiredOrDue(s, id) || Meets(Next(s, step), id)
  {
    var t := Next(s, step);
    if step.Release? && t != s {
      forall v | v in s.waiters && id in s.waiters[v].fire
        ensures Due(t, id)
      {
        assert v in t.waiters && t.waiters[v].fire == s.waiters[v].fire;
      }
      forall k
        ensures Outstanding(t.waiters, k) <= Outstanding(s.waiters, k)
      {
        OutstandingUpdate(s.waiters, step.w, t.waiters[step.w], k);
      }
    }
  }

  /** A step makes an interrupt due exactly when it brings a waiter and an offer together. */
  lemma StepReaches(s: State, step: Step, id: nat)
    requires Inv(s) && Keyed(s) && Enabled(s, step)
    requires Together(s, id) ==> FiredOrDue(s, id)
    ensures Keyed(Next(s, step))
    ensures FiredOrDue(Next(s, step), id) <==> FiredOrDue(s, id) || Together(Next(s, step), id)
  {
    StepKeepsKeys(s, step);
    hide Inv, Next, FiredOrDue, Together, Meets, Keyed;
    TogetherIffMeets(s, id);
    TogetherIffMeets(Next(s, step), id);
    match step
    case Request(_, _) => RequestReaches(s, step, id);
    case FireFrom(_, _) => FireReaches(s, step, id);
    case Release(_) => LeaveReaches(s, step, id);
    case Register(_) => RegisterReaches(s, step, id);
    case FireOwn(_) => FireReaches(s, step, id);
    case Remove(_) => LeaveReaches(s, step, id);
  }

  lemma StepKeepsKeys(s: State, step: Step)
    requires Keyed(s) && Enabled(s, step)
    ensures Keyed(Next(s, step))
  {
    hide ClusterKey, Announced, Unannounced, Registered, Removed, Interrupts, Queued;
  }

  ghost predicate Run(steps: seq<Step>, states: seq<State>)
  {
    && |states| == |steps| + 1
    && states[0] == State(Core(0, map[], map[]), map[], map[], {})
    && forall i :: 0 <= i < |steps| ==> Enabled(states[i], steps[i]) && states[i + 1] == Next(states[i], steps[i])
  }

  /** In some state of the run an operation was queued on the offer's cluster while it stood. */
  ghost predicate Met(states: seq<State>, id: nat)
  {
    exists i :: 0 <= i < |states| && Together(states[i], id)
  }

  /** Over every interleaving: the pending count is exact, and an interrupt has been fired or
      is about to be exactly when its offer once stood together with a queued operation on the
      same cluster. */
  lemma {:induction false} RunReaches(steps: seq<Step>, states: seq<State>, id: nat)
    requires Run(steps, states)
    ensures Inv(states[|steps|]) && Keyed(states[|steps|])
    ensures FiredOrDue(states[|steps|], id) <==> Met(states, id)
    decreases |steps|
  {
    if |steps| == 0 {
      assert forall k :: Outstanding(states[0].waiters, k) == {};
    } else {
      hide Inv, Next, Enabled, FiredOrDue, Together, Keyed, Taken;
      var n := |steps| - 1;
      var before := states[..n + 1];
      RunReaches(steps[..n], before, id);
      assert before[n] == states[n];
      assert Together(states[n], id) ==> Met(before, id);
      StepKeepsCount(states[n], steps[n]);
      StepReaches(states[n], steps[n], id);
      assert Met(before, id) ==> Met(states, id) by {
        if i :| 0 <= i < |before| && Together(before[i], id) {
          assert Together(states[i], id);
        }
      }
      assert Met(states, id) ==> Met(before, id) || Together(states[n + 1], id) by {
        if i :| 0 <= i < |states| && Together(states[i], id) {
          assert i <= n ==> before[i] == states[i];
        }
      }
    }
  }

  /** Once every pending fire is done, an interrupt has fired if and only if it met a waiter. */
  lemma FiredExactlyWhenMet(steps: seq<Step>, states: seq<State>, id: nat)
    requires Run(steps, states) && !Due(states[|steps|], id)
    ensures id in states[|steps|].fired <==> Met(states, id)
  {
    RunReaches(steps, states, id);
  }
}
