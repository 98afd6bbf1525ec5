/** The balloon manager and the provision-start gate over one shared target ledger, call by
    call: internal/daemon/balloon.go and internal/balloon/manager.go. Each controller works
    on a snapshot it read guest by guest, while the other one and the node stops move on. The
    gate keeps the operation lock from its first read to its last request; the manager takes that
    lock only to read. */
module BalloonSystem {
  import opened Totals
  import opened Guests
  import Plan
  import Gate
  import Manager

  /** Configured sizes are fixed; the floor is the same for both controllers. */
  datatype Host = Host(configured: map<string, int>, floor: nat)

  /** Where the gate stands while it holds the operation lock, or that nobody does. */
  datatype GatePhase = Away | Reading | Asking

  datatype State = State(
    last: map<string, int>,          // the manager's record
    ledger: map<string, int>,        // the daemon's record of accepted targets
    managerView: map<string, Vm>,    // the snapshot the manager's tick works on
    gateView: map<string, Vm>,       // the snapshot the gate works on
    gate: GatePhase,
    gateDeficit: int,                // what the gate was asked for
    gateTargets: map<string, int>,   // what the gate planned from its snapshot
    accepted: seq<(string, int)>)    // every target a guest ever accepted

  datatype Step =
    | ManagerBegin
    | ManagerRead(name: string)
    | ManagerAsk(name: string, pending: set<string>, deficit: int, latched: bool, answer: Answer)
    | ManagerProbe(name: string, answer: Answer)
    | ManagerForget(names: set<string>)
    | GateBegin
    | GateRead(name: string)
    | GatePlan(deficit: int)
    | GateAsk(name: string, answer: Answer)
    | GateEnd
    | Stop(names: set<string>)

  ghost predicate Enabled(h: Host, s: State, step: Step)
  {
    match step
    case ManagerRead(n) => n in h.configured && s.gate == Away
    case ManagerAsk(n, pending, _, _, _) => n in s.managerView && n !in pending
    case ManagerProbe(n, _) => n in s.managerView
    case GateBegin => s.gate == Away
    case GateRead(n) => n in h.configured && s.gate == Reading
    case GatePlan(_) => s.gate == Reading
    case GateAsk(n, _) => s.gate == Asking && n in s.gateTargets
    case GateEnd => s.gate != Away
    case Stop(_) => s.gate != Asking
    case _ => true
  }

  /** What a snapshot holds for a guest read at this moment. */
  ghost function ReadNow(h: Host, s: State, n: string): Vm
    requires n in h.configured
  {
    Snapshot(h.configured[n], if n in s.ledger then s.ledger[n] else 0)
  }

  ghost function Asks(h: Host, s: State, step: Step): int
    requires step.ManagerAsk? && Enabled(h, s, step)
  {
    Manager.PlannedKeys(s.managerView, step.pending, s.last, step.latched, step.deficit, h.floor);
    Manager.Planned(s.managerView, step.pending, s.last, step.latched, step.deficit, h.floor)[step.name]
  }

  /** The guest took the target: the ledger says so, and the manager's record too if it asked. */
  ghost function Take(s: State, n: string, target: int, byManager: bool): State
  {
    s.(ledger := s.ledger[n := target],
       last := if byManager then s.last[n := target] else s.last,
       accepted := s.accepted + [(n, target)])
  }

  ghost function Next(h: Host, s: State, step: Step): State
    requires Enabled(h, s, step)
  {
    match step
    case ManagerBegin => s.(managerView := map[])
    case ManagerRead(n) => s.(managerView := s.managerView[n := ReadNow(h, s, n)])
    case ManagerAsk(n, _, _, _, answer) => if answer == Accepted then Take(s, n, Asks(h, s, step), true) else s
    case ManagerProbe(n, answer) => if answer == Accepted then Take(s, n, s.managerView[n].configuredMiB, true) else s
    case ManagerForget(names) => s.(last := s.last - names)
    case GateBegin => s.(gate := Reading, gateView := map[], gateTargets := map[])
    case GateRead(n) => s.(gateView := s.gateView[n := ReadNow(h, s, n)])
    case GatePlan(deficit) =>
      s.(gate := Asking, gateDeficit := deficit, gateTargets := Gate.Asked(s.gateView, deficit, h.floor))
    case GateAsk(n, answer) => if answer == Accepted then Take(s, n, s.gateTargets[n], false) else s
    case GateEnd => s.(gate := Away)
    case Stop(names) => s.(ledger := s.ledger - names)
  }

  ghost predicate Allowed(h: Host, n: string, target: int)
  {
    n in h.configured && Plan.Min(h.floor, h.configured[n]) <= target <= h.configured[n]
  }

  ghost predicate AllAllowed(h: Host, targets: map<string, int>)
  {
    forall n :: n in targets ==> Allowed(h, n, targets[n])
  }

  ghost predicate ViewAllowed(h: Host, view: map<string, Vm>)
  {
    forall n :: n in view ==>
      && n in h.configured && view[n].configuredMiB == h.configured[n]
      && view[n].reported.Some? && Allowed(h, n, view[n].reported.value)
  }

  ghost predicate Inv(h: Host, s: State)
  {
    && AllAllowed(h, s.last) && AllAllowed(h, s.ledger) && AllAllowed(h, s.gateTargets)
    && ViewAllowed(h, s.managerView) && ViewAllowed(h, s.gateView)
    && (s.gate == Asking ==> s.gateTargets == Gate.Asked(s.gateView, s.gateDeficit, h.floor))
    && forall i :: 0 <= i < |s.accepted| ==> Allowed(h, s.accepted[i].0, s.accepted[i].1)
  }

  lemma TakeKeeps(h: Host, s: State, n: string, target: int, byManager: bool)
    requires Inv(h, s) && Allowed(h, n, target)
    ensures Inv(h, Take(s, n, target, byManager))
  {
  }

  lemma AskAllowed(h: Host, s: State, step: Step)
    requires Inv(h, s) && step.ManagerAsk? && Enabled(h, s, step)
    ensures Allowed(h, step.name, Asks(h, s, step))
  {
    assert Manager.Sound(s.managerView, s.last, h.floor);
    hide Manager.Planned;
    Manager.PlannedBounds(s.managerView, step.pending, s.last, step.latched, step.deficit, h.floor, step.name);
  }

  lemma GatePlanAllowed(h: Host, view: map<string, Vm>, deficit: int)
    requires ViewAllowed(h, view)
    ensures AllAllowed(h, Gate.Asked(view, deficit, h.floor))
  {
    hide Plan.Targets, Total;
    Plan.TargetsPromise(Gate.Currents(view), deficit + |view|, h.floor);
  }

  lemma StepKeepsBounds(h: Host, s: State, step: Step)
    requires Inv(h, s) && Enabled(h, s, step)
    ensures Inv(h, Next(h, s, step))
  {
    hide Asks, Gate.Asked, Take;
    match step
    case ManagerAsk(n, _, _, _, _) =>
      AskAllowed(h, s, step);
      TakeKeeps(h, s, n, Asks(h, s, step), true);
    case ManagerProbe(n, _) =>
      TakeKeeps(h, s, n, s.managerView[n].configuredMiB, true);
    case GatePlan(deficit) =>
      GatePlanAllowed(h, s.gateView, deficit);
    case GateAsk(n, _) =>
      TakeKeeps(h, s, n, s.gateTargets[n], false);
    case ManagerBegin =>
    case ManagerRead(_) =>
    case ManagerForget(_) =>
    case GateBegin =>
    case GateRead(_) =>
    case GateEnd =>
    case Stop(_) =>
  }

  ghost function Init(): State
  {
    State(map[], map[], map[], map[], Away, 0, map[], [])
  }

  ghost predicate Run(h: Host, steps: seq<Step>, states: seq<State>)
  {
    && |states| == |steps| + 1 && states[0] == Init()
    && forall i :: 0 <= i < |steps| ==> Enabled(h, states[i], steps[i]) && states[i + 1] == Next(h, states[i], steps[i])
  }

  /** Over every interleaving, with any answers and however stale the snapshots, every target
      ever accepted or recorded lies between the floor and the configured size. */
  lemma {:induction false} RunKeepsBounds(h: Host, steps: seq<Step>, states: seq<State>)
    requires Run(h, steps, states)
    ensures forall i :: 0 <= i < |states| ==> Inv(h, states[i])
    decreases |steps|
  {
    if |steps| > 0 {
      hide Inv, Next, Enabled;
      var n := |steps| - 1;
      RunKeepsBounds(h, steps[..n], states[..n + 1]);
      assert states[..n + 1][n] == states[n];
      StepKeepsBounds(h, states[n], steps[n]);
      forall i | 0 <= i < |states|
        ensures Inv(h, states[i])
      {
        assert i <= n ==> states[..n + 1][i] == states[i];
      }
    }
  }

  // ----- A controller's tick is such a run

  /** The step a call of the manager is. */
  ghost function StepOf(tick: Manager.Tick, c: Manager.Call): Step
  {
    if c.phase == Manager.Probe then ManagerProbe(c.name, c.answer)
    else ManagerAsk(c.name, c.pending, tick.deficit, tick.latched, c.answer)
  }

  /** The state is where the tick has got to after some of its calls. */
  ghost predicate At(h: Host, s: State, tick: Manager.Tick, calls: seq<Manager.Call>, k: nat)
    requires k <= |calls|
  {
    s.managerView == tick.vms && tick.floor == h.floor && s.last == Manager.Ledger(tick.last, calls[..k])
  }

  lemma CallIsStep(h: Host, s: State, tick: Manager.Tick, calls: seq<Manager.Call>, k: nat)
    requires Manager.Disciplined(tick, calls) && k < |calls| && At(h, s, tick, calls, k)
    ensures var step := StepOf(tick, calls[k]);
      && Enabled(h, s, step) && At(h, Next(h, s, step), tick, calls, k + 1)
      && (calls[k].answer == Accepted ==> Next(h, s, step).ledger == s.ledger[calls[k].name := calls[k].target])
  {
    var c := calls[k];
    hide Manager.Disciplined, Manager.Ledger, Manager.CallOk, Manager.Planned, Gate.Asked, ReadNow;
    Manager.Prefix(tick, calls, k);
    LedgerGrows(tick, calls, k);
    CallFits(tick, calls[..k], c, s.last);
  }

  lemma LedgerGrows(tick: Manager.Tick, calls: seq<Manager.Call>, k: nat)
    requires k < |calls|
    ensures Manager.Ledger(tick.last, calls[..k + 1]) ==
      if calls[k].answer == Accepted then Manager.Ledger(tick.last, calls[..k])[calls[k].name := calls[k].target]
      else Manager.Ledger(tick.last, calls[..k])
  {
    assert calls[..k + 1][..k] == calls[..k];
  }

  lemma CallFits(tick: Manager.Tick, before: seq<Manager.Call>, c: Manager.Call, last: map<string, int>)
    requires Manager.CallOk(tick, before, c) && last == Manager.Ledger(tick.last, before)
    ensures c.name in tick.vms && (c.phase == Manager.Probe ==> c.target == tick.vms[c.name].configuredMiB)
    ensures c.phase != Manager.Probe ==>
      && tick.floor >= 0 && c.name !in c.pending
      && var plan := Manager.Planned(tick.vms, c.pending, last, tick.latched, tick.deficit, tick.floor);
         c.name in plan && plan[c.name] == c.target
  {
    hide Manager.Ledger, Manager.Planned, Manager.Pending, Manager.Moved, Manager.InBounds;
    if c.phase != Manager.Probe {
      Manager.PlannedKeys(tick.vms, c.pending, last, tick.latched, tick.deficit, tick.floor);
    }
  }

  predicate ByOthers(step: Step)
  {
    step.GateBegin? || step.GateRead? || step.GatePlan? || step.GateAsk? || step.GateEnd? || step.Stop?
  }

  lemma OthersLeaveTick(h: Host, s: State, step: Step, tick: Manager.Tick, calls: seq<Manager.Call>, k: nat)
    requires k <= |calls| && At(h, s, tick, calls, k) && ByOthers(step) && Enabled(h, s, step)
    ensures At(h, Next(h, s, step), tick, calls, k)
  {
    hide Manager.Ledger, Gate.Asked;
  }

  ghost predicate Path(h: Host, s: State, steps: seq<Step>)
    decreases |steps|
  {
    steps == [] || (Enabled(h, s, steps[0]) && Path(h, Next(h, s, steps[0]), steps[1..]))
  }

  ghost function After(h: Host, s: State, steps: seq<Step>): State
    requires Path(h, s, steps)
    decreases |steps|
  {
    if steps == [] then s else After(h, Next(h, s, steps[0]), steps[1..])
  }

  /** The remaining calls of a tick in their order, with steps of the gate and node stops that are
      possible where they stand in between. That the calls are possible is not assumed. */
  ghost predicate Woven(h: Host, s: State, tick: Manager.Tick, calls: seq<Manager.Call>, k: nat, steps: seq<Step>)
    requires k <= |calls|
    decreases |steps|
  {
    if steps == [] then k == |calls|
    else if ByOthers(steps[0]) then
      Enabled(h, s, steps[0]) && Woven(h, Next(h, s, steps[0]), tick, calls, k, steps[1..])
    else
      && k < |calls| && steps[0] == StepOf(tick, calls[k])
      && (Enabled(h, s, steps[0]) ==> Woven(h, Next(h, s, steps[0]), tick, calls, k + 1, steps[1..]))
  }

  /** However the calls of a disciplined tick fall between the steps of the others, they are steps of
      this system; the record ends up as the tick's, and everything stays within bounds. */
  lemma {:induction false} TickIsPath(h: Host, s: State, tick: Manager.Tick, calls: seq<Manager.Call>, k: nat,
                                      steps: seq<Step>)
    requires Manager.Disciplined(tick, calls) && k <= |calls| && At(h, s, tick, calls, k) && Inv(h, s)
    requires Woven(h, s, tick, calls, k, steps)
    ensures Path(h, s, steps) && Inv(h, After(h, s, steps))
    ensures After(h, s, steps).last == Manager.Ledger(tick.last, calls)
    decreases |steps|
  {
    hide Inv, Next, Enabled, Manager.Disciplined, Manager.Ledger, StepOf;
    if steps == [] {
      assert calls[..k] == calls;
    } else {
      var step := steps[0];
      if ByOthers(step) {
        OthersLeaveTick(h, s, step, tick, calls, k);
        StepKeepsBounds(h, s, step);
        TickIsPath(h, Next(h, s, step), tick, calls, k, steps[1..]);
      } else {
        CallIsStep(h, s, tick, calls, k);
        StepKeepsBounds(h, s, step);
        TickIsPath(h, Next(h, s, step), tick, calls, k + 1, steps[1..]);
      }
    }
  }

  /** A tick of the controller on its snapshot, woven with anything the others do meanwhile, is a
      path of this system, and forgetting the departed guests leaves the controller's record. */
  method TickOfController(ghost h: Host, ghost s: State, c: Manager.Controller, vms: map<string, Vm>,
                          sample: Manager.Sample,
                          reserveMiB: int, floorMiB: int, holdMiB: int, now: int)
    returns (ghost tick: Manager.Tick)
    requires Inv(h, s) && s.managerView == vms && s.last == c.last && floorMiB == h.floor
    modifies c
    ensures Manager.Disciplined(tick, c.calls) && At(h, s, tick, c.calls, 0)
    ensures forall steps :: Woven(h, s, tick, c.calls, 0, steps) ==>
      && Path(h, s, steps) && Inv(h, After(h, s, steps))
      && Next(h, After(h, s, steps), ManagerForget(After(h, s, steps).last.Keys - vms.Keys)).last == c.last
  {
    assert Manager.Sound(vms, c.last, floorMiB);
    hide *;
    ghost var plan, k, rests;
    var broke;
    broke, tick, plan, k, rests := c.Reconcile(vms, sample, reserveMiB, floorMiB, holdMiB, now);
    AtStart(h, s, tick, c.calls);
    TickPaths(h, s, tick, c.calls);
  }

  lemma TickPaths(h: Host, s: State, tick: Manager.Tick, calls: seq<Manager.Call>)
    requires Manager.Disciplined(tick, calls) && At(h, s, tick, calls, 0) && Inv(h, s)
    ensures forall steps :: Woven(h, s, tick, calls, 0, steps) ==>
      && Path(h, s, steps) && Inv(h, After(h, s, steps))
      && var end := After(h, s, steps);
         Next(h, end, ManagerForget(end.last.Keys - tick.vms.Keys)).last ==
           Manager.Restrict(Manager.Ledger(tick.last, calls), tick.vms.Keys)
  {
    hide Inv, Next, Woven, Path, After, At, Manager.Ledger, Manager.Disciplined, Manager.Restrict;
    forall steps | Woven(h, s, tick, calls, 0, steps)
      ensures Path(h, s, steps) && Inv(h, After(h, s, steps))
      ensures var end := After(h, s, steps);
        Next(h, end, ManagerForget(end.last.Keys - tick.vms.Keys)).last ==
          Manager.Restrict(Manager.Ledger(tick.last, calls), tick.vms.Keys)
    {
      TickIsPath(h, s, tick, calls, 0, steps);
      Forgets(h, After(h, s, steps), tick.vms.Keys);
    }
  }

  lemma AtStart(h: Host, s: State, tick: Manager.Tick, calls: seq<Manager.Call>)
    requires s.managerView == tick.vms && tick.floor == h.floor && s.last == tick.last
    ensures At(h, s, tick, calls, 0)
  {
  }

  lemma Forgets(h: Host, s: State, names: set<string>)
    ensures Enabled(h, s, ManagerForget(s.last.Keys - names))
    ensures Next(h, s, ManagerForget(s.last.Keys - names)).last == Manager.Restrict(s.last, names)
  {
  }

  // ----- Taking memory back, and when the gate does not

  /** What a guest holds as far as the daemon knows. */
  ghost function Held(h: Host, s: State, n: string): int
    requires n in h.configured
  {
    if n in s.ledger then s.ledger[n] else h.configured[n]
  }

  /** A plan takes no more from one node than from all of them together. */
  lemma OneOfMany(sizes: map<string, int>, targets: map<string, int>, n: string)
    requires targets.Keys == sizes.Keys && n in sizes && forall m :: m in sizes ==> targets[m] <= sizes[m]
    ensures sizes[n] - targets[n] <= Total(sizes) - Total(targets)
  {
    TotalRemove(sizes, n);
    TotalRemove(targets, n);
    TotalMonotone(targets - {n}, sizes - {n});
  }

  /** The gate asks a guest for no more than it read, and for no less than that without all the
      gate is after. */
  lemma AskedBetween(view: map<string, Vm>, deficit: int, floor: nat, n: string)
    requires n in view
    ensures var asked := Gate.Asked(view, deficit, floor);
      && n in asked && asked[n] <= CurrentTargetMiB(view[n])
      && CurrentTargetMiB(view[n]) - Gate.Positive(deficit + |view|) <= asked[n]
  {
    hide Plan.Targets, Total;
    var currents := Gate.Currents(view);
    Plan.TargetsPromise(currents, deficit + |view|, floor);
    OneOfMany(currents, Gate.Asked(view, deficit, floor), n);
  }

  /** An accepted request of the gate takes memory back whenever the guest holds at least what the
      gate read, and hands memory out whenever it holds less than that by more than the gate is
      after. */
  lemma GateTakesBack(h: Host, s: State, n: string)
    requires Inv(h, s) && Enabled(h, s, GateAsk(n, Accepted))
    ensures n in s.gateView && n in h.configured
    ensures var t, read := Next(h, s, GateAsk(n, Accepted)), CurrentTargetMiB(s.gateView[n]);
      && (Held(h, s, n) >= read ==> Held(h, t, n) <= Held(h, s, n))
      && (Held(h, s, n) < read - Gate.Positive(s.gateDeficit + |s.gateView|) ==> Held(h, t, n) > Held(h, s, n))
  {
    hide *;
    AskMoves(h, s, n);
    AskedBetween(s.gateView, s.gateDeficit, h.floor, n);
  }

  /** An accepted request leaves the guest at the planned target. */
  lemma AskMoves(h: Host, s: State, n: string)
    requires Inv(h, s) && Enabled(h, s, GateAsk(n, Accepted))
    ensures n in s.gateView && n in h.configured && n in Gate.Asked(s.gateView, s.gateDeficit, h.floor)
    ensures Held(h, Next(h, s, GateAsk(n, Accepted)), n) == Gate.Asked(s.gateView, s.gateDeficit, h.floor)[n]
  {
    hide Plan.Targets, Total;
    Plan.TargetsPromise(Gate.Currents(s.gateView), s.gateDeficit + |s.gateView|, h.floor);
    hide Plan.Spare, Plan.AllDrained;
  }

  /** The same for every request in every run. */
  lemma RunTakesBack(h: Host, steps: seq<Step>, states: seq<State>, k: nat, n: string)
    requires Run(h, steps, states) && k < |steps| && steps[k] == GateAsk(n, Accepted)
    ensures n in states[k].gateView && n in h.configured
    ensures var read := CurrentTargetMiB(states[k].gateView[n]);
      && (Held(h, states[k], n) >= read ==> Held(h, states[k + 1], n) <= Held(h, states[k], n))
      && (Held(h, states[k], n) < read - Gate.Positive(states[k].gateDeficit + |states[k].gateView|) ==>
            Held(h, states[k + 1], n) > Held(h, states[k], n))
  {
    RunKeepsBounds(h, steps, states);
    hide Inv, Next;
    GateTakesBack(h, states[k], n);
  }

  /** The step reads the guest for the gate again, starts the gate over, or moves the guest. */
  predicate Touches(step: Step, n: string)
  {
    match step
    case ManagerAsk(m, _, _, _, answer) => m == n && answer == Accepted
    case ManagerProbe(m, answer) => m == n && answer == Accepted
    case GateBegin => true
    case GateRead(m) => m == n
    case GateAsk(m, answer) => m == n && answer == Accepted
    case Stop(names) => n in names
    case _ => false
  }

  lemma UntouchedStep(h: Host, s: State, step: Step, n: string)
    requires Enabled(h, s, step) && !Touches(step, n) && n in h.configured && n in s.gateView
    ensures var t := Next(h, s, step);
      n in t.gateView && t.gateView[n] == s.gateView[n] && Held(h, t, n) == Held(h, s, n)
  {
    hide Asks, Gate.Asked;
  }

  lemma {:induction false} Untouched(h: Host, steps: seq<Step>, states: seq<State>, r: nat, k: nat, n: string)
    requires Run(h, steps, states) && r < k <= |steps| && steps[r] == GateRead(n)
    requires forall j :: r < j < k ==> !Touches(steps[j], n)
    ensures n in h.configured && n in states[k].gateView
    ensures states[k].gateView[n] == ReadNow(h, states[r], n) && Held(h, states[k], n) == Held(h, states[r], n)
    decreases k
  {
    hide Touches;
    if k == r + 1 {
      assert Enabled(h, states[r], steps[r]);
    } else {
      Untouched(h, steps, states, r, k - 1, n);
      hide Next, Enabled;
      UntouchedStep(h, states[k - 1], steps[k - 1], n);
    }
  }

  /** With a floor above zero a snapshot holds what the ledger says. */
  lemma ReadIsHeld(h: Host, s: State, n: string)
    requires Inv(h, s) && h.floor > 0 && n in h.configured
    ensures CurrentTargetMiB(ReadNow(h, s, n)) == Held(h, s, n)
  {
  }

  /** Over every run: a guest that nothing has moved since the gate read it is never handed memory
      by the gate. */
  lemma UnmovedGuestGives(h: Host, steps: seq<Step>, states: seq<State>, r: nat, k: nat, n: string)
    requires Run(h, steps, states) && h.floor > 0 && r < k < |steps|
    requires steps[r] == GateRead(n) && steps[k] == GateAsk(n, Accepted)
    requires forall j :: r < j < k ==> !Touches(steps[j], n)
    ensures n in h.configured && Held(h, states[k + 1], n) <= Held(h, states[k], n) == Held(h, states[r], n)
  {
    Untouched(h, steps, states, r, k, n);
    RunTakesBack(h, steps, states, k, n);
    RunKeepsBounds(h, steps, states);
    hide Inv, Next, Enabled;
    ReadIsHeld(h, states[r], n);
  }

  lemma TotalOne(m: map<string, int>, n: string)
    requires m.Keys == {n}
    ensures Total(m) == m[n]
  {
    TotalRemove(m, n);
    assert m - {n} == map[];
  }

  /** Alone on the host with room to spare, a guest gives exactly what is asked of it. */
  lemma LoneGuest(n: string, size: int, deficit: int, floor: nat)
    requires 0 < deficit && floor < size - deficit
    ensures var t := Plan.Targets(map[n := size], deficit, floor); n in t && t[n] == size - deficit
  {
    var sizes := map[n := size];
    Plan.TargetsPromise(sizes, deficit, floor);
    var t := Plan.Targets(sizes, deficit, floor);
    hide Total, Plan.Targets;
    TotalOne(sizes, n);
    TotalOne(t, n);
    assert t[n] == Plan.Min(size, floor) || |Plan.Spare(t, floor)| <= 1 by {
      Gate.SpareIsFew(sizes, t, floor);
    }
  }

  /** The condition is exact: the gate takes memory back if and only if the guest has not come down
      meanwhile by more than it gives over the rounds of the plan. As long as the request takes nobody
      to the floor, that is its share of what the gate is after. */
  lemma GateTakesBackIff(h: Host, s: State, n: string)
    requires Inv(h, s) && Enabled(h, s, GateAsk(n, Accepted))
    ensures n in s.gateView && n in h.configured && n in Gate.Currents(s.gateView)
    ensures var currents, after := Gate.Currents(s.gateView), s.gateDeficit + |s.gateView|;
      && (Held(h, Next(h, s, GateAsk(n, Accepted)), n) <= Held(h, s, n) <==>
            CurrentTargetMiB(s.gateView[n]) - Held(h, s, n) <= Plan.Given(currents, after, h.floor, n))
      && (after > 0 && Plan.NobodyClamped(currents, after, h.floor) ==>
            Plan.Given(currents, after, h.floor, n) == Plan.FirstShare(currents, after, h.floor, n))
  {
    hide *;
    AskMoves(h, s, n);
    AskedGiven(s.gateView, s.gateDeficit, h.floor, n);
  }

  lemma AskedGiven(view: map<string, Vm>, deficit: int, floor: nat, n: string)
    requires n in view
    ensures n in Gate.Currents(view) && n in Gate.Asked(view, deficit, floor)
    ensures var currents, after := Gate.Currents(view), deficit + |view|;
      && Gate.Asked(view, deficit, floor)[n] == CurrentTargetMiB(view[n]) - Plan.Given(currents, after, floor, n)
      && (after > 0 && Plan.NobodyClamped(currents, after, floor) ==>
            Plan.Given(currents, after, floor, n) == Plan.FirstShare(currents, after, floor, n))
  {
    hide Plan.Targets, Plan.FirstShare, Plan.NobodyClamped, Plan.Given;
    var currents, after := Gate.Currents(view), deficit + |view|;
    Plan.TargetsAreGiven(currents, after, floor, n);
    if after > 0 && Plan.NobodyClamped(currents, after, floor) {
      Plan.UnclampedTargets(currents, after, floor, n);
    }
  }

  // ----- A run in which the manager has overtaken the gate's snapshot

  lemma LoneViews(a: string)
    ensures var view := map[a := Snapshot(4000, 0)];
      && Gate.Currents(view) == map[a := 4000] && |view| == 1 && Manager.ActiveSizes(view, {}) == map[a := 4000]
  {
  }

  lemma LonePlans(a: string)
    ensures var view := map[a := Snapshot(4000, 0)];
      var asked, planned := Gate.Asked(view, 99, 1024), Manager.Planned(view, {}, map[], false, 2000, 1024);
      a in asked && asked[a] == 3900 && a in planned && planned[a] == 2000
  {
    var view := map[a := Snapshot(4000, 0)];
    LoneViews(a);
    LoneGuest(a, 4000, 100, 1024);
    LoneGuest(a, 4000, 2000, 1024);
    hide Plan.Targets;
    assert Manager.Planned(view, {}, map[], false, 2000, 1024)[a] == Plan.Targets(map[a := 4000], 2000, 1024)[a];
  }

  lemma BothRead(a: string) returns (s1: State, s2: State, s3: State)
    ensures var h := Host(map[a := 4000], 1024);
      && Enabled(h, Init(), ManagerRead(a)) && s1 == Next(h, Init(), ManagerRead(a))
      && Enabled(h, s1, GateBegin) && s2 == Next(h, s1, GateBegin)
      && Enabled(h, s2, GateRead(a)) && s3 == Next(h, s2, GateRead(a))
    ensures s3 == State(map[], map[], map[a := Snapshot(4000, 0)], map[a := Snapshot(4000, 0)], Reading, 0, map[], [])
  {
    hide Gate.Asked, Asks;
    var h := Host(map[a := 4000], 1024);
    s1 := Next(h, Init(), ManagerRead(a));
    s2 := Next(h, s1, GateBegin);
    s3 := Next(h, s2, GateRead(a));
  }

  lemma BothAct(a: string, s3: State) returns (s4: State, s5: State, s6: State)
    requires s3 == State(map[], map[], map[a := Snapshot(4000, 0)], map[a := Snapshot(4000, 0)], Reading, 0, map[], [])
    ensures var h := Host(map[a := 4000], 1024);
      var ask := ManagerAsk(a, {}, 2000, false, Accepted);
      && Enabled(h, s3, GatePlan(99)) && s4 == Next(h, s3, GatePlan(99))
      && Enabled(h, s4, ask) && s5 == Next(h, s4, ask)
      && Enabled(h, s5, GateAsk(a, Accepted)) && s6 == Next(h, s5, GateAsk(a, Accepted))
    ensures a in s5.ledger && s5.ledger[a] == 2000 && a in s6.ledger && s6.ledger[a] == 3900
  {
    LonePlans(a);
    hide Gate.Asked, Manager.Planned;
    var h := Host(map[a := 4000], 1024);
    s4 := Next(h, s3, GatePlan(99));
    s5 := Next(h, s4, ManagerAsk(a, {}, 2000, false, Accepted));
    s6 := Next(h, s5, GateAsk(a, Accepted));
  }

  /** A snapshot the manager has overtaken makes the gate hand memory back: the guest it
      read at 4000 MiB is at 2000 MiB by the time it is asked to come down to 3900. */
  lemma StaleGateReleases(a: string) returns (h: Host, steps: seq<Step>, states: seq<State>)
    ensures Run(h, steps, states) && |steps| == 6 && steps[5] == GateAsk(a, Accepted)
    ensures a in states[5].ledger && states[5].ledger[a] == 2000
    ensures a in states[6].ledger && states[6].ledger[a] == 3900
  {
    hide Next, Enabled, Init;
    h := Host(map[a := 4000], 1024);
    var s1, s2, s3 := BothRead(a);
    var s4, s5, s6 := BothAct(a, s3);
    steps := [ManagerRead(a), GateBegin, GateRead(a), GatePlan(99), ManagerAsk(a, {}, 2000, false, Accepted),
      GateAsk(a, Accepted)];
    states := [Init(), s1, s2, s3, s4, s5, s6];
  }
}
