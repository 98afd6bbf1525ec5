/** The provision-start gate's pre-balloon: internal/daemon/balloon.go, balloonReclaim and apply. */
module Gate {
  import opened Options
  import opened Totals
  import opened Guests
  import Plan

  datatype Outcome =
    | Done
    | Waiting(names: set<string>, pendingMiB: int)
    | Failed(name: string)

  function Positive(x: int): int { if x > 0 then x else 0 }

  ghost function Currents(vms: map<string, Vm>): map<string, int>
  {
    map n | n in vms :: CurrentTargetMiB(vms[n])
  }

  ghost function Configured(vms: map<string, Vm>): map<string, int>
  {
    map n | n in vms :: vms[n].configuredMiB
  }

  /** What each guest could still give up before it reaches the floor. */
  ghost function Headroom(sizes: map<string, int>, floor: int): map<string, int>
  {
    map n | n in sizes :: Positive(sizes[n] - floor)
  }

  /** The targets the gate asks for: one MiB per guest more than the deficit, anchored
      on what the guests hold now. */
  ghost function Asked(vms: map<string, Vm>, deficit: int, floor: int): map<string, int>
    requires floor >= 0
  {
    Plan.Targets(Currents(vms), deficit + |vms|, floor)
  }

  /** What the given guests are now out of, measured from their configured sizes. */
  ghost function OutOf(vms: map<string, Vm>, targets: map<string, int>, names: set<string>): map<string, int>
    requires names <= vms.Keys && vms.Keys <= targets.Keys
  {
    map n | n in names :: Positive(vms[n].configuredMiB - targets[n])
  }

  ghost function Untaken(vms: map<string, Vm>, targets: map<string, int>, names: set<string>): map<string, int>
    requires names <= vms.Keys && vms.Keys <= targets.Keys
  {
    map n | n in names :: CurrentTargetMiB(vms[n]) - targets[n]
  }

  ghost function Published(ledger: map<string, int>, targets: map<string, int>, names: set<string>): map<string, int>
    requires names <= targets.Keys
  {
    ledger + map n | n in names :: targets[n]
  }

  lemma SplitHeadroom(vms: map<string, Vm>, floor: int, n: string)
    requires n in vms
    ensures Total(Headroom(Currents(vms), floor))
         == Positive(CurrentTargetMiB(vms[n]) - floor) + Total(Headroom(Currents(vms - {n}), floor))
  {
    TotalRemove(Headroom(Currents(vms), floor), n);
    assert Headroom(Currents(vms), floor) - {n} == Headroom(Currents(vms - {n}), floor);
  }

  method Measure(vms: map<string, Vm>, floorMiB: int) returns (availableMiB: int)
    ensures availableMiB == Total(Headroom(Currents(vms), floorMiB))
  {
    availableMiB := 0;
    var todo := vms;
    while todo != map[]
      invariant availableMiB + Total(Headroom(Currents(todo), floorMiB)) == Total(Headroom(Currents(vms), floorMiB))
      decreases |todo|
    {
      var n :| n in todo;
      SplitHeadroom(todo, floorMiB, n);
      var above := CurrentTargetMiB(todo[n]) - floorMiB;
      if above > 0 {
        availableMiB := availableMiB + above;
      }
      todo := todo - {n};
    }
    assert Headroom(Currents(todo), floorMiB) == map[];
  }

  lemma CurrentsGrow(vms: map<string, Vm>, todo: map<string, Vm>, n: string)
    requires todo.Keys <= vms.Keys && n in todo && todo[n] == vms[n]
    ensures Currents(vms - (todo - {n}).Keys) == Currents(vms - todo.Keys)[n := CurrentTargetMiB(vms[n])]
  {
  }

  method NodesOf(vms: map<string, Vm>) returns (nodes: seq<Plan.Node>)
    ensures Plan.DistinctNames(nodes)
    ensures Plan.Sizes(nodes) == Currents(vms)
    ensures |nodes| == |vms|
  {
    nodes := [];
    var todo := vms;
    while todo != map[]
      invariant todo.Keys <= vms.Keys && forall n :: n in todo ==> todo[n] == vms[n]
      invariant forall i :: 0 <= i < |nodes| ==> nodes[i].name !in todo
      invariant Plan.DistinctNames(nodes)
      invariant Plan.Sizes(nodes) == Currents(vms - todo.Keys)
      invariant |nodes| + |todo| == |vms|
      decreases |todo|
    {
      var n :| n in todo;
      hide Plan.Sizes, Plan.DistinctNames, Currents;
      var node := Plan.Node(n, CurrentTargetMiB(todo[n]));
      Plan.OneMoreNode(nodes, node);
      CurrentsGrow(vms, todo, n);
      OneFewer(todo, n);
      nodes := nodes + [node];
      todo := todo - {n};
    }
    assert vms - todo.Keys == vms;
  }

  lemma AddOut(vms: map<string, Vm>, targets: map<string, int>, names: set<string>, name: string)
    requires names <= vms.Keys && vms.Keys <= targets.Keys && name in vms && name !in names
    ensures Total(OutOf(vms, targets, names + {name}))
         == Total(OutOf(vms, targets, names)) + Positive(vms[name].configuredMiB - targets[name])
  {
    var out := OutOf(vms, targets, names);
    TotalInsert(out, name, Positive(vms[name].configuredMiB - targets[name]));
    assert OutOf(vms, targets, names + {name}) == out[name := Positive(vms[name].configuredMiB - targets[name])];
  }

  lemma AddUntaken(vms: map<string, Vm>, targets: map<string, int>, names: set<string>, name: string)
    requires names <= vms.Keys && vms.Keys <= targets.Keys && name in vms && name !in names
    ensures Total(Untaken(vms, targets, names + {name}))
         == Total(Untaken(vms, targets, names)) + CurrentTargetMiB(vms[name]) - targets[name]
  {
    var untaken := Untaken(vms, targets, names);
    TotalInsert(untaken, name, CurrentTargetMiB(vms[name]) - targets[name]);
    assert Untaken(vms, targets, names + {name}) == untaken[name := CurrentTargetMiB(vms[name]) - targets[name]];
  }

  lemma AddPublished(ledger: map<string, int>, targets: map<string, int>, names: set<string>, name: string)
    requires names <= targets.Keys && name in targets
    ensures Published(ledger, targets, names + {name}) == Published(ledger, targets, names)[name := targets[name]]
  {
  }

  /** The ledger holds the target of every guest that accepted and is otherwise as it was. */
  lemma PublishedMeans(ledger: map<string, int>, targets: map<string, int>, names: set<string>)
    requires names <= targets.Keys
    ensures Published(ledger, targets, names).Keys == ledger.Keys + names
    ensures forall n :: n in ledger || n in names ==>
      Published(ledger, targets, names)[n] == if n in names then targets[n] else ledger[n]
  {
  }

  lemma NothingYet(vms: map<string, Vm>, targets: map<string, int>, ledger: map<string, int>)
    requires vms.Keys <= targets.Keys
    ensures Total(OutOf(vms, targets, {})) == 0 && Total(Untaken(vms, targets, {})) == 0
    ensures Published(ledger, targets, {}) == ledger
  {
    assert OutOf(vms, targets, {}) == map[] && Untaken(vms, targets, {}) == map[];
  }

  /** Asks every guest in turn; a guest that fails outright ends the loop. Every target
      a guest accepts is published in the daemon's ledger, nothing else is. What a guest would
      answer is up to the guest. */
  method AskAll(vms: map<string, Vm>, targets: map<string, int>, ledger: map<string, int>,
                answers: map<string, Answer>)
    returns (heldMiB: int, outcome: Outcome, accepted: set<string>, recorded: map<string, int>)
    requires targets.Keys == vms.Keys == answers.Keys
    ensures outcome == Done <==> forall n :: n in vms ==> answers[n] == Accepted
    ensures outcome.Failed? <==> exists n :: n in vms && answers[n] == Refused
    ensures forall n :: n in accepted ==> n in vms && answers[n] == Accepted
    ensures !outcome.Failed? ==> forall n :: n in vms && answers[n] == Accepted ==> n in accepted
    ensures accepted <= vms.Keys
    ensures heldMiB == Total(OutOf(vms, targets, accepted))
    ensures recorded == Published(ledger, targets, accepted)
    ensures outcome == Done <==> accepted == vms.Keys
    ensures outcome.Waiting? ==>
      && outcome.names != {} && outcome.names == vms.Keys - accepted
      && outcome.pendingMiB == Total(Untaken(vms, targets, outcome.names))
    ensures outcome.Failed? ==> outcome.name in vms && answers[outcome.name] == Refused
  {
    heldMiB, accepted, recorded := 0, {}, ledger;
    var pending: set<string>, pendingMiB := {}, 0;
    var names := vms.Keys;
    NothingYet(vms, targets, ledger);
    while names != {}
      invariant names <= vms.Keys && accepted <= vms.Keys && pending <= vms.Keys
      invariant names !! accepted !! pending && names + accepted + pending == vms.Keys
      invariant heldMiB == Total(OutOf(vms, targets, accepted))
      invariant pendingMiB == Total(Untaken(vms, targets, pending))
      invariant recorded == Published(ledger, targets, accepted)
      invariant forall n :: n in accepted ==> answers[n] == Accepted
      invariant forall n :: n in pending ==> answers[n] == Quiesced || answers[n] == DevicePending
    {
      var name :| name in names;
      names := names - {name};
      match answers[name] {
        case Refused =>
          outcome := Failed(name);
          return;
        case Quiesced | DevicePending =>
          AddUntaken(vms, targets, pending, name);
          pending := pending + {name};
          pendingMiB := pendingMiB + (CurrentTargetMiB(vms[name]) - targets[name]);
        case Accepted =>
          AddOut(vms, targets, accepted, name);
          AddPublished(ledger, targets, accepted, name);
          accepted := accepted + {name};
          recorded := recorded[name := targets[name]];
          var out := vms[name].configuredMiB - targets[name];
          if out > 0 {
            heldMiB := heldMiB + out;
          }
      }
    }
    if pending == {} {
      outcome := Done;
    } else {
      assert pending == vms.Keys - accepted;
      outcome := Waiting(pending, pendingMiB);
    }
  }

  lemma AskedIs(vms: map<string, Vm>, deficit: int, floor: int)
    requires floor >= 0
    ensures Asked(vms, deficit, floor) == Plan.Targets(Currents(vms), deficit + |vms|, floor)
    ensures Asked(vms, deficit, floor).Keys == vms.Keys
  {
    hide Plan.Targets, Total;
    Plan.TargetsPromise(Currents(vms), deficit + |vms|, floor);
  }

  method Apply(vms: map<string, Vm>, deficitMiB: int, floorMiB: int, ledger: map<string, int>,
               answers: map<string, Answer>)
    returns (heldMiB: int, outcome: Outcome, targets: map<string, int>, accepted: set<string>,
             recorded: map<string, int>)
    requires floorMiB >= 0 && answers.Keys == vms.Keys
    ensures targets == Asked(vms, deficitMiB, floorMiB) && targets.Keys == vms.Keys
    ensures outcome == Done <==> forall n :: n in vms ==> answers[n] == Accepted
    ensures outcome.Failed? <==> exists n :: n in vms && answers[n] == Refused
    ensures forall n :: n in accepted ==> n in vms && answers[n] == Accepted
    ensures !outcome.Failed? ==> forall n :: n in vms && answers[n] == Accepted ==> n in accepted
    ensures accepted <= vms.Keys
    ensures heldMiB == Total(OutOf(vms, targets, accepted))
    ensures recorded == Published(ledger, targets, accepted)
    ensures recorded.Keys == ledger.Keys + accepted
    ensures forall n :: n in recorded ==> recorded[n] == if n in accepted then targets[n] else ledger[n]
    ensures outcome == Done <==> accepted == vms.Keys
    ensures outcome.Waiting? ==>
      && outcome.names != {} && outcome.names == vms.Keys - accepted
      && outcome.pendingMiB == Total(Untaken(vms, targets, outcome.names))
    ensures outcome.Failed? ==> outcome.name in vms && answers[outcome.name] == Refused
  {
    hide *;
    var nodes := NodesOf(vms);
    targets := Plan.PlanTargets(nodes, deficitMiB + |nodes|, floorMiB);
    AskedIs(vms, deficitMiB, floorMiB);
    heldMiB, outcome, accepted, recorded := AskAll(vms, targets, ledger, answers);
    PublishedMeans(ledger, targets, accepted);
  }

  // ----- What an accepted pre-balloon frees, and what a hold keeps

  ghost function Minus(a: map<string, int>, b: map<string, int>): map<string, int>
    requires a.Keys == b.Keys
  {
    map n | n in a :: a[n] - b[n]
  }

  lemma MinusRemove(a: map<string, int>, b: map<string, int>, k: string)
    requires a.Keys == b.Keys && k in a
    ensures Minus(a, b) - {k} == Minus(a - {k}, b - {k})
    ensures |a - {k}| < |a|
  {
  }

  lemma {:induction false} TotalMinus(a: map<string, int>, b: map<string, int>)
    requires a.Keys == b.Keys
    ensures Total(Minus(a, b)) == Total(a) - Total(b)
    decreases |a|
  {
    if a == map[] {
      assert b == map[] && Minus(a, b) == map[];
    } else {
      var k :| k in a;
      MinusRemove(a, b, k);
      TotalRemove(a, k);
      TotalRemove(b, k);
      TotalRemove(Minus(a, b), k);
      TotalMinus(a - {k}, b - {k});
    }
  }

  lemma UntakenIsMinus(vms: map<string, Vm>, targets: map<string, int>)
    requires targets.Keys == vms.Keys
    ensures Untaken(vms, targets, vms.Keys) == Minus(Currents(vms), targets)
  {
  }

  /** What was taken and what is still pending make up all that was asked for. */
  lemma {:induction false} PendingPlusTaken(vms: map<string, Vm>, targets: map<string, int>, accepted: set<string>,
                                            pending: set<string>)
    requires targets.Keys == vms.Keys && accepted !! pending && accepted + pending == vms.Keys
    ensures Total(Untaken(vms, targets, accepted)) + Total(Untaken(vms, targets, pending)) ==
      Total(Currents(vms)) - Total(targets)
    decreases pending
  {
    hide Total;
    if pending == {} {
      assert accepted == vms.Keys;
      UntakenIsMinus(vms, targets);
      TotalMinus(Currents(vms), targets);
      NothingYet(vms, targets, map[]);
    } else {
      var n :| n in pending;
      assert accepted + {n} + (pending - {n}) == vms.Keys;
      PendingPlusTaken(vms, targets, accepted + {n}, pending - {n});
      AddUntaken(vms, targets, accepted, n);
      AddUntaken(vms, targets, pending - {n}, n);
      assert pending - {n} + {n} == pending;
    }
  }

  lemma DrainedHeadroom(sizes: map<string, int>, targets: map<string, int>, floor: int)
    requires targets.Keys == sizes.Keys && Plan.AllDrained(sizes, targets, floor)
    ensures Headroom(sizes, floor) == Minus(sizes, targets)
  {
  }

  /** Draining every guest to its floor frees exactly the measured headroom. */
  lemma DrainedFreesHeadroom(sizes: map<string, int>, targets: map<string, int>, floor: int)
    requires targets.Keys == sizes.Keys && Plan.AllDrained(sizes, targets, floor)
    ensures Total(sizes) - Total(targets) == Total(Headroom(sizes, floor))
  {
    TotalMinus(sizes, targets);
    DrainedHeadroom(sizes, targets, floor);
  }

  lemma SpareIsFew(sizes: map<string, int>, targets: map<string, int>, floor: int)
    requires targets.Keys == sizes.Keys
    ensures |Plan.Spare(targets, floor)| <= |sizes|
  {
    SubsetSize(Plan.Spare(targets, floor).Keys, sizes.Keys);
    assert |Plan.Spare(targets, floor)| == |Plan.Spare(targets, floor).Keys| && |sizes| == |sizes.Keys|;
  }

  /** Asking for one extra MiB per guest always absorbs what the allocator rounds away:
      whenever the measured headroom covers the deficit and every guest accepts, the
      pre-balloon frees the deficit in full and at most one MiB per guest more, and no
      guest is handed memory. */
  lemma GateFreesDeficit(vms: map<string, Vm>, deficit: int, floor: int)
    requires floor >= 0 && deficit >= 0
    requires deficit <= Total(Headroom(Currents(vms), floor))
    ensures var targets := Asked(vms, deficit, floor);
      && targets.Keys == vms.Keys
      && deficit <= Total(Currents(vms)) - Total(targets) <= deficit + |vms|
      && forall n :: n in vms ==> targets[n] <= CurrentTargetMiB(vms[n])
  {
    hide Total, Plan.Targets;
    var cur := Currents(vms);
    var targets := Asked(vms, deficit, floor);
    Plan.TargetsPromise(cur, deficit + |vms|, floor);
    assert |cur| == |vms| by { assert cur.Keys == vms.Keys; assert |cur| == |cur.Keys| && |vms| == |vms.Keys|; }
    SpareIsFew(cur, targets, floor);
    if deficit + |vms| <= 0 {
      assert deficit == 0;
    } else if Plan.AllDrained(cur, targets, floor) {
      DrainedFreesHeadroom(cur, targets, floor);
    }
  }

  lemma AllOut(vms: map<string, Vm>, targets: map<string, int>)
    requires targets.Keys == vms.Keys
    requires forall n :: n in vms ==> targets[n] <= vms[n].configuredMiB
    ensures OutOf(vms, targets, vms.Keys) == Minus(Configured(vms), targets)
  {
  }

  /** When no guest starts above its configured size, what the gate holds is exactly the
      memory now out of the guests, counted from their configured sizes. */
  lemma HeldIsTotalOut(vms: map<string, Vm>, deficit: int, floor: int)
    requires floor >= 0
    requires forall n :: n in vms ==> CurrentTargetMiB(vms[n]) <= vms[n].configuredMiB
    ensures var targets := Asked(vms, deficit, floor);
      && targets.Keys == vms.Keys
      && Total(OutOf(vms, targets, vms.Keys)) == Total(Configured(vms)) - Total(targets)
      && (forall n :: n in vms ==> Plan.Min(CurrentTargetMiB(vms[n]), floor) <= targets[n])
  {
    hide Total, Plan.Targets;
    var targets := Asked(vms, deficit, floor);
    Plan.TargetsPromise(Currents(vms), deficit + |vms|, floor);
    TotalMinus(Configured(vms), targets);
    AllOut(vms, targets);
  }

  /** The hold is a floor under the reconcile's deficit: any later plan over the same
      guests, anchored on configured sizes and asked for at least what is held, gives
      back less than one MiB per guest of it. */
  lemma HoldKeepsReclaim(vms: map<string, Vm>, targets: map<string, int>, held: int, deficit: int, floor: int)
    requires floor >= 0 && vms != map[] && targets.Keys == vms.Keys
    requires forall n :: n in vms ==> Plan.Min(vms[n].configuredMiB, floor) <= targets[n]
    requires held == Total(Configured(vms)) - Total(targets) && held > 0 && deficit >= held
    ensures var next := Plan.Targets(Configured(vms), deficit, floor);
      && next.Keys == vms.Keys
      && Total(next) - Total(targets) < |vms|
  {
    var conf := Configured(vms);
    var next := Plan.Targets(conf, deficit, floor);
    Plan.TargetsPromise(conf, deficit, floor);
    assert |conf| == |vms| by { assert conf.Keys == vms.Keys; assert |conf| == |conf.Keys| && |vms| == |vms.Keys|; }
    SpareIsFew(conf, next, floor);
    if Plan.AllDrained(conf, next, floor) {
      TotalMonotone(next, targets);
    }
  }

  lemma TotalTwo(m: map<string, int>, a: string, b: string)
    requires a != b && m.Keys == {a, b}
    ensures Total(m) == m[a] + m[b]
  {
    TotalRemove(m, a);
    TotalRemove(m - {a}, b);
    assert m - {a} - {b} == map[];
  }

  /** One gate admission followed by one reconcile under its hold hands the guest back
      more than the given amount. */
  ghost predicate HandedBack(vms: map<string, Vm>, deficit: int, floor: int, name: string, amount: int)
    requires floor >= 0
  {
    var targets := Asked(vms, deficit, floor);
    var next := Plan.Targets(Configured(vms), Total(Configured(vms)) - Total(targets), floor);
    name in targets && name in next && targets[name] + amount < next[name]
  }

  ghost function TwoGuests(shrunk: string, full: string): map<string, Vm>
  {
    map[shrunk := Vm(4000, Some(2000)), full := Vm(4000, Some(4000))]
  }

  lemma TwoGuestSums(a: string, b: string)
    requires a != b
    ensures var vms := TwoGuests(a, b);
      && |vms| == 2
      && Total(Currents(vms)) == 6000 && Total(Configured(vms)) == 8000 && Total(Headroom(Currents(vms), 1024)) == 3952
  {
    hide Total;
    var vms := TwoGuests(a, b);
    assert vms.Keys == {a, b};
    assert Currents(vms).Keys == Configured(vms).Keys == Headroom(Currents(vms), 1024).Keys == {a, b};
    TotalTwo(Currents(vms), a, b);
    TotalTwo(Configured(vms), a, b);
    TotalTwo(Headroom(Currents(vms), 1024), a, b);
  }

  /** The hold keeps the total, not each guest's share of it: two equal guests, one
      already shrunk, are levelled by the first reconcile under the hold, and the shrunk
      one is handed more than 600 MiB back. */
  lemma HoldLevelsGuests(a: string, b: string)
    requires a != b
    ensures HandedBack(TwoGuests(a, b), 600, 1024, a, 600)
  {
    hide *;
    var vms := TwoGuests(a, b);
    var conf := Configured(vms);
    var held := Total(conf) - Total(Asked(vms, 600, 1024));
    TwoGuestSums(a, b);
    TwoGuestSizes(a, b);
    GateFreesDeficit(vms, 600, 1024);
    Plan.TargetsPromise(conf, held, 1024);
    Plan.EqualSizesEqualTargets(conf, held, 1024, a, b);
    TotalTwo(Plan.Targets(conf, held, 1024), a, b);
    IsHandedBack(vms, 600, 1024, a, 600);
  }

  lemma TwoGuestSizes(a: string, b: string)
    requires a != b
    ensures var vms := TwoGuests(a, b);
      && vms.Keys == Configured(vms).Keys == {a, b} && Configured(vms)[a] == Configured(vms)[b] == 4000
      && CurrentTargetMiB(vms[a]) == 2000
  {
  }

  lemma IsHandedBack(vms: map<string, Vm>, deficit: int, floor: int, n: string, amount: int)
    requires floor >= 0 && n in Asked(vms, deficit, floor)
    requires var u := Plan.Targets(Configured(vms), Total(Configured(vms)) - Total(Asked(vms, deficit, floor)), floor);
      n in u && u[n] - Asked(vms, deficit, floor)[n] > amount
    ensures HandedBack(vms, deficit, floor, n, amount)
  {
    hide Plan.Targets, Total;
  }

  // ----- What the inventory says could be given back

  /** A node as the cluster inventory lists it. */
  datatype Listed = Listed(name: string, configuredMiB: int, running: bool)

  function CeilingOf(inventory: seq<Listed>, floor: int): (total: int)
    ensures total >= 0
  {
    if inventory == [] then 0
    else
      var last := inventory[|inventory| - 1];
      CeilingOf(inventory[..|inventory| - 1], floor) + if last.running then Positive(last.configuredMiB - floor) else 0
  }

  /** Every node counts on its own: by its configured size above the floor when it is running, not at
      all when it is stopped or not above the floor. */
  lemma {:induction false} CeilingCounts(before: seq<Listed>, node: Listed, after: seq<Listed>, floor: int)
    ensures CeilingOf([], floor) == 0
    ensures CeilingOf(before + [node] + after, floor) == CeilingOf(before + after, floor) +
      if node.running && node.configuredMiB > floor then node.configuredMiB - floor else 0
    decreases |after|
  {
    var all, rest := before + [node] + after, before + after;
    if after == [] {
      assert all[..|all| - 1] == before == rest;
    } else {
      var n := |after| - 1;
      CeilingCounts(before, node, after[..n], floor);
      assert all[..|all| - 1] == before + [node] + after[..n];
      assert rest[..|rest| - 1] == before + after[..n];
    }
  }

  /** An inventory that cannot be read counts for nothing. */
  method ReclaimCeiling(inventory: Option<seq<Listed>>, floorMiB: int) returns (total: int)
    ensures total == if inventory.Some? then CeilingOf(inventory.value, floorMiB) else 0
  {
    total := 0;
    if inventory.None? {
      return;
    }
    var nodes := inventory.value;
    for i := 0 to |nodes|
      invariant total == CeilingOf(nodes[..i], floorMiB)
    {
      assert nodes[..i + 1][..i] == nodes[..i];
      if !nodes[i].running {
        continue;
      }
      var above := nodes[i].configuredMiB - floorMiB;
      if above > 0 {
        total := total + above;
      }
    }
    assert nodes[..|nodes|] == nodes;
  }

  /** Each guest is a running node of the inventory and holds no more than its size there. */
  ghost predicate Covered(vms: map<string, Vm>, inventory: seq<Listed>)
  {
    forall n :: n in vms ==> exists i :: 0 <= i < |inventory| && inventory[i].running && inventory[i].name == n
                                         && CurrentTargetMiB(vms[n]) <= inventory[i].configuredMiB
  }

  lemma CoveredPrefix(vms: map<string, Vm>, inventory: seq<Listed>)
    requires Covered(vms, inventory) && inventory != []
    ensures var last := inventory[|inventory| - 1]; Covered(vms - {last.name}, inventory[..|inventory| - 1])
    ensures var last := inventory[|inventory| - 1];
      || Covered(vms, inventory[..|inventory| - 1])
      || (last.running && last.name in vms && CurrentTargetMiB(vms[last.name]) <= last.configuredMiB)
  {
    var k := |inventory| - 1;
    forall n | n in vms && n != inventory[k].name
      ensures exists i :: 0 <= i < k && inventory[..k][i].running && inventory[..k][i].name == n
                          && CurrentTargetMiB(vms[n]) <= inventory[..k][i].configuredMiB
    {
      var i :| 0 <= i < |inventory| && inventory[i].running && inventory[i].name == n
        && CurrentTargetMiB(vms[n]) <= inventory[i].configuredMiB;
      assert inventory[..k][i] == inventory[i];
    }
    if inventory[k].name in vms {
      var n := inventory[k].name;
      var i :| 0 <= i < |inventory| && inventory[i].running && inventory[i].name == n
        && CurrentTargetMiB(vms[n]) <= inventory[i].configuredMiB;
      if i < k {
        assert inventory[..k][i] == inventory[i];
      }
    }
  }

  /** The inventory's ceiling is never below what the guests are measured to have. */
  lemma {:induction false} CeilingCoversHeadroom(vms: map<string, Vm>, inventory: seq<Listed>, floor: int)
    requires Covered(vms, inventory)
    ensures Total(Headroom(Currents(vms), floor)) <= CeilingOf(inventory, floor)
    decreases |inventory|
  {
    hide Total, Headroom, Currents;
    if inventory == [] {
      NoGuests(vms, floor);
    } else {
      CoveredPrefix(vms, inventory);
      var rest, last := inventory[..|inventory| - 1], inventory[|inventory| - 1];
      hide Covered;
      if Covered(vms, rest) {
        CeilingCoversHeadroom(vms, rest, floor);
      } else {
        CeilingCoversHeadroom(vms - {last.name}, rest, floor);
        SplitHeadroom(vms, floor, last.name);
      }
    }
  }

  lemma NoGuests(vms: map<string, Vm>, floor: int)
    ensures vms == map[] ==> Total(Headroom(Currents(vms), floor)) == 0
  {
    if vms == map[] {
      assert Headroom(Currents(vms), floor) == map[];
    }
  }

  /** What the gate may count on. Ballooning that is off counts for nothing, and an empty ceiling
      saves the measurement without changing its outcome. */
  method BalloonReclaim(disabled: bool, inventory: Option<seq<Listed>>, running: map<string, Vm>, floorMiB: int)
    returns (vms: map<string, Vm>, availableMiB: int)
    ensures disabled || inventory.None? || CeilingOf(inventory.value, floorMiB) == 0 ==>
      vms == map[] && availableMiB == 0
    ensures !disabled && inventory.Some? && CeilingOf(inventory.value, floorMiB) > 0 ==> vms == running
    ensures availableMiB == Total(Headroom(Currents(vms), floorMiB))
    ensures !disabled && inventory.Some? && Covered(running, inventory.value) ==>
      availableMiB == Total(Headroom(Currents(running), floorMiB))
  {
    hide Covered, CeilingOf, Total, Headroom, Currents;
    var ceiling := ReclaimCeiling(inventory, floorMiB);
    NoGuests(map[], floorMiB);
    HeadroomNotNegative(running, floorMiB);
    if inventory.Some? && Covered(running, inventory.value) {
      CeilingCoversHeadroom(running, inventory.value, floorMiB);
    }
    if disabled || ceiling <= 0 {
      return map[], 0;
    }
    vms := running;
    availableMiB := Measure(vms, floorMiB);
  }

  lemma HeadroomNotNegative(vms: map<string, Vm>, floor: int)
    ensures Total(Headroom(Currents(vms), floor)) >= 0
  {
    TotalNonNegative(Headroom(Currents(vms), floor));
  }

  // ----- When a hold does keep each guest where it was put

  ghost predicate Within(sizes: map<string, int>, targets: map<string, int>, floor: int)
  {
    targets.Keys == sizes.Keys && forall n :: n in sizes ==> Plan.Min(sizes[n], floor) <= targets[n] <= sizes[n]
  }

  /** What the guests are out of is in proportion to their sizes, up to a slack of so many MiB:
      against a guest left clearly above the floor, none has given more than its proportion. */
  ghost predicate InProportion(sizes: map<string, int>, targets: map<string, int>, floor: int, slack: int)
    requires targets.Keys == sizes.Keys
  {
    forall a, b :: a in sizes && b in sizes && sizes[a] > floor && targets[b] > floor + slack ==>
      (sizes[a] - targets[a]) * sizes[b] <= (sizes[b] - targets[b]) * sizes[a] + slack * (sizes[a] + sizes[b])
  }

  lemma ProportionBound(outA: int, outB: int, a: int, b: int, k: int)
    requires outA * b <= (outB + k) * a && a > 0 && b > 0 && k >= 0
    ensures outA * b <= outB * a + k * (a + b)
  {
    assert (outB + k) * a == outB * a + k * a;
    assert k * (a + b) == k * a + k * b;
    assert k * b >= 0;
  }

  /** Every plan from the configured sizes is in proportion, up to rounding. */
  lemma PlansAreInProportion(sizes: map<string, int>, deficit: int, floor: int)
    requires floor >= 0
    ensures var t := Plan.Targets(sizes, deficit, floor);
      Within(sizes, t, floor) && InProportion(sizes, t, floor, |sizes|)
  {
    hide Plan.Targets, Total;
    Plan.TargetsPromise(sizes, deficit, floor);
    var t := Plan.Targets(sizes, deficit, floor);
    AboveIsFew(sizes, floor);
    var k := |sizes|;
    forall a, b | a in sizes && b in sizes && sizes[a] > floor && t[b] > floor + k
      ensures (sizes[a] - t[a]) * sizes[b] <= (sizes[b] - t[b]) * sizes[a] + k * (sizes[a] + sizes[b])
    {
      Plan.Proportional(sizes, deficit, floor, a, b);
      Plan.Scale(sizes[b] - t[b] + |Plan.AboveFloor(sizes, floor)|, sizes[b] - t[b] + k, sizes[a]);
      ProportionBound(sizes[a] - t[a], sizes[b] - t[b], sizes[a], sizes[b], k);
    }
  }

  lemma AboveIsFew(sizes: map<string, int>, floor: int)
    ensures |Plan.AboveFloor(sizes, floor)| <= |sizes|
  {
    var above := Plan.AboveFloor(sizes, floor);
    SubsetSize(above.Keys, sizes.Keys);
    assert |above| == |above.Keys| && |sizes| == |sizes.Keys|;
  }

  /** The arithmetic of two guests: n has been handed back at least k + s, a has been taken more. */
  lemma TradeOff(a: int, n: int, ta: int, tn: int, ua: int, un: int, k: int, s: int)
    requires a > 0 && n > 0 && un - tn >= k + s
    requires (a - ua) * n <= (n - un + k) * a
    requires (n - tn) * a <= (a - ta) * n + s * (n + a)
    ensures ta - ua <= s
  {
    Plan.Scale(n - un + k, n - tn - s, a);
    assert (n - tn - s) * a == (n - tn) * a - s * a;
    assert s * (n + a) == s * n + s * a;
    assert (a - ua) * n <= (a - ta) * n + s * n;
    assert (a - ua) * n - (a - ta) * n - s * n == (ta - ua - s) * n;
    Plan.ProductSign(ta - ua - s, n);
  }

  /** If one guest is handed back a lot, no guest is taken much more from. */
  lemma NobodyTakenMuch(sizes: map<string, int>, t: map<string, int>, deficit: int, floor: int, slack: int, n: string,
                        a: string)
    requires floor >= 0 && slack >= 0 && Within(sizes, t, floor) && InProportion(sizes, t, floor, slack)
    requires n in sizes && a in sizes
    requires var u := Plan.Targets(sizes, deficit, floor); n in u && u[n] - t[n] >= |sizes| + slack
    ensures var u := Plan.Targets(sizes, deficit, floor); a in u && t[a] - u[a] <= slack
  {
    hide Plan.Targets, Total, InProportion, Plan.AllDrained, Plan.Spare;
    Plan.TargetsPromise(sizes, deficit, floor);
    if sizes[a] > floor && t[a] > floor + slack {
      TradeWith(sizes, t, deficit, floor, slack, n, a);
    }
  }

  lemma TradeWith(sizes: map<string, int>, t: map<string, int>, deficit: int, floor: int, slack: int, n: string,
                  a: string)
    requires floor >= 0 && slack >= 0 && Within(sizes, t, floor) && InProportion(sizes, t, floor, slack)
    requires n in sizes && a in sizes && sizes[a] > floor && t[a] > floor + slack
    requires var u := Plan.Targets(sizes, deficit, floor); n in u && u[n] - t[n] >= |sizes| + slack
    ensures var u := Plan.Targets(sizes, deficit, floor); a in u && t[a] - u[a] <= slack
  {
    hide *;
    var u := Plan.Targets(sizes, deficit, floor);
    HeldBounds(sizes, t, deficit, floor, n);
    AboveIsFew(sizes, floor);
    RisenIsAbove(sizes, t, floor, n, u[n]);
    Plan.Proportional(sizes, deficit, floor, a, n);
    Plan.Scale(sizes[n] - u[n] + |Plan.AboveFloor(sizes, floor)|, sizes[n] - u[n] + |sizes|, sizes[a]);
    ProportionAt(sizes, t, floor, slack, n, a);
    TradeOff(sizes[a], sizes[n], t[a], t[n], u[a], u[n], |sizes|, slack);
  }

  lemma RisenIsAbove(sizes: map<string, int>, t: map<string, int>, floor: int, n: string, u: int)
    requires Within(sizes, t, floor) && n in sizes && t[n] < u <= sizes[n]
    ensures sizes[n] > floor && u > floor
  {
  }

  lemma ProportionAt(sizes: map<string, int>, t: map<string, int>, floor: int, slack: int, a: string, b: string)
    requires t.Keys == sizes.Keys && InProportion(sizes, t, floor, slack)
    requires a in sizes && b in sizes && sizes[a] > floor && t[b] > floor + slack
    ensures (sizes[a] - t[a]) * sizes[b] <= (sizes[b] - t[b]) * sizes[a] + slack * (sizes[a] + sizes[b])
  {
  }

  /** A map no entry of which falls by more than the slack falls by that per entry at most, and one
      entry can only rise by what the total rises and the others fall. */
  lemma OneRises(t: map<string, int>, u: map<string, int>, slack: int, n: string)
    requires t.Keys == u.Keys && n in t && slack >= 0 && forall a :: a in t ==> t[a] - u[a] <= slack
    ensures u[n] - t[n] <= Total(u) - Total(t) + slack * (|t| - 1)
  {
    TotalRemove(t, n);
    TotalRemove(u, n);
    TotalShifted(t - {n}, u - {n}, slack);
    OneFewer(t, n);
  }

  lemma StepUp(slack: int, count: int)
    ensures slack * count == slack * (count - 1) + slack && slack * 0 == 0
  {
  }

  lemma {:induction false} TotalShifted(t: map<string, int>, u: map<string, int>, slack: int)
    requires t.Keys == u.Keys && forall a :: a in t ==> t[a] - u[a] <= slack
    ensures Total(t) - Total(u) <= slack * |t|
    decreases |t|
  {
    if t == map[] {
      assert u == map[];
      StepUp(slack, 0);
    } else {
      var k :| k in t;
      ShiftedRest(t, u, k);
      hide Total;
      TotalRemove(t, k);
      TotalRemove(u, k);
      TotalShifted(t - {k}, u - {k}, slack);
      StepUp(slack, |t|);
    }
  }

  lemma ShiftedRest(t: map<string, int>, u: map<string, int>, k: string)
    requires t.Keys == u.Keys && k in t
    ensures (t - {k}).Keys == (u - {k}).Keys && |t - {k}| == |t| - 1
  {
    OneFewer(t, k);
  }

  lemma SameTotalSameMap(t: map<string, int>, sizes: map<string, int>, n: string)
    requires t.Keys == sizes.Keys && n in t && Total(t) == Total(sizes) && forall a :: a in t ==> t[a] <= sizes[a]
    ensures t[n] == sizes[n]
  {
    TotalRemove(t, n);
    TotalRemove(sizes, n);
    TotalMonotone(t - {n}, sizes - {n});
  }

  /** A hold over targets in proportion hands no guest back more than the slack and rounding per
      guest, at whatever deficit the hold sets or exceeds. */
  lemma HoldKeepsProportioned(sizes: map<string, int>, t: map<string, int>, deficit: int, floor: int, slack: int,
                              n: string)
    requires floor >= 0 && slack >= 0 && Within(sizes, t, floor) && InProportion(sizes, t, floor, slack)
    requires deficit >= Total(sizes) - Total(t) && n in sizes
    ensures var u := Plan.Targets(sizes, deficit, floor);
      n in u && u[n] - t[n] < |sizes| + |sizes| * slack
  {
    hide *;
    var u := Plan.Targets(sizes, deficit, floor);
    HeldBounds(sizes, t, deficit, floor, n);
    if Total(t) == Total(sizes) {
      SameTotalSameMap(t, sizes, n);
      ScaleCount(|sizes|, slack);
    } else if u[n] - t[n] >= |sizes| + slack {
      HandedMuch(sizes, t, deficit, floor, slack, n);
    } else {
      Plan.Scale(1, |sizes|, slack);
    }
  }

  lemma HeldBounds(sizes: map<string, int>, t: map<string, int>, deficit: int, floor: int, n: string)
    requires floor >= 0 && Within(sizes, t, floor) && n in sizes
    ensures var u := Plan.Targets(sizes, deficit, floor);
      && u.Keys == sizes.Keys == t.Keys && u[n] <= sizes[n] && |sizes| >= 1
      && Total(t) <= Total(sizes) && forall a :: a in t ==> t[a] <= sizes[a]
  {
    hide Plan.Targets, Total;
    Plan.TargetsPromise(sizes, deficit, floor);
    TotalMonotone(t, sizes);
    assert |sizes| == |sizes.Keys| && sizes.Keys != {};
  }

  lemma RiseBound(rise: int, total: int, count: int, slack: int)
    requires count >= 1 && slack >= 0 && total < count && rise <= total + slack * (count - 1)
    ensures rise < count + count * slack
  {
    assert slack * (count - 1) == count * slack - slack;
  }

  lemma HandedMuch(sizes: map<string, int>, t: map<string, int>, deficit: int, floor: int, slack: int, n: string)
    requires floor >= 0 && slack >= 0 && Within(sizes, t, floor) && InProportion(sizes, t, floor, slack)
    requires deficit >= Total(sizes) - Total(t) > 0 && n in sizes && |sizes| >= 1
    requires var u := Plan.Targets(sizes, deficit, floor); u.Keys == sizes.Keys && u[n] - t[n] >= |sizes| + slack
    ensures Plan.Targets(sizes, deficit, floor)[n] - t[n] < |sizes| + |sizes| * slack
  {
    hide *;
    var u := Plan.Targets(sizes, deficit, floor);
    WithinKeys(sizes, t, floor);
    forall a | a in sizes
      ensures t[a] - u[a] <= slack
    {
      NobodyTakenMuch(sizes, t, deficit, floor, slack, n, a);
    }
    HoldTotal(sizes, t, deficit, floor);
    OneRises(t, u, slack, n);
    RiseBound(u[n] - t[n], Total(u) - Total(t), |sizes|, slack);
  }

  lemma WithinKeys(sizes: map<string, int>, t: map<string, int>, floor: int)
    requires Within(sizes, t, floor)
    ensures t.Keys == sizes.Keys && |t| == |sizes|
  {
    assert |t| == |t.Keys| && |sizes| == |sizes.Keys|;
  }

  lemma EmptyAlike(sizes: map<string, int>, t: map<string, int>)
    requires t.Keys == sizes.Keys && |sizes| == 0
    ensures t == sizes
  {
  }

  lemma HoldTotal(sizes: map<string, int>, t: map<string, int>, deficit: int, floor: int)
    requires floor >= 0 && Within(sizes, t, floor) && deficit >= Total(sizes) - Total(t) > 0
    ensures Total(Plan.Targets(sizes, deficit, floor)) - Total(t) < |sizes|
  {
    hide Plan.Targets, Total;
    var u := Plan.Targets(sizes, deficit, floor);
    Plan.TargetsPromise(sizes, deficit, floor);
    SpareIsFew(sizes, u, floor);
    if Plan.AllDrained(sizes, u, floor) {
      TotalMonotone(u, t);
    }
    if |sizes| == 0 {
      EmptyAlike(sizes, t);
    }
  }

  lemma KeptBound(outA: int, outB: int, gaveA: int, gaveB: int, a: int, b: int, k: int, s: int, count: int)
    requires a > 0 && b > 0 && s >= 0 && count >= 1 && 0 <= k <= count
    requires gaveA * b <= (gaveB + k) * a && outA <= gaveA + s && gaveB <= outB + count * s
    ensures outA * b <= outB * a + (count * s + count) * (a + b)
  {
    Plan.Scale(outA, gaveA + s, b);
    Plan.Scale(gaveB + k, outB + (count * s + count), a);
    assert (gaveA + s) * b == gaveA * b + s * b;
    assert (outB + (count * s + count)) * a == outB * a + (count * s + count) * a;
    assert (count * s + count) * (a + b) == (count * s + count) * a + (count * s + count) * b;
    Plan.Scale(1, count, s);
    Plan.Scale(s, count * s + count, b);
  }

  /** Conversely, targets of which the hold hands every guest back at most so much are in
      proportion, up to that and rounding per guest. */
  lemma KeptMeansProportioned(sizes: map<string, int>, t: map<string, int>, floor: int, slack: int)
    requires floor >= 0 && slack >= 0 && Within(sizes, t, floor)
    requires var u := Plan.Targets(sizes, Total(sizes) - Total(t), floor);
      forall n :: n in sizes && n in u ==> u[n] - t[n] <= slack
    ensures InProportion(sizes, t, floor, |sizes| * slack + |sizes|)
  {
    hide Plan.Targets, Total;
    var slacks := |sizes| * slack + |sizes|;
    forall a, b | a in sizes && b in sizes && sizes[a] > floor && t[b] > floor + slacks
      ensures (sizes[a] - t[a]) * sizes[b] <= (sizes[b] - t[b]) * sizes[a] + slacks * (sizes[a] + sizes[b])
    {
      KeptPair(sizes, t, floor, slack, a, b);
    }
  }

  lemma KeptPair(sizes: map<string, int>, t: map<string, int>, floor: int, slack: int, a: string, b: string)
    requires floor >= 0 && slack >= 0 && Within(sizes, t, floor)
    requires var u := Plan.Targets(sizes, Total(sizes) - Total(t), floor);
      forall n :: n in sizes && n in u ==> u[n] - t[n] <= slack
    requires a in sizes && b in sizes && sizes[a] > floor && t[b] > floor + (|sizes| * slack + |sizes|)
    ensures (sizes[a] - t[a]) * sizes[b] <= (sizes[b] - t[b]) * sizes[a]
      + (|sizes| * slack + |sizes|) * (sizes[a] + sizes[b])
  {
    hide *;
    var held := Total(sizes) - Total(t);
    var u := Plan.Targets(sizes, held, floor);
    HeldPlan(sizes, t, floor, a);
    HeldPlan(sizes, t, floor, b);
    AboveIsFew(sizes, floor);
    NotTakenMuch(sizes, t, u, slack, b);
    ScaleCount(|sizes|, slack);
    Plan.Proportional(sizes, held, floor, a, b);
    KeptBound(sizes[a] - t[a], sizes[b] - t[b], sizes[a] - u[a], sizes[b] - u[b], sizes[a], sizes[b],
      |Plan.AboveFloor(sizes, floor)|, slack, |sizes|);
  }

  lemma HeldPlan(sizes: map<string, int>, t: map<string, int>, floor: int, b: string)
    requires floor >= 0 && Within(sizes, t, floor) && b in sizes
    ensures var u := Plan.Targets(sizes, Total(sizes) - Total(t), floor);
      u.Keys == sizes.Keys == t.Keys && Total(u) >= Total(t) && |sizes| >= 1 && t[b] <= sizes[b]
  {
    hide Plan.Targets, Total;
    Plan.TargetsPromise(sizes, Total(sizes) - Total(t), floor);
    TotalMonotone(t, sizes);
    assert |sizes| == |sizes.Keys| && sizes.Keys != {};
  }

  lemma ScaleCount(count: int, slack: int)
    requires count >= 1 && slack >= 0
    ensures 0 <= slack <= count * slack
  {
    Plan.Scale(1, count, slack);
  }

  lemma NotTakenMuch(sizes: map<string, int>, t: map<string, int>, u: map<string, int>, slack: int, b: string)
    requires t.Keys == u.Keys == sizes.Keys && b in sizes && slack >= 0 && |sizes| >= 1 && Total(u) >= Total(t)
    requires forall n :: n in sizes ==> u[n] - t[n] <= slack
    ensures t[b] - u[b] <= |sizes| * slack
  {
    hide Total;
    assert |u| == |sizes| by { assert |u| == |u.Keys| && |sizes| == |sizes.Keys|; }
    OneRises(u, t, slack, b);
    assert slack * (|sizes| - 1) == |sizes| * slack - slack;
  }

  /** If every guest was at its configured size when the gate measured, the hold keeps each of them
      at its reclaimed target, up to rounding. */
  lemma HoldKeepsFullGuests(vms: map<string, Vm>, asked: int, deficit: int, floor: int, n: string)
    requires floor >= 0 && n in vms && forall m :: m in vms ==> CurrentTargetMiB(vms[m]) == vms[m].configuredMiB
    requires deficit >= Total(Configured(vms)) - Total(Asked(vms, asked, floor))
    ensures var t, u := Asked(vms, asked, floor), Plan.Targets(Configured(vms), deficit, floor);
      n in t && n in u && u[n] - t[n] < |vms| + |vms| * |vms|
  {
    hide Plan.Targets, Total;
    var sizes := Configured(vms);
    assert Currents(vms) == sizes;
    PlansAreInProportion(sizes, asked + |vms|, floor);
    hide InProportion;
    assert |sizes| == |vms| by { assert sizes.Keys == vms.Keys && |sizes| == |sizes.Keys| && |vms| == |vms.Keys|; }
    HoldKeepsProportioned(sizes, Asked(vms, asked, floor), deficit, floor, |sizes|, n);
  }

  /** The two guests of the example are out of proportion, by any slack up to 299 MiB. */
  lemma TwoGuestsOutOfProportion(a: string, b: string, slack: int)
    requires a != b && 0 <= slack <= 299
    ensures var vms := TwoGuests(a, b);
      && Asked(vms, 600, 1024).Keys == Configured(vms).Keys
      && !InProportion(Configured(vms), Asked(vms, 600, 1024), 1024, slack)
  {
    hide *;
    var vms := TwoGuests(a, b);
    var sizes, t := Configured(vms), Asked(vms, 600, 1024);
    HoldLevelsGuests(a, b);
    TwoGuestSums(a, b);
    ConfiguredAlike(vms);
    TwoGuestsAsked(a, b);
    WithinKeys(sizes, t, 1024);
    if InProportion(sizes, t, 1024, slack) {
      HoldKeepsProportioned(sizes, t, Total(sizes) - Total(t), 1024, slack, a);
      NotHandedBack(vms, 600, 1024, a, 600);
    }
  }

  lemma TwoGuestsAsked(a: string, b: string)
    requires a != b
    ensures var vms := TwoGuests(a, b); a in vms && Within(Configured(vms), Asked(vms, 600, 1024), 1024)
  {
    AskedWithin(TwoGuests(a, b), 600, 1024);
    hide Asked, Configured;
  }

  lemma NotHandedBack(vms: map<string, Vm>, deficit: int, floor: int, n: string, amount: int)
    requires floor >= 0 && n in Asked(vms, deficit, floor)
    requires var u := Plan.Targets(Configured(vms), Total(Configured(vms)) - Total(Asked(vms, deficit, floor)), floor);
      n in u && u[n] - Asked(vms, deficit, floor)[n] <= amount
    ensures !HandedBack(vms, deficit, floor, n, amount)
  {
    hide Plan.Targets, Total;
  }

  lemma ConfiguredAlike(vms: map<string, Vm>)
    ensures Configured(vms).Keys == vms.Keys && |Configured(vms)| == |vms|
  {
    assert Configured(vms).Keys == vms.Keys;
    assert |Configured(vms)| == |Configured(vms).Keys| && |vms| == |vms.Keys|;
  }

  lemma AskedWithin(vms: map<string, Vm>, deficit: int, floor: int)
    requires floor >= 0 && forall n :: n in vms ==> floor <= CurrentTargetMiB(vms[n]) <= vms[n].configuredMiB
    ensures Within(Configured(vms), Asked(vms, deficit, floor), floor)
  {
    hide Plan.Targets, Total;
    Plan.TargetsPromise(Currents(vms), deficit + |vms|, floor);
  }
}
