/** The balloon manager's reconcile tick: internal/balloon/manager.go. */
module Manager {
  import opened Options
  import opened Totals
  import opened Guests
  import Plan

  // ----- The pressure latch

  datatype Pressure = Unknown | Normal | Warning | Critical

  datatype Sample = Sample(
    totalMiB: int, availableMiB: int, compressorMiB: int,
    swapTotalBytes: nat, swapAvailableBytes: nat, pressure: Pressure)

  function SwapPercent(s: Sample): int
  {
    if s.swapTotalBytes == 0 || s.swapAvailableBytes >= s.swapTotalBytes then 0
    else (s.swapTotalBytes - s.swapAvailableBytes) * 100 / s.swapTotalBytes
  }

  predicate Alarmed(s: Sample) { s.pressure == Warning || s.pressure == Critical }

  predicate Arms(s: Sample)
  {
    || SwapPercent(s) >= 80
    || (if s.totalMiB > 0 then s.compressorMiB * 100 >= s.totalMiB * 20 else s.compressorMiB >= 4096)
    || Alarmed(s)
  }

  predicate Clears(s: Sample)
  {
    && SwapPercent(s) < 70
    && (if s.totalMiB > 0 then s.compressorMiB * 100 < s.totalMiB * 15 else s.compressorMiB < 3072)
    && !Alarmed(s)
  }

  /** The latch is armed when at most a fifth of the swap is left, the compressor holds a fifth of the
      memory (4096 MiB where the total is unknown), or the host raises an alarm. It may be cleared when
      more than three tenths of the swap are left, the compressor holds less than three twentieths
      (3072 MiB) and there is no alarm. A host without swap has enough of it. */
  lemma PressureMeans(s: Sample)
    ensures Arms(s) <==>
      || (s.swapTotalBytes > 0 && 5 * s.swapAvailableBytes <= s.swapTotalBytes)
      || (if s.totalMiB > 0 then 5 * s.compressorMiB >= s.totalMiB else s.compressorMiB >= 4096)
      || s.pressure == Warning || s.pressure == Critical
    ensures Clears(s) <==>
      && (s.swapTotalBytes == 0 || 10 * s.swapAvailableBytes > 3 * s.swapTotalBytes)
      && (if s.totalMiB > 0 then 20 * s.compressorMiB < 3 * s.totalMiB else s.compressorMiB < 3072)
      && (s.pressure == Unknown || s.pressure == Normal)
    ensures !(Arms(s) && Clears(s))
  {
    if s.swapTotalBytes > 0 && s.swapAvailableBytes < s.swapTotalBytes {
      var used := (s.swapTotalBytes - s.swapAvailableBytes) * 100;
      QuotientAtLeast(used, s.swapTotalBytes, 80);
      QuotientAtLeast(used, s.swapTotalBytes, 70);
    }
  }

  lemma QuotientAtLeast(a: nat, b: nat, k: nat)
    requires b > 0
    ensures a / b >= k <==> a >= k * b
  {
    var q := a / b;
    assert a == q * b + a % b;
    if q >= k {
      assert q * b >= k * b;
    } else {
      assert (q + 1) * b <= k * b;
    }
  }

  function Latch(latched: bool, s: Sample): bool
  {
    if Arms(s) then true else if Clears(s) then false else latched
  }

  function LatchAfter(samples: seq<Sample>): bool
  {
    if samples == [] then false else Latch(LatchAfter(samples[..|samples| - 1]), samples[|samples| - 1])
  }

  /** After any history the latch is set exactly when some sample armed it and no later
      sample met the clear condition. */
  lemma {:induction false} LatchHistory(samples: seq<Sample>)
    ensures LatchAfter(samples) <==>
      exists i :: 0 <= i < |samples| && Arms(samples[i]) && forall j :: i < j < |samples| ==> !Clears(samples[j])
  {
    hide Arms, Clears;
    if samples != [] {
      var n := |samples| - 1;
      LatchHistory(samples[..n]);
      if LatchAfter(samples) {
        if Arms(samples[n]) {
          assert 0 <= n < |samples| && Arms(samples[n]);
        } else {
          var i :| 0 <= i < n && Arms(samples[..n][i]) && forall j :: i < j < n ==> !Clears(samples[..n][j]);
          assert Arms(samples[i]);
          forall j | i < j < |samples|
            ensures !Clears(samples[j])
          {
            assert j < n ==> samples[..n][j] == samples[j];
          }
        }
      }
      if i :| 0 <= i < |samples| && Arms(samples[i]) && forall j :: i < j < |samples| ==> !Clears(samples[j]) {
        if i < n {
          assert Arms(samples[..n][i]) && forall j :: i < j < n ==> !Clears(samples[..n][j]);
        }
      }
    }
  }

  // ----- The plan

  ghost function ActiveSizes(vms: map<string, Vm>, pending: set<string>): map<string, int>
  {
    map n | n in vms && n !in pending :: vms[n].configuredMiB
  }

  function Ceiling(vm: Vm, previous: int): int
  {
    if vm.reported.Some? && 0 < vm.reported.value < previous then vm.reported.value else previous
  }

  /** Under the latch no guest with a record is planned above it or above its snapshot. */
  function Clamped(vm: Vm, last: map<string, int>, latched: bool, name: string, target: int): int
  {
    if latched && name in last && target > Ceiling(vm, last[name]) then Ceiling(vm, last[name]) else target
  }

  ghost function Planned(vms: map<string, Vm>, pending: set<string>, last: map<string, int>, latched: bool,
                         deficit: int, floor: int): map<string, int>
    requires floor >= 0
  {
    var targets := Plan.Targets(ActiveSizes(vms, pending), deficit, floor);
    map n | n in targets && n in vms :: Clamped(vms[n], last, latched, n, targets[n])
  }

  /** Every guest a controller may see reports a target it could have been given. */
  ghost predicate InBounds(vm: Vm, floor: int, target: int)
  {
    Plan.Min(floor, vm.configuredMiB) <= target <= vm.configuredMiB
  }

  ghost predicate Sound(vms: map<string, Vm>, last: map<string, int>, floor: int)
  {
    forall n :: n in vms ==>
      && (n in last ==> InBounds(vms[n], floor, last[n]))
      && (vms[n].reported.Some? && vms[n].reported.value > 0 ==> InBounds(vms[n], floor, vms[n].reported.value))
  }

  lemma PlannedKeys(vms: map<string, Vm>, pending: set<string>, last: map<string, int>, latched: bool, deficit: int,
                    floor: int)
    requires floor >= 0
    ensures Planned(vms, pending, last, latched, deficit, floor).Keys == vms.Keys - pending
  {
    Plan.TargetsPromise(ActiveSizes(vms, pending), deficit, floor);
  }

  /** What a plan gives a guest whose share is known: the share, or under the latch what is on record
      or what the guest reports, whichever is least. */
  ghost predicate Granted(vm: Vm, last: map<string, int>, latched: bool, n: string, share: int, target: int)
  {
    && target <= share
    && (latched && n in last ==>
          target <= last[n] && (vm.reported.Some? && vm.reported.value > 0 ==> target <= vm.reported.value))
    && (target == share
        || (latched && n in last
            && (target == last[n] || (vm.reported.Some? && vm.reported.value > 0 && target == vm.reported.value))))
  }

  /** The plan covers the guests whose device is up and gives each the least of its share of the
      deficit and what the latch leaves it. */
  lemma PlannedMeans(vms: map<string, Vm>, pending: set<string>, last: map<string, int>, latched: bool, deficit: int,
                     floor: int, sizes: map<string, int>)
    requires floor >= 0 && sizes.Keys == vms.Keys - pending
    requires forall n :: n in sizes ==> sizes[n] == vms[n].configuredMiB
    ensures var plan, shares :=
        Planned(vms, pending, last, latched, deficit, floor), Plan.Targets(sizes, deficit, floor);
      && plan.Keys == shares.Keys == vms.Keys - pending
      && forall n :: n in plan ==> Granted(vms[n], last, latched, n, shares[n], plan[n])
  {
    Plan.TargetsPromise(sizes, deficit, floor);
    hide Plan.Targets, Total;
    assert ActiveSizes(vms, pending) == sizes;
  }

  /** Planned targets stay between the floor and the configured size, and under the latch
      at or below what the manager recorded. */
  lemma PlannedBounds(vms: map<string, Vm>, pending: set<string>, last: map<string, int>, latched: bool, deficit: int,
                      floor: int, n: string)
    requires floor >= 0 && Sound(vms, last, floor) && n in vms && n !in pending
    ensures var t := Planned(vms, pending, last, latched, deficit, floor);
      && n in t && InBounds(vms[n], floor, t[n])
      && (latched && n in last ==> t[n] <= last[n])
  {
    hide Plan.Targets, Total;
    Plan.TargetsPromise(ActiveSizes(vms, pending), deficit, floor);
  }

  // ----- The calls of one tick

  datatype Phase = Probe | Reduce | Release

  /** One request to a guest: the replan round it was made in, the guests that round's plan left
      out, and the answer. */
  datatype Call = Call(phase: Phase, round: nat, pending: set<string>, name: string, target: int, answer: Answer)

  /** What a tick starts from. */
  datatype Tick = Tick(
    vms: map<string, Vm>, last: map<string, int>, pending: set<string>, latched: bool, deficit: int, floor: int)

  ghost function LedgerStep(last: map<string, int>, c: Call): map<string, int>
  {
    if c.answer == Accepted then last[c.name := c.target] else last
  }

  /** The manager's record after some calls: each guest's last accepted target. */
  ghost function Ledger(last: map<string, int>, calls: seq<Call>): map<string, int>
  {
    if calls == [] then last else LedgerStep(Ledger(last, calls[..|calls| - 1]), calls[|calls| - 1])
  }

  ghost function PendingStep(pending: set<string>, c: Call): set<string>
  {
    if c.phase == Probe then (if c.answer == Accepted then pending - {c.name} else pending)
    else if c.answer == DevicePending then pending + {c.name} else pending
  }

  /** The guests whose device is not up, after some calls. */
  ghost function Pending(pending: set<string>, calls: seq<Call>): set<string>
  {
    if calls == [] then pending else PendingStep(Pending(pending, calls[..|calls| - 1]), calls[|calls| - 1])
  }

  ghost function MovedStep(moved: map<string, int>, c: Call): map<string, int>
  {
    if c.phase != Probe && c.answer == Accepted then moved[c.name := c.target] else moved
  }

  /** What the replan rounds have already taken this tick. */
  ghost function Moved(calls: seq<Call>): map<string, int>
  {
    if calls == [] then map[] else MovedStep(Moved(calls[..|calls| - 1]), calls[|calls| - 1])
  }

  /** Probes come before the rounds, rounds in order, a round's releases after its
      reductions and only when none of those met a device that is not up. */
  ghost predicate InOrder(b: Call, c: Call)
  {
    if c.phase == Probe then b.phase == Probe
    else b.phase != Probe ==>
      && b.round <= c.round
      && (b.round == c.round && c.phase == Reduce ==> b.phase == Reduce)
      && (b.round == c.round && c.phase == Release && b.phase == Reduce ==> b.answer != DevicePending)
  }

  /** The target is the guest's share of the plan made over that record without those guests. */
  ghost predicate AsPlanned(tick: Tick, pending: set<string>, last: map<string, int>, n: string, target: int)
  {
    && tick.floor >= 0
    && var plan := Planned(tick.vms, pending, last, tick.latched, tick.deficit, tick.floor);
       n in plan && plan[n] == target
  }

  /** A guest's share of the plan depends on its own record only, not on the other guests'. */
  lemma OwnRecordPlans(tick: Tick, pending: set<string>, a: map<string, int>, b: map<string, int>, n: string,
                       target: int)
    requires AsPlanned(tick, pending, a, n, target)
    requires n in a <==> n in b
    requires n in a ==> a[n] == b[n]
    ensures AsPlanned(tick, pending, b, n, target)
  {
    hide Plan.Targets;
  }

  ghost predicate CallOk(tick: Tick, before: seq<Call>, c: Call)
  {
    && c.name in tick.vms && InBounds(tick.vms[c.name], tick.floor, c.target)
    && (forall i :: 0 <= i < |before| ==> InOrder(before[i], c))
    && (c.phase == Probe ==> c.name in tick.pending && c.target == tick.vms[c.name].configuredMiB)
    && (c.phase != Probe ==>
          && AsPlanned(tick, c.pending, Ledger(tick.last, before), c.name, c.target)
          && c.name !in Pending(tick.pending, before)
          && (c.phase == Reduce <==> c.target < Current(Ledger(tick.last, before), tick.vms[c.name], c.name))
          && (c.name in Moved(before) ==> c.target < Moved(before)[c.name])
          && (tick.latched && c.name in Ledger(tick.last, before) ==> c.target <= Ledger(tick.last, before)[c.name]))
  }

  ghost predicate Disciplined(tick: Tick, calls: seq<Call>)
  {
    forall k :: 0 <= k < |calls| ==> CallOk(tick, calls[..k], calls[k])
  }

  lemma Extend(tick: Tick, calls: seq<Call>, c: Call)
    requires Disciplined(tick, calls) && CallOk(tick, calls, c)
    ensures Disciplined(tick, calls + [c])
    ensures Ledger(tick.last, calls + [c]) == LedgerStep(Ledger(tick.last, calls), c)
    ensures Pending(tick.pending, calls + [c]) == PendingStep(Pending(tick.pending, calls), c)
    ensures Moved(calls + [c]) == MovedStep(Moved(calls), c)
  {
    hide CallOk, LedgerStep, PendingStep, MovedStep;
    assert (calls + [c])[..|calls|] == calls;
    forall k | 0 <= k < |calls + [c]|
      ensures CallOk(tick, (calls + [c])[..k], (calls + [c])[k])
    {
      if k < |calls| {
        assert (calls + [c])[..k] == calls[..k];
      }
    }
  }

  // ----- What the discipline means over a whole tick

  lemma Prefix(tick: Tick, calls: seq<Call>, k: nat)
    requires Disciplined(tick, calls) && k <= |calls|
    ensures Disciplined(tick, calls[..k])
    ensures k < |calls| ==> CallOk(tick, calls[..k], calls[k])
  {
    hide CallOk;
    forall j | 0 <= j < k
      ensures CallOk(tick, calls[..k][..j], calls[..k][j])
    {
      assert calls[..k][..j] == calls[..j];
    }
  }

  lemma {:induction false} MovedMeans(tick: Tick, calls: seq<Call>, i: nat)
    requires Disciplined(tick, calls) && i < |calls| && calls[i].phase != Probe && calls[i].answer == Accepted
    ensures calls[i].name in Moved(calls) && Moved(calls)[calls[i].name] <= calls[i].target
    decreases |calls|
  {
    hide Disciplined, Ledger, Pending, InBounds;
    var n := |calls| - 1;
    Prefix(tick, calls, n);
    if i < n {
      assert calls[..n][i] == calls[i];
      MovedMeans(tick, calls[..n], i);
    }
  }

  /** Within one tick's replan rounds, the targets a guest accepts strictly decrease. */
  lemma AcceptedDecrease(tick: Tick, calls: seq<Call>, i: nat, j: nat)
    requires Disciplined(tick, calls) && i < j < |calls|
    requires calls[i].phase != Probe && calls[i].answer == Accepted
    requires calls[j].phase != Probe && calls[j].name == calls[i].name
    ensures calls[j].target < calls[i].target
  {
    hide Disciplined, Ledger, Pending;
    Prefix(tick, calls, j);
    assert calls[..j][i] == calls[i];
    MovedMeans(tick, calls[..j], i);
  }

  lemma {:induction false} LatchedLedger(tick: Tick, calls: seq<Call>, name: string)
    requires Disciplined(tick, calls) && tick.latched && name in tick.last && name !in tick.pending
    ensures name in Ledger(tick.last, calls) && Ledger(tick.last, calls)[name] <= tick.last[name]
    decreases |calls|
  {
    hide Disciplined, Pending, Moved;
    if calls != [] {
      var n := |calls| - 1;
      Prefix(tick, calls, n);
      LatchedLedger(tick, calls[..n], name);
    }
  }

  /** While the latch is set, a guest with a record whose device was up when the tick
      began is never asked for more than that record. */
  lemma LatchForbidsRelease(tick: Tick, calls: seq<Call>, k: nat)
    requires Disciplined(tick, calls) && tick.latched && k < |calls|
    requires calls[k].name in tick.last && calls[k].name !in tick.pending
    ensures calls[k].target <= tick.last[calls[k].name]
  {
    hide Disciplined, Pending, Moved;
    Prefix(tick, calls, k);
    LatchedLedger(tick, calls[..k], calls[k].name);
  }

  /** Reductions take and releases do not: a guest is reduced exactly when it is asked for less than it
      reports, or without a report than the manager last got from it, or else than its size. */
  lemma ReductionsTake(tick: Tick, calls: seq<Call>, k: nat)
    requires Disciplined(tick, calls) && k < |calls| && calls[k].phase != Probe
    ensures var vm, record := tick.vms[calls[k].name], Ledger(tick.last, calls[..k]);
      && (vm.reported.Some? && vm.reported.value > 0 ==>
            (calls[k].phase == Reduce <==> calls[k].target < vm.reported.value))
      && (!(vm.reported.Some? && vm.reported.value > 0) ==>
            (calls[k].phase == Reduce <==>
               calls[k].target < if calls[k].name in record then record[calls[k].name] else vm.configuredMiB))
  {
    hide Disciplined, Pending, Moved, Ledger, AsPlanned;
    Prefix(tick, calls, k);
  }

  lemma OrderOf(tick: Tick, calls: seq<Call>, i: nat, j: nat)
    requires Disciplined(tick, calls) && i < j < |calls|
    ensures InOrder(calls[i], calls[j])
  {
    hide Disciplined, Pending, Moved, Ledger;
    Prefix(tick, calls, j);
    assert calls[..j][i] == calls[i];
  }

  /** A round hands memory out only if none of its reductions met a device not yet up,
      and never takes memory after it has begun to hand it out. */
  lemma ReleasesAfterReductions(tick: Tick, calls: seq<Call>, i: nat, j: nat)
    requires Disciplined(tick, calls) && i < |calls| && j < |calls| && calls[i].round == calls[j].round
    requires calls[i].phase == Reduce && calls[j].phase == Release
    ensures i < j && calls[i].answer != DevicePending
  {
    hide Disciplined;
    if i < j {
      OrderOf(tick, calls, i, j);
    } else if j < i {
      OrderOf(tick, calls, j, i);
    }
  }

  // ----- The controller

  datatype ApplyOutcome = Skipped | Applied | NotUp | Failed

  /** The calls so far allow calls of this phase in this round. */
  ghost predicate Ready(calls: seq<Call>, phase: Phase, round: nat)
  {
    forall i :: 0 <= i < |calls| ==> InOrder(calls[i], Call(phase, round, {}, "", 0, Quiesced))
  }

  // ----- What a controller has on file about one guest

  /** The manager's files: targets accepted, times of asking, guests waiting to be asked again,
      and what this tick has moved. */
  datatype Books = Books(last: map<string, int>, asked: map<string, int>, retry: set<string>, moved: map<string, int>)

  ghost predicate SameAt(a: map<string, int>, b: map<string, int>, n: string)
  {
    (n in a <==> n in b) && (n in a ==> a[n] == b[n])
  }

  /** Two states of the files say the same about a guest. */
  ghost predicate Agree(a: Books, b: Books, n: string)
  {
    && SameAt(a.last, b.last, n) && SameAt(a.asked, b.asked, n)
    && (n in a.retry <==> n in b.retry) && SameAt(a.moved, b.moved, n)
  }

  /** The guest's snapshot disagrees with the manager's record of it. */
  predicate MovedAside(last: map<string, int>, vm: Vm, n: string)
  {
    n in last && vm.reported.Some? && vm.reported.value != last[n]
  }

  /** What the guest holds as far as the manager can tell. */
  function Current(last: map<string, int>, vm: Vm, n: string): int
  {
    if vm.reported.Some? && vm.reported.value > 0 then vm.reported.value
    else if n in last then last[n]
    else vm.configuredMiB
  }

  /** The guest was asked too recently to be asked again. */
  predicate Recent(asked: map<string, int>, n: string, window: int, now: int)
  {
    n in asked && now - asked[n] < window
  }

  /** The guest is on record at the target and its snapshot does not disagree. */
  predicate There(last: map<string, int>, vm: Vm, n: string, target: int)
  {
    n in last && !MovedAside(last, vm, n) && last[n] == target
  }

  /** The guest would be taken from, rather than given to, by going to the target. */
  predicate Shrinks(b: Books, vm: Vm, n: string, target: int) { target < Current(b.last, vm, n) }

  /** This tick already has the guest at or below the target. */
  predicate Taken(b: Books, n: string, target: int) { n in b.moved && target >= b.moved[n] }

  /** How a visit is timed: the retry window, whether a hold overrides it, and the clock. */
  datatype Timing = Timing(window: int, urgent: bool, now: int)

  /** The pass asks the guest: it is the pass for that direction, the tick has not moved it that
      far, it is not there already, and its window does not make it wait. */
  predicate Due(b: Books, vm: Vm, n: string, target: int, reductions: bool, t: Timing)
  {
    && Shrinks(b, vm, n, target) == reductions && !Taken(b, n, target)
    && !There(b.last, vm, n, target)
    && !(!t.urgent && (!MovedAside(b.last, vm, n) || n in b.retry) && Recent(b.asked, n, t.window, t.now))
  }

  /** What an answer puts on file. */
  function Answered(b: Books, n: string, target: int, answer: Answer, now: int): Books
  {
    Books(
      if answer == Accepted then b.last[n := target] else b.last,
      if answer == Accepted || answer == DevicePending then b.asked[n := now] else b.asked,
      match answer { case Accepted => b.retry - {n} case Quiesced => b.retry case _ => b.retry + {n} },
      if answer == Accepted then b.moved[n := target] else b.moved)
  }

  /** The files after a visit: a guest that is due has answered, one kept off by its window is
      filed to be asked again, and otherwise nothing happens. */
  function Visited(b: Books, vm: Vm, n: string, target: int, reductions: bool, t: Timing, answer: Answer): Books
  {
    if Due(b, vm, n, target, reductions, t) then Answered(b, n, target, answer, t.now)
    else if Shrinks(b, vm, n, target) != reductions || Taken(b, n, target) || There(b.last, vm, n, target) then b
    else b.(retry := b.retry + {n})
  }

  lemma VisitedFiles(b: Books, vm: Vm, n: string, target: int, reductions: bool, t: Timing, answer: Answer)
    ensures var c := Visited(b, vm, n, target, reductions, t, answer);
      if Due(b, vm, n, target, reductions, t)
      then
        && !Taken(b, n, target)
        && c.last == (if answer == Accepted then b.last[n := target] else b.last)
        && c.moved == (if answer == Accepted then b.moved[n := target] else b.moved)
      else c.last == b.last && c.moved == b.moved
    ensures Due(b, vm, n, target, reductions, t) ==> Shrinks(b, vm, n, target) == reductions
  {
  }

  lemma VisitedMeans(b: Books, vm: Vm, n: string, target: int, reductions: bool, t: Timing, answer: Answer)
    ensures var c := Visited(b, vm, n, target, reductions, t, answer);
      && (forall m :: m != n ==> Agree(b, c, m))
      && (Shrinks(b, vm, n, target) != reductions ==> c == b)
      && (Taken(c, n, target) || SameAt(b.last, c.last, n))
      && (Taken(b, n, target) ==> Taken(c, n, target))
      && b.moved.Keys <= c.moved.Keys
  {
  }

  lemma VisitedAsks(b: Books, vm: Vm, n: string, target: int, reductions: bool, t: Timing, answer: Answer,
                    pending: set<string>)
    requires Due(b, vm, n, target, reductions, t) && answer == DevicePending ==> n in pending
    ensures var c := Visited(b, vm, n, target, reductions, t, answer); AskedSince(b.asked, c.asked, c.moved, pending)
  {
  }

  lemma VisitedDeals(b: Books, vm: Vm, n: string, target: int, reductions: bool, t: Timing, answer: Answer,
                     calls: seq<Call>, c: Call)
    requires Shrinks(b, vm, n, target) == reductions && c.name == n && c.target == target && c.answer == answer
    requires !(Due(b, vm, n, target, reductions, t) && answer == DevicePending)
    ensures DealtWith(Visited(b, vm, n, target, reductions, t, answer),
      calls + if Due(b, vm, n, target, reductions, t) then [c] else [], n, target, t)
  {
    if answer in {Refused, Quiesced} {
      DeclinedLast(calls, c);
    }
    hide Declined;
  }

  ghost predicate Declined(calls: seq<Call>, n: string, target: int)
  {
    exists i :: 0 <= i < |calls| && calls[i].name == n && calls[i].target == target
      && calls[i].answer in {Refused, Quiesced}
  }

  /** The guest has what the plan gives it, or there is a reason: it declined, it waits for its
      window and is on file to be asked again, or this tick already took it at least as low. */
  ghost predicate DealtWith(b: Books, calls: seq<Call>, n: string, target: int, t: Timing)
  {
    || (n in b.last && b.last[n] == target)
    || (!t.urgent && n in b.retry && Recent(b.asked, n, t.window, t.now))
    || Taken(b, n, target)
    || Declined(calls, n, target)
  }

  lemma DueAgrees(a: Books, b: Books, vm: Vm, n: string, target: int, reductions: bool, t: Timing)
    requires Agree(a, b, n)
    ensures Due(a, vm, n, target, reductions, t) == Due(b, vm, n, target, reductions, t)
    ensures Shrinks(a, vm, n, target) == Shrinks(b, vm, n, target) && Taken(a, n, target) == Taken(b, n, target)
  {
  }

  lemma StillDeclined(calls: seq<Call>, longer: seq<Call>, n: string, target: int)
    requires calls <= longer
    ensures Declined(calls, n, target) ==> Declined(longer, n, target)
  {
    if i :| 0 <= i < |calls| && calls[i].name == n && calls[i].target == target
            && calls[i].answer in {Refused, Quiesced} {
      assert longer[i] == calls[i];
    }
  }

  lemma DealtWithStays(a: Books, b: Books, calls: seq<Call>, longer: seq<Call>, n: string, target: int, t: Timing)
    requires Agree(a, b, n) && calls <= longer && DealtWith(a, calls, n, target, t)
    ensures DealtWith(b, longer, n, target, t)
  {
    StillDeclined(calls, longer, n, target);
    hide Declined;
  }

  lemma DeclinedLast(calls: seq<Call>, c: Call)
    requires c.answer in {Refused, Quiesced}
    ensures Declined(calls + [c], c.name, c.target)
  {
    assert (calls + [c])[|calls|] == c;
  }

  /** A guest's time of asking is the one before, unless this tick moved it or found its device
      not up. */
  ghost predicate AskedSince(before: map<string, int>, after: map<string, int>, moved: map<string, int>,
                             pending: set<string>)
  {
    forall n :: n in after ==> SameAt(before, after, n) || n in moved || n in pending
  }

  /** What makes it right to ask a guest for a target. */
  ghost predicate Askable(tick: Tick, pending: set<string>, last: map<string, int>, n: string, target: int)
  {
    && n in tick.vms && InBounds(tick.vms[n], tick.floor, target)
    && AsPlanned(tick, pending, last, n, target)
    && (tick.latched && n in last ==> target <= last[n])
  }

  lemma StillAskable(tick: Tick, pending: set<string>, b: Books, c: Books, n: string, name: string, target: int)
    requires n != name ==> Agree(b, c, n)
    requires n == name ==>
      (Taken(b, n, target) ==> Taken(c, n, target)) && (Taken(c, n, target) || SameAt(b.last, c.last, n))
    requires Taken(b, n, target) || Askable(tick, pending, b.last, n, target)
    ensures Taken(c, n, target) || Askable(tick, pending, c.last, n, target)
    ensures n != name && Taken(b, n, target) ==> Taken(c, n, target)
  {
    hide AsPlanned;
    if !Taken(c, n, target) {
      OwnRecordPlans(tick, pending, b.last, c.last, n, target);
    }
  }

  lemma NamesGrow(calls: seq<Call>, c: Call)
    ensures Names(calls + [c], 0) == Names(calls, 0) + {c.name}
  {
    var more := calls + [c];
    assert more[|calls|] == c;
    forall n | n in Names(calls, 0)
      ensures n in Names(more, 0)
    {
      var i :| 0 <= i < |calls| && calls[i].name == n;
      assert more[i].name == n;
    }
  }

  lemma ProbeAsked(start: map<string, int>, before: map<string, int>, after: map<string, int>, name: string, now: int,
                   seen: set<string>, pending: set<string>)
    requires AskedSince(start, before, map[], seen) && SameAt(start, before, name)
    requires pending == seen || pending == seen - {name}
    requires after == before || (name in pending && after == before[name := now])
    ensures AskedSince(start, after, map[], pending)
  {
  }

  /** Entries of other names stay. */
  ghost predicate OnlyAt(a: map<string, int>, b: map<string, int>, name: string)
  {
    a - {name} == b - {name}
  }

  lemma ProbedFiles(b: Books, c: Books, name: string)
    requires OnlyAt(b.last, c.last, name) && OnlyAt(b.asked, c.asked, name) && b.retry - {name} == c.retry - {name}
    requires b.moved == c.moved
    ensures forall m :: m != name ==> Agree(b, c, m)
  {
    forall m | m != name
      ensures Agree(b, c, m)
    {
      assert m in b.last - {name} <==> m in c.last - {name};
      assert m in b.asked - {name} <==> m in c.asked - {name};
      assert m in b.retry - {name} <==> m in c.retry - {name};
    }
  }

  lemma AgreeOn(a: Books, b: Books, c: Books, done: set<string>, name: string)
    requires forall n :: n !in done ==> Agree(a, b, n)
    requires forall m :: m != name ==> Agree(b, c, m)
    ensures forall n :: n !in done && n != name ==> Agree(a, c, n)
  {
    forall n | n !in done && n != name
      ensures Agree(a, c, n)
    {
      assert Agree(a, b, n) && Agree(b, c, n);
    }
  }

  lemma AskedAlike(asked: map<string, int>, moved: map<string, int>, pending: set<string>)
    ensures AskedSince(asked, asked, moved, pending)
  {
  }

  lemma ThereAlready(b: Books, calls: seq<Call>, n: string, target: int, t: Timing)
    requires n in b.last && b.last[n] == target
    ensures DealtWith(b, calls, n, target, t)
  {
  }

  lemma AskedOn(a: map<string, int>, b: map<string, int>, c: map<string, int>, movedB: map<string, int>,
                movedC: map<string, int>,
                pendingB: set<string>, pendingC: set<string>)
    requires AskedSince(a, b, movedB, pendingB) && AskedSince(b, c, movedC, pendingC)
    requires movedB.Keys <= movedC.Keys && pendingB <= pendingC
    ensures AskedSince(a, c, movedC, pendingC)
  {
  }

  ghost function Names(calls: seq<Call>, from: nat): set<string>
  {
    set i | from <= i < |calls| :: calls[i].name
  }

  /** The guests a pass asks, told from the files as they are when it begins. */
  ghost function DueIn(b: Books, vms: map<string, Vm>, targets: map<string, int>, reductions: bool,
                       t: Timing): set<string>
  {
    set n | n in targets && n in vms && Due(b, vms[n], n, targets[n], reductions, t)
  }

  ghost predicate InPass(b: Books, vms: map<string, Vm>, targets: map<string, int>, reductions: bool, n: string)
  {
    n in targets && n in vms && Shrinks(b, vms[n], n, targets[n]) == reductions
  }

  /** Each of these names was asked once since then, for its target, and nobody else. */
  ghost predicate AskedOnce(calls: seq<Call>, from: nat, names: set<string>, targets: map<string, int>,
                            pending: set<string>)
  {
    && from <= |calls| && Names(calls, from) == names && |calls| - from == |names|
    && forall i :: from <= i < |calls| ==>
         calls[i].name in targets && calls[i].target == targets[calls[i].name] && calls[i].pending == pending
  }

  lemma AskedNobody(calls: seq<Call>, targets: map<string, int>, pending: set<string>)
    ensures AskedOnce(calls, |calls|, {}, targets, pending)
  {
  }

  lemma AskedOneMore(calls: seq<Call>, c: Call, from: nat, names: set<string>, targets: map<string, int>)
    requires AskedOnce(calls, from, names, targets, c.pending) && c.name !in names
    requires c.name in targets && c.target == targets[c.name]
    ensures AskedOnce(calls + [c], from, names + {c.name}, targets, c.pending)
  {
    var more := calls + [c];
    assert more[|calls|] == c;
    forall n | n in names
      ensures n in Names(more, from)
    {
      var i :| from <= i < |calls| && calls[i].name == n;
      assert more[i].name == n;
    }
    assert Names(more, from) == names + {c.name};
  }

  /** A pass, with some names still to be visited, as seen from the files it began with. */
  ghost predicate Passed(b0: Books, b: Books, vms: map<string, Vm>, targets: map<string, int>, names: set<string>,
                         reductions: bool, t: Timing)
  {
    && (forall n :: n in names || !InPass(b0, vms, targets, reductions, n) ==> Agree(b0, b, n))
    && (forall n :: n in targets ==> Taken(b, n, targets[n]) || SameAt(b0.last, b.last, n))
    && (forall n :: n in b0.moved ==> n in b.moved)
  }

  /** What the replan rounds begin with. */
  datatype RoundsStart = RoundsStart(calls: seq<Call>, asked: map<string, int>, notUp: set<string>)

  /** What a pass begins with. */
  datatype PassStart = PassStart(
    files: Books, calls: seq<Call>, notUp: set<string>, vms: map<string, Vm>, targets: map<string, int>,
    reductions: bool, pending: set<string>, round: nat, time: Timing)

  lemma NothingPassed(b: Books, calls: seq<Call>, vms: map<string, Vm>, targets: map<string, int>, reductions: bool,
                      t: Timing)
    ensures Passed(b, b, vms, targets, targets.Keys, reductions, t)
    ensures AllDealt(b, b, calls, vms, targets, targets.Keys, reductions, t)
    ensures DueIn(b, vms, targets, reductions, t) - targets.Keys == {}
  {
    hide Shrinks, DealtWith, Due;
  }

  /** One more visit of a pass. */
  lemma PassStep(b0: Books, b: Books, c: Books, vms: map<string, Vm>, targets: map<string, int>, names: set<string>,
                 name: string, reductions: bool, t: Timing)
    requires Passed(b0, b, vms, targets, names, reductions, t)
    requires name in names && name in targets && name in vms
    requires forall m :: m != name ==> Agree(b, c, m)
    requires Shrinks(b, vms[name], name, targets[name]) != reductions ==> c == b
    requires Taken(c, name, targets[name]) || SameAt(b.last, c.last, name)
    requires name in b.moved ==> name in c.moved
    ensures Passed(b0, c, vms, targets, names - {name}, reductions, t)
    ensures Due(b0, vms[name], name, targets[name], reductions, t) ==
      Due(b, vms[name], name, targets[name], reductions, t)
    ensures InPass(b0, vms, targets, reductions, name) <==> Shrinks(b, vms[name], name, targets[name]) == reductions
  {
    DueAgrees(b0, b, vms[name], name, targets[name], reductions, t);
    hide Due, Shrinks;
    forall n | n in names - {name} || !InPass(b0, vms, targets, reductions, n)
      ensures Agree(b0, c, n)
    {
      assert Agree(b0, b, n);
      if n == name {
        assert c == b;
      } else {
        assert Agree(b, c, n);
      }
    }
    forall n | n in targets
      ensures Taken(c, n, targets[n]) || SameAt(b0.last, c.last, n)
    {
      if n == name {
        assert Agree(b0, b, n);
      } else {
        assert Agree(b, c, n);
      }
    }
    forall n | n in b0.moved
      ensures n in c.moved
    {
      if n != name {
        assert Agree(b, c, n);
      }
    }
  }

  /** Every guest of the pass that has been visited is dealt with. */
  ghost predicate AllDealt(b0: Books, b: Books, calls: seq<Call>, vms: map<string, Vm>, targets: map<string, int>,
                           names: set<string>, reductions: bool, t: Timing)
  {
    forall n :: n !in names && InPass(b0, vms, targets, reductions, n) ==> DealtWith(b, calls, n, targets[n], t)
  }

  lemma AllDealtStep(b0: Books, b: Books, c: Books, calls: seq<Call>, longer: seq<Call>, vms: map<string, Vm>,
                     targets: map<string, int>,
                     names: set<string>, name: string, reductions: bool, t: Timing)
    requires AllDealt(b0, b, calls, vms, targets, names, reductions, t) && calls <= longer
    requires forall m :: m != name ==> Agree(b, c, m)
    requires InPass(b0, vms, targets, reductions, name) ==> DealtWith(c, longer, name, targets[name], t)
    ensures AllDealt(b0, c, longer, vms, targets, names - {name}, reductions, t)
  {
    hide DealtWith, Shrinks;
    forall n | n !in names - {name} && InPass(b0, vms, targets, reductions, n)
      ensures n in targets && DealtWith(c, longer, n, targets[n], t)
    {
      if n != name {
        DealtWithStays(b, c, calls, longer, n, targets[n], t);
      }
    }
  }

  lemma DueSplits(b: Books, vms: map<string, Vm>, targets: map<string, int>, names: set<string>, name: string,
                  reductions: bool, t: Timing)
    requires name in names && name in targets && name in vms
    ensures DueIn(b, vms, targets, reductions, t) - (names - {name}) ==
      (DueIn(b, vms, targets, reductions, t) - names)
      + if Due(b, vms[name], name, targets[name], reductions, t) then {name} else {}
  {
    hide Due;
  }

  ghost predicate SomeNotUp(calls: seq<Call>, from: nat)
  {
    exists i :: from <= i < |calls| && calls[i].answer == DevicePending
  }

  ghost predicate AllAccepted(calls: seq<Call>)
  {
    forall i :: 0 <= i < |calls| ==> calls[i].answer == Accepted
  }

  /** The plan is the allocator's over the record after k calls, without the guests still not up at
      the end, and every later call is a request of that plan. */
  ghost predicate LastPlan(tick: Tick, calls: seq<Call>, k: nat, pending: set<string>, plan: map<string, int>)
  {
    && k <= |calls| && tick.floor >= 0
    && plan == Planned(tick.vms, pending, Ledger(tick.last, calls[..k]), tick.latched, tick.deficit, tick.floor)
    && forall i :: k <= i < |calls| ==>
         && calls[i].phase != Probe && calls[i].pending == pending
         && calls[i].name in plan && calls[i].target == plan[calls[i].name]
  }

  /** The plan made over the record after k calls covers the guests whose device is up and gives each
      of them what its share of the deficit and the latch allow. */
  ghost predicate Grants(tick: Tick, calls: seq<Call>, k: nat, notUp: set<string>, plan: map<string, int>)
  {
    && k <= |calls| && tick.floor >= 0 && plan.Keys == tick.vms.Keys - notUp
    && var shares := Plan.Targets(ActiveSizes(tick.vms, notUp), tick.deficit, tick.floor);
       forall n :: n in plan ==>
         n in shares && Granted(tick.vms[n], Ledger(tick.last, calls[..k]), tick.latched, n, shares[n], plan[n])
  }

  lemma LastPlanGrants(tick: Tick, calls: seq<Call>, k: nat, pending: set<string>, plan: map<string, int>,
                       notUp: set<string>)
    requires LastPlan(tick, calls, k, pending, plan) && tick.vms.Keys - pending == tick.vms.Keys - notUp
    ensures Grants(tick, calls, k, notUp, plan)
  {
    hide Planned, Granted, Ledger;
    PlannedMeans(tick.vms, pending, Ledger(tick.last, calls[..k]), tick.latched, tick.deficit, tick.floor,
      ActiveSizes(tick.vms, notUp));
  }

  lemma PlannedNow(tick: Tick, calls: seq<Call>, pending: set<string>, last: map<string, int>, plan: map<string, int>)
    requires last == Ledger(tick.last, calls) && tick.floor >= 0
    requires plan == Planned(tick.vms, pending, last, tick.latched, tick.deficit, tick.floor)
    ensures LastPlan(tick, calls, |calls|, pending, plan)
  {
    hide Planned;
    assert calls[..|calls|] == calls;
  }

  lemma PlanCarried(tick: Tick, earlier: seq<Call>, calls: seq<Call>, pending: set<string>, plan: map<string, int>)
    requires LastPlan(tick, earlier, |earlier|, pending, plan) && earlier <= calls
    requires forall i :: |earlier| <= i < |calls| ==>
      && calls[i].phase != Probe && calls[i].pending == pending
      && calls[i].name in plan && calls[i].target == plan[calls[i].name]
    ensures LastPlan(tick, calls, |earlier|, pending, plan)
  {
    hide Planned;
    assert calls[..|earlier|] == earlier == earlier[..|earlier|];
  }

  /** A planned guest that is not at its target. */
  predicate Off(last: map<string, int>, vms: map<string, Vm>, plan: map<string, int>, n: string)
  {
    n in plan && n in vms && !There(last, vms[n], n, plan[n])
  }

  ghost predicate Changed(last: map<string, int>, vms: map<string, Vm>, plan: map<string, int>)
  {
    exists n :: Off(last, vms, plan, n)
  }

  /** Every guest off its target is on record, has not been moved aside, and does not wait to be
      asked again. */
  ghost predicate Filed(last: map<string, int>, retry: set<string>, vms: map<string, Vm>, plan: map<string, int>)
  {
    forall n :: Off(last, vms, plan, n) ==> n in last && !MovedAside(last, vms[n], n) && n !in retry
  }

  lemma FiledStays(last: map<string, int>, retry: set<string>, fewer: set<string>, vms: map<string, Vm>,
                   plan: map<string, int>)
    requires Filed(last, retry, vms, plan) && fewer <= retry
    ensures Filed(last, fewer, vms, plan)
  {
  }

  /** Without a change every planned guest has its target. */
  lemma AllThere(b: Books, calls: seq<Call>, vms: map<string, Vm>, plan: map<string, int>, t: Timing)
    requires !Changed(b.last, vms, plan) && plan.Keys <= vms.Keys
    ensures forall n :: n in plan ==> DealtWith(b, calls, n, plan[n], t)
  {
    hide DealtWith;
    forall n | n in plan
      ensures DealtWith(b, calls, n, plan[n], t)
    {
      assert !Off(b.last, vms, plan, n);
      ThereAlready(b, calls, n, plan[n], t);
    }
  }

  /** Every request of the rounds was for the plan's target. */
  ghost predicate AskedFor(calls: seq<Call>, plan: map<string, int>)
  {
    forall i :: 0 <= i < |calls| && calls[i].phase != Probe ==>
      calls[i].name in plan && calls[i].target == plan[calls[i].name]
  }

  lemma ProbesOnly(calls: seq<Call>)
    requires OnlyProbes(calls)
    ensures forall i :: 0 <= i < |calls| ==> calls[i].phase == Probe
  {
  }

  /** With every device up the probes change nothing. */
  lemma NobodyProbed(vms: map<string, Vm>, b: Books, c: Books, notUp: set<string>, after: set<string>, calls: seq<Call>)
    requires Names(calls, 0) <= notUp * vms.Keys && |calls| == |Names(calls, 0)|
    requires forall n :: n !in Names(calls, 0) ==> Agree(b, c, n) && (n in after <==> n in notUp)
    ensures notUp * vms.Keys == {} ==> calls == [] && c.last == b.last && after == notUp
  {
    if notUp * vms.Keys == {} {
      assert Names(calls, 0) == {};
      forall n
        ensures SameAt(b.last, c.last, n) && (n in after <==> n in notUp)
      {
        assert Agree(b, c, n);
      }
      hide Agree, Names;
      SameEverywhere(b.last, c.last);
    }
  }

  lemma SameEverywhere(a: map<string, int>, b: map<string, int>)
    requires forall n :: SameAt(a, b, n)
    ensures a == b
  {
    forall n
      ensures n in a <==> n in b
    {
      assert SameAt(a, b, n);
    }
    forall n | n in a
      ensures a[n] == b[n]
    {
      assert SameAt(a, b, n);
    }
  }

  lemma OnlyProbesMoved(calls: seq<Call>)
    requires OnlyProbes(calls)
    ensures Moved(calls) == map[] && Earlier(calls, 0)
  {
  }

  lemma ProbesAskedFor(calls: seq<Call>, plan: map<string, int>)
    requires OnlyProbes(calls)
    ensures AskedFor(calls, plan)
  {
  }

  lemma RoundAskedFor(before: seq<Call>, calls: seq<Call>, reduced: nat, targets: map<string, int>)
    requires before <= calls && |before| <= reduced <= |calls| && (OnlyProbes(before) || !AllAccepted(before))
    requires forall i :: |before| <= i < |calls| ==>
      calls[i].name in targets && calls[i].target == targets[calls[i].name]
    ensures AllAccepted(calls) ==> AskedFor(calls, targets)
  {
    if AllAccepted(calls) {
      assert forall i :: 0 <= i < |before| ==> before[i] == calls[i];
    }
  }

  lemma AskedTargets(calls: seq<Call>, from: nat, mid: nat, targets: map<string, int>, pending: set<string>)
    requires from <= mid <= |calls|
    requires exists a: set<string> :: AskedOnce(calls[..mid], from, a, targets, pending)
    requires exists b: set<string> :: AskedOnce(calls, mid, b, targets, pending)
    ensures forall i :: from <= i < |calls| ==>
      calls[i].name in targets && calls[i].target == targets[calls[i].name] && calls[i].pending == pending
  {
    forall i | from <= i < |calls|
      ensures calls[i].name in targets && calls[i].target == targets[calls[i].name] && calls[i].pending == pending
    {
      assert i < mid ==> calls[..mid][i] == calls[i];
    }
  }

  lemma NotAllAccepted(before: seq<Call>, calls: seq<Call>)
    requires SomeNotUp(calls, |before|)
    ensures !AllAccepted(calls)
  {
    var i :| |before| <= i < |calls| && calls[i].answer == DevicePending;
    assert calls[i].answer != Accepted;
  }

  lemma PhaseOfExtends(before: seq<Call>, calls: seq<Call>, phase: Phase, round: nat, newlyPending: bool)
    requires Extends(before, calls, phase, round, newlyPending)
    ensures before <= calls && (newlyPending <==> SomeNotUp(calls, |before|))
    ensures forall i :: |before| <= i < |calls| ==> calls[i].phase == phase
  {
  }

  lemma SomeLater(before: seq<Call>, calls: seq<Call>, from: nat)
    requires SomeNotUp(calls, |before|) && from <= |before|
    ensures SomeNotUp(calls, from)
  {
  }

  lemma PassedMoved(b0: Books, b: Books, vms: map<string, Vm>, targets: map<string, int>, reductions: bool, t: Timing)
    requires Passed(b0, b, vms, targets, {}, reductions, t)
    ensures b0.moved.Keys <= b.moved.Keys
  {
  }

  /** The guests due for release after the reductions are those that were due before them. */
  lemma ReleaseDue(b0: Books, b1: Books, vms: map<string, Vm>, targets: map<string, int>, t: Timing)
    requires Passed(b0, b1, vms, targets, {}, true, t)
    ensures DueIn(b1, vms, targets, false, t) == DueIn(b0, vms, targets, false, t)
  {
    forall n | n in targets && n in vms
      ensures Due(b1, vms[n], n, targets[n], false, t) == Due(b0, vms[n], n, targets[n], false, t)
    {
      if !InPass(b0, vms, targets, true, n) {
        DueAgrees(b0, b1, vms[n], n, targets[n], false, t);
      }
    }
    hide Due;
  }

  /** After both passes every planned guest is dealt with. */
  lemma RoundDealt(b0: Books, b1: Books, b2: Books, reductions: seq<Call>, calls: seq<Call>, vms: map<string, Vm>,
                   targets: map<string, int>, t: Timing)
    requires targets.Keys <= vms.Keys && reductions <= calls
    requires Passed(b0, b1, vms, targets, {}, true, t) && AllDealt(b0, b1, reductions, vms, targets, {}, true, t)
    requires Passed(b1, b2, vms, targets, {}, false, t) && AllDealt(b1, b2, calls, vms, targets, {}, false, t)
    ensures forall n :: n in targets ==> DealtWith(b2, calls, n, targets[n], t)
  {
    hide DealtWith;
    forall n | n in targets
      ensures DealtWith(b2, calls, n, targets[n], t)
    {
      if !InPass(b1, vms, targets, false, n) {
        if !InPass(b0, vms, targets, true, n) {
          DueAgrees(b0, b1, vms[n], n, targets[n], true, t);
        }
        DealtWithStays(b1, b2, reductions, calls, n, targets[n], t);
      }
    }
  }

  class Controller {
    var last: map<string, int>
    var lastAppliedDeficit: int
    var lastAppliedKnown: bool
    var lastAppliedHold: bool
    var lastRetarget: map<string, int>
    var retryPending: set<string>
    var devicePending: set<string>
    var pressureLatched: bool
    const deadbandMiB: int
    const minRetargetInterval: int
    ghost var calls: seq<Call>

    constructor (deadbandMiB: int, minRetargetInterval: int)
      ensures last == map[] && lastRetarget == map[] && retryPending == {} && devicePending == {}
      ensures !pressureLatched && !lastAppliedKnown && !lastAppliedHold && lastAppliedDeficit == 0
      ensures this.deadbandMiB == deadbandMiB && this.minRetargetInterval == minRetargetInterval
    {
      last, lastRetarget, retryPending, devicePending := map[], map[], {}, {};
      pressureLatched, lastAppliedKnown, lastAppliedHold, lastAppliedDeficit := false, false, false, 0;
      this.deadbandMiB, this.minRetargetInterval := deadbandMiB, minRetargetInterval;
      calls := [];
    }

    method UpdateLatch(sample: Sample)
      modifies this`pressureLatched
      ensures pressureLatched == Latch(old(pressureLatched), sample)
    {
      var swap := SwapPercent(sample);
      var compressorArmed := sample.compressorMiB >= 4096;
      var compressorClear := sample.compressorMiB < 3072;
      if sample.totalMiB > 0 {
        compressorArmed := sample.compressorMiB * 100 >= sample.totalMiB * 20;
        compressorClear := sample.compressorMiB * 100 < sample.totalMiB * 15;
      }
      if swap >= 80 || compressorArmed || sample.pressure == Warning || sample.pressure == Critical {
        pressureLatched := true;
        return;
      }
      if swap < 70 && compressorClear && sample.pressure != Warning && sample.pressure != Critical {
        pressureLatched := false;
      }
    }

    predicate ExternallyMoved(vm: Vm, name: string)
      reads this`last
    {
      MovedAside(last, vm, name)
    }

    predicate Settled(vm: Vm, name: string, target: int)
      reads this`last
    {
      There(last, vm, name, target)
    }

    function CurrentMiB(vm: Vm, name: string): int
      reads this`last
    {
      Current(last, vm, name)
    }

    predicate InWindow(name: string, now: int)
      reads this`lastRetarget
    {
      Recent(lastRetarget, name, minRetargetInterval, now)
    }

    predicate Waits(vm: Vm, name: string, holdSetsDeficit: bool, now: int)
      reads this`last, this`lastRetarget, this`retryPending
    {
      && !holdSetsDeficit
      && (!ExternallyMoved(vm, name) || name in retryPending)
      && InWindow(name, now)
    }

    ghost predicate Follows(tick: Tick)
      reads this`last, this`devicePending, this`calls
    {
      && last == Ledger(tick.last, calls)
      && devicePending == Pending(tick.pending, calls)
      && Disciplined(tick, calls)
    }

    ghost function Files(): Books
      reads this`last, this`lastRetarget, this`retryPending, this`calls
    {
      Books(last, lastRetarget, retryPending, Moved(calls))
    }

    function Timed(holdSetsDeficit: bool, now: int): (t: Timing)
      ensures t.urgent == holdSetsDeficit
    {
      Timing(minRetargetInterval, holdSetsDeficit, now)
    }

    method Ask(ghost phase: Phase, ghost round: nat, ghost pending: set<string>, name: string, target: int)
      returns (answer: Answer)
      modifies this`calls
      ensures calls == old(calls) + [Call(phase, round, pending, name, target, answer)]
    {
      answer := *;
      calls := calls + [Call(phase, round, pending, name, target, answer)];
    }

    /** One guest's share of a tick. A guest already at the target is left alone, one asked
        within the retry window waits, and what the guest answers is all that is recorded. */
    method ApplyTarget(vm: Vm, name: string, target: int, holdSetsDeficit: bool, now: int,
                       ghost phase: Phase, ghost round: nat, ghost pending: set<string>)
      returns (outcome: ApplyOutcome, ghost asked: Option<Answer>)
      modifies this`last, this`lastRetarget, this`retryPending, this`devicePending, this`calls
      ensures asked.Some? <==> !old(Settled(vm, name, target)) && !old(Waits(vm, name, holdSetsDeficit, now))
      ensures old(Settled(vm, name, target)) <==>
        name in old(last) && old(last)[name] == target && (vm.reported.None? || vm.reported.value == target)
      ensures old(Waits(vm, name, holdSetsDeficit, now)) <==>
        && !holdSetsDeficit && name in old(lastRetarget) && now < old(lastRetarget)[name] + minRetargetInterval
        && (name in old(last) && vm.reported.Some? && vm.reported.value != old(last)[name] ==>
              name in old(retryPending))
      ensures match asked {
        case None =>
          && outcome == Skipped && unchanged(`last, `lastRetarget, `devicePending, `calls)
          && retryPending == (if old(Settled(vm, name, target)) then old(retryPending) else old(retryPending) + {name})
        case Some(answer) =>
          && calls == old(calls) + [Call(phase, round, pending, name, target, answer)]
          && last == (if answer == Accepted then old(last)[name := target] else old(last))
          && devicePending == (if answer == DevicePending then old(devicePending) + {name} else old(devicePending))
          && lastRetarget == (if answer == Accepted || answer == DevicePending then old(lastRetarget)[name := now]
            else old(lastRetarget))
          && retryPending == (match answer { case Accepted => old(retryPending) - {name}
            case Quiesced => old(retryPending) case _ => old(retryPending) + {name} })
          && outcome == (match answer { case Accepted => Applied case Quiesced => Skipped case DevicePending => NotUp
            case Refused => Failed })
      }
    {
      asked := None;
      var known := name in last;
      var moved := ExternallyMoved(vm, name);
      if moved {
        known := false;
      }
      if known && last[name] == target {
        outcome := Skipped;
        return;
      }
      if !holdSetsDeficit && (!moved || name in retryPending) {
        if name in lastRetarget && now - lastRetarget[name] < minRetargetInterval {
          retryPending := retryPending + {name};
          outcome := Skipped;
          return;
        }
      }
      var answer := Ask(phase, round, pending, name, target);
      asked := Some(answer);
      match answer {
        case Quiesced =>
          outcome := Skipped;
        case DevicePending =>
          devicePending := devicePending + {name};
          retryPending := retryPending + {name};
          lastRetarget := lastRetarget[name := now];
          outcome := NotUp;
        case Refused =>
          retryPending := retryPending + {name};
          outcome := Failed;
        case Accepted =>
          last := last[name := target];
          lastRetarget := lastRetarget[name := now];
          retryPending := retryPending - {name};
          outcome := Applied;
      }
    }

    // The requires of a step: where the tick stands and what it may ask of this guest.
    ghost predicate MayAsk(tick: Tick, pending: set<string>, name: string, target: int)
      reads this
    {
      && name in tick.vms && name !in devicePending
      && Askable(tick, pending, last, name, target)
    }

    /** One guest in one pass of one round: it is asked exactly when it is due, and all that
        changes is what its answer puts on file. */
    method Visit(ghost tick: Tick, ghost pending: set<string>, vm: Vm, name: string, target: int, reductions: bool,
                 applied: map<string, int>, holdSetsDeficit: bool, now: int, ghost round: nat)
      returns (moved: map<string, int>, newlyPending: bool, ghost answer: Answer)
      requires Follows(tick) && applied == Moved(calls) && Ready(calls, PhaseOf(reductions), round)
      requires name in tick.vms && vm == tick.vms[name]
      requires Taken(Files(), name, target) || MayAsk(tick, pending, name, target)
      modifies this`last, this`lastRetarget, this`retryPending, this`devicePending, this`calls
      ensures Follows(tick) && moved == Moved(calls) && Ready(calls, PhaseOf(reductions), round)
      ensures Files() == Visited(old(Files()), vm, name, target, reductions, Timed(holdSetsDeficit, now), answer)
      ensures calls == old(calls) +
        if old(Due(Files(), vm, name, target, reductions, Timed(holdSetsDeficit, now)))
        then [Call(PhaseOf(reductions), round, pending, name, target, answer)] else []
      ensures newlyPending <==>
        old(Due(Files(), vm, name, target, reductions, Timed(holdSetsDeficit, now))) && answer == DevicePending
      ensures devicePending == if newlyPending then old(devicePending) + {name} else old(devicePending)
      ensures newlyPending ==> name !in old(devicePending)
    {
      ghost var b, t := Files(), Timed(holdSetsDeficit, now);
      hide Follows, Ready, Askable, Due, Visited, Shrinks, Taken, Moved, Ledger, Pending, Disciplined;
      FollowsMeans(tick);
      moved, newlyPending, answer := VisitFiles(vm, name, target, reductions, applied, holdSetsDeficit, now,
        PhaseOf(reductions), round, pending);
      VisitedFiles(b, vm, name, target, reductions, t, answer);
      if Due(b, vm, name, target, reductions, t) {
        AskFollows(tick, old(calls), Call(PhaseOf(reductions), round, pending, name, target, answer), b);
      } else {
        assert calls == old(calls);
      }
      FollowsFrom(tick);
    }

    /** The visit as it is written, over the files alone. */
    method VisitFiles(vm: Vm, name: string, target: int, reductions: bool, applied: map<string, int>,
                      holdSetsDeficit: bool, now: int,
                      ghost phase: Phase, ghost round: nat, ghost pending: set<string>)
      returns (moved: map<string, int>, newlyPending: bool, ghost answer: Answer)
      modifies this`last, this`lastRetarget, this`retryPending, this`devicePending, this`calls
      ensures Books(last, lastRetarget, retryPending, moved) ==
        Visited(old(Books(last, lastRetarget, retryPending, applied)), vm, name, target, reductions,
          Timed(holdSetsDeficit, now), answer)
      ensures var due := old(Due(Books(last, lastRetarget, retryPending, applied), vm, name, target, reductions,
        Timed(holdSetsDeficit, now)));
        && calls == old(calls) + (if due then [Call(phase, round, pending, name, target, answer)] else [])
        && (newlyPending <==> due && answer == DevicePending)
        && (due && vm.reported.Some? && vm.reported.value > 0 ==> (reductions <==> target < vm.reported.value))
        && (due && !(vm.reported.Some? && vm.reported.value > 0) ==>
              (reductions <==> target < if name in old(last) then old(last)[name] else vm.configuredMiB))
        && (due && name in applied ==> target < applied[name])
      ensures devicePending == if newlyPending then old(devicePending) + {name} else old(devicePending)
    {
      moved, newlyPending, answer := applied, false, Quiesced;
      if (target < CurrentMiB(vm, name)) != reductions {
        return;
      }
      if name in applied && target >= applied[name] {
        return;
      }
      var outcome;
      ghost var asked;
      outcome, asked := ApplyTarget(vm, name, target, holdSetsDeficit, now, phase, round, pending);
      if asked.Some? {
        answer := asked.value;
      }
      if outcome == Applied {
        moved := moved[name := target];
      } else if outcome == NotUp {
        newlyPending := true;
      }
    }

    lemma FollowsMeans(tick: Tick)
      requires Follows(tick)
      ensures last == Ledger(tick.last, calls) && devicePending == Pending(tick.pending, calls)
      ensures Disciplined(tick, calls)
    {
    }

    lemma FollowsFrom(tick: Tick)
      requires last == Ledger(tick.last, calls) && devicePending == Pending(tick.pending, calls)
      requires Disciplined(tick, calls)
      ensures Follows(tick)
    {
    }

    /** One pass over the planned guests, in whatever order they come: exactly those due when it
        began are asked, each once, and unless a device turned out not to be up, every guest of the
        pass ends up dealt with. */
    method RunPass(ghost tick: Tick, ghost pending: set<string>, vms: map<string, Vm>, targets: map<string, int>,
                   reductions: bool,
                   applied: map<string, int>, holdSetsDeficit: bool, now: int, ghost round: nat)
      returns (moved: map<string, int>, newlyPending: bool)
      requires vms == tick.vms && targets.Keys <= vms.Keys
      requires Follows(tick) && applied == Moved(calls) && Ready(calls, PhaseOf(reductions), round)
      requires forall n :: n in targets ==> Taken(Files(), n, targets[n]) || MayAsk(tick, pending, n, targets[n])
      modifies this`last, this`lastRetarget, this`retryPending, this`devicePending, this`calls
      ensures Follows(tick) && moved == Moved(calls) && Ready(calls, PhaseOf(reductions), round)
      ensures Extends(old(calls), calls, PhaseOf(reductions), round, newlyPending)
      ensures old(devicePending) <= devicePending <= old(devicePending) + targets.Keys
      ensures newlyPending <==> devicePending != old(devicePending)
      ensures !newlyPending ==> forall n :: n in targets ==>
        Taken(Files(), n, targets[n]) || MayAsk(tick, pending, n, targets[n])
      ensures AskedOnce(calls, |old(calls)|,
        old(DueIn(Files(), vms, targets, reductions, Timed(holdSetsDeficit, now))), targets, pending)
      ensures Passed(old(Files()), Files(), vms, targets, {}, reductions, Timed(holdSetsDeficit, now))
      ensures AskedSince(old(lastRetarget), lastRetarget, moved, devicePending)
      ensures !newlyPending ==>
        AllDealt(old(Files()), Files(), calls, vms, targets, {}, reductions, Timed(holdSetsDeficit, now))
    {
      moved, newlyPending := applied, false;
      var names := targets.Keys;
      ghost var start := PassStart(Files(), calls, devicePending, vms, targets, reductions, pending, round,
        Timed(holdSetsDeficit, now));
      PassBegins(tick, start);
      while names != {}
        invariant names <= targets.Keys && moved == Moved(calls) && MidPass(tick, start, names, newlyPending)
      {
        hide Moved, MidPass;
        var name :| name in names;
        moved, newlyPending := VisitInPass(tick, start, names, vms[name], name, targets[name], moved, newlyPending,
          reductions, holdSetsDeficit, now);
        names := names - {name};
      }
      hide Moved, MidPass, Follows, Ready, Extends, DueIn, AskedOnce, Passed, AskedSince, AllDealt, Taken, MayAsk;
      PassEnds(tick, start, newlyPending);
    }

    /** A pass under way. */
    ghost predicate MidPass(tick: Tick, s: PassStart, names: set<string>, newlyPending: bool)
      reads this
    {
      && s.vms == tick.vms && s.targets.Keys <= s.vms.Keys && names <= s.targets.Keys
      && Follows(tick) && Ready(calls, PhaseOf(s.reductions), s.round)
      && Extends(s.calls, calls, PhaseOf(s.reductions), s.round, newlyPending)
      && s.notUp <= devicePending <= s.notUp + s.targets.Keys && (newlyPending <==> devicePending != s.notUp)
      && (forall n :: n in s.targets ==>
            || Taken(Files(), n, s.targets[n])
            || (Askable(tick, s.pending, last, n, s.targets[n])
              && (n in names || !newlyPending ==> n !in devicePending)))
      && AskedOnce(calls, |s.calls|, DueIn(s.files, s.vms, s.targets, s.reductions, s.time) - names,
                   s.targets, s.pending)
      && Passed(s.files, Files(), s.vms, s.targets, names, s.reductions, s.time)
      && AskedSince(s.files.asked, lastRetarget, Moved(calls), devicePending)
      && (!newlyPending ==> AllDealt(s.files, Files(), calls, s.vms, s.targets, names, s.reductions, s.time))
    }

    lemma PassBegins(tick: Tick, s: PassStart)
      requires s.files == Files() && s.calls == calls && s.notUp == devicePending
      requires s.vms == tick.vms && s.targets.Keys <= s.vms.Keys && Follows(tick)
      requires Ready(calls, PhaseOf(s.reductions), s.round)
      requires forall n :: n in s.targets ==>
        Taken(Files(), n, s.targets[n]) || MayAsk(tick, s.pending, n, s.targets[n])
      ensures MidPass(tick, s, s.targets.Keys, false)
    {
      hide Follows, Ready, Moved, Due, DealtWith, Askable, Taken, Extends, AskedOnce, AskedSince, Passed, AllDealt,
        DueIn;
      AskedNobody(calls, s.targets, s.pending);
      ExtendsByNone(calls, PhaseOf(s.reductions), s.round);
      AskedAlike(lastRetarget, Moved(calls), devicePending);
      NothingPassed(s.files, calls, s.vms, s.targets, s.reductions, s.time);
    }

    lemma PassEnds(tick: Tick, s: PassStart, newlyPending: bool)
      requires MidPass(tick, s, {}, newlyPending)
      ensures Follows(tick) && Ready(calls, PhaseOf(s.reductions), s.round)
      ensures Extends(s.calls, calls, PhaseOf(s.reductions), s.round, newlyPending)
      ensures s.notUp <= devicePending <= s.notUp + s.targets.Keys && (newlyPending <==> devicePending != s.notUp)
      ensures !newlyPending ==> forall n :: n in s.targets ==>
        Taken(Files(), n, s.targets[n]) || MayAsk(tick, s.pending, n, s.targets[n])
      ensures AskedOnce(calls, |s.calls|, DueIn(s.files, s.vms, s.targets, s.reductions, s.time), s.targets, s.pending)
      ensures Passed(s.files, Files(), s.vms, s.targets, {}, s.reductions, s.time)
      ensures AskedSince(s.files.asked, lastRetarget, Moved(calls), devicePending)
      ensures !newlyPending ==> AllDealt(s.files, Files(), calls, s.vms, s.targets, {}, s.reductions, s.time)
    {
      hide Follows, Ready, Extends, Moved, AskedOnce, Passed, AskedSince, AllDealt, Taken, Askable, DueIn;
      assert DueIn(s.files, s.vms, s.targets, s.reductions, s.time) - {} ==
        DueIn(s.files, s.vms, s.targets, s.reductions, s.time);
    }

    method VisitInPass(ghost tick: Tick, ghost s: PassStart, ghost names: set<string>, vm: Vm, name: string,
                       target: int,
                       applied: map<string, int>, pendingSoFar: bool, reductions: bool, holdSetsDeficit: bool, now: int)
      returns (moved: map<string, int>, newlyPending: bool)
      requires MidPass(tick, s, names, pendingSoFar) && name in names && applied == Moved(calls)
      requires s.reductions == reductions && s.time == Timed(holdSetsDeficit, now)
      requires name in s.targets && name in s.vms && vm == s.vms[name] && target == s.targets[name]
      modifies this`last, this`lastRetarget, this`retryPending, this`devicePending, this`calls
      ensures moved == Moved(calls) && MidPass(tick, s, names - {name}, newlyPending)
    {
      hide Follows, Ready, Moved, Extends, Due, Shrinks, DealtWith, AskedOnce, Passed, AllDealt, DueIn, AskedSince,
        Askable, Agree, Taken;
      ghost var b, before, seen := Files(), calls, devicePending;
      ghost var answer;
      var met;
      moved, met, answer := Visit(tick, s.pending, vm, name, target, reductions, applied, holdSetsDeficit, now,
        s.round);
      newlyPending := pendingSoFar || met;
      hide Visited;
      ghost var c := Call(PhaseOf(reductions), s.round, s.pending, name, target, answer);
      VisitedMeans(b, vm, name, target, reductions, s.time, answer);
      VisitedAsks(b, vm, name, target, reductions, s.time, answer, devicePending);
      ExtendsMaybe(s.calls, before, calls, c, pendingSoFar, met);
      PassStep(s.files, b, Files(), s.vms, s.targets, names, name, reductions, s.time);
      AskedMaybe(s.files, before, calls, c, |s.calls|, names, s.vms, s.targets, reductions, s.time);
      AskedOn(s.files.asked, b.asked, lastRetarget, applied, moved, seen, devicePending);
      if !newlyPending {
        if Shrinks(b, vm, name, target) == reductions {
          VisitedDeals(b, vm, name, target, reductions, s.time, answer, before, c);
        }
        AllDealtStep(s.files, b, Files(), before, calls, s.vms, s.targets, names, name, reductions, s.time);
      }
      forall n | n in s.targets
        ensures
          || Taken(Files(), n, s.targets[n])
          || (Askable(tick, s.pending, last, n, s.targets[n])
            && (n in names - {name} || !newlyPending ==> n !in devicePending))
      {
        StillAskable(tick, s.pending, b, Files(), n, name, s.targets[n]);
      }
    }

    method PlanActive(vms: map<string, Vm>, deficit: int, floorMiB: int) returns (targets: map<string, int>)
      requires floorMiB >= 0
      ensures targets == Planned(vms, devicePending, last, pressureLatched, deficit, floorMiB)
      ensures var shares := Plan.Targets(ActiveSizes(vms, devicePending), deficit, floorMiB);
        && targets.Keys == shares.Keys == vms.Keys - devicePending
        && forall n :: n in targets ==> Granted(vms[n], last, pressureLatched, n, shares[n], targets[n])
    {
      PlannedMeans(vms, devicePending, last, pressureLatched, deficit, floorMiB, ActiveSizes(vms, devicePending));
      var nodes := ActiveNodes(vms, devicePending);
      var planned := Plan.PlanTargets(nodes, deficit, floorMiB);
      PlannedKeys(vms, devicePending, last, pressureLatched, deficit, floorMiB);
      hide Plan.Targets, Granted;
      targets := map n | n in planned && n in vms :: Clamped(vms[n], last, pressureLatched, n, planned[n]);
    }

    /** Whether the plan differs from the record anywhere, and whether it does for a guest
        with nothing applied yet. Guests already there no longer wait for a retry. */
    method Classify(vms: map<string, Vm>, targets: map<string, int>) returns (changed: bool, hasUnappliedTarget: bool)
      requires targets.Keys <= vms.Keys
      modifies this`retryPending
      ensures changed <==> exists n :: n in targets && !Settled(vms[n], n, targets[n])
      ensures hasUnappliedTarget <==>
        exists n :: n in targets && !Settled(vms[n], n, targets[n])
          && (n !in last || ExternallyMoved(vms[n], n) || n in old(retryPending))
      ensures retryPending == set n | n in old(retryPending) && !(n in targets && Settled(vms[n], n, targets[n]))
    {
      changed, hasUnappliedTarget := false, false;
      var names := targets.Keys;
      ghost var done: set<string> := {};
      while names != {}
        invariant names <= targets.Keys && done == targets.Keys - names
        invariant changed <==> exists n :: n in done && !Settled(vms[n], n, targets[n])
        invariant hasUnappliedTarget <==>
          exists n :: n in done && !Settled(vms[n], n, targets[n])
            && (n !in last || ExternallyMoved(vms[n], n) || n in old(retryPending))
        invariant retryPending == set n | n in old(retryPending) && !(n in done && Settled(vms[n], n, targets[n]))
      {
        var name :| name in names;
        names, done := names - {name}, done + {name};
        var known := name in last && !ExternallyMoved(vms[name], name);
        if !known || last[name] != targets[name] {
          changed := true;
          if !known || name in retryPending {
            hasUnappliedTarget := true;
          }
        } else {
          retryPending := retryPending - {name};
        }
      }
    }

    /** Asks a guest whose device was not up for its configured size, once per window. */
    method ProbeDevice(ghost tick: Tick, vm: Vm, name: string, now: int)
      requires Follows(tick) && OnlyProbes(calls)
      requires name in tick.vms && vm == tick.vms[name] && name in tick.pending && name in devicePending
      modifies this`last, this`lastRetarget, this`retryPending, this`devicePending, this`calls
      ensures Follows(tick) && OnlyProbes(calls)
      ensures old(InWindow(name, now)) ==> unchanged(this)
      ensures !old(InWindow(name, now)) ==>
        && |calls| == |old(calls)| + 1
        && var answer := calls[|old(calls)|].answer;
           && calls == old(calls) + [Call(Probe, 0, {}, name, vm.configuredMiB, answer)]
           && last == (if answer == Accepted then old(last)[name := vm.configuredMiB] else old(last))
           && devicePending == (if answer == Accepted then old(devicePending) - {name} else old(devicePending))
           && retryPending == (if answer == Accepted then old(retryPending) - {name} else old(retryPending))
           && lastRetarget == (if answer == DevicePending || answer == Refused then old(lastRetarget)[name := now]
             else old(lastRetarget))
    {
      if name in lastRetarget && now - lastRetarget[name] < minRetargetInterval {
        return;
      }
      var answer := Ask(Probe, 0, {}, name, vm.configuredMiB);
      ghost var c := Call(Probe, 0, {}, name, vm.configuredMiB, answer);
      assert calls[|old(calls)|] == c;
      ProbeIsOk(tick, old(calls), c);
      Extend(tick, old(calls), c);
      hide Disciplined, Ledger, Pending, Moved;
      if answer != Accepted {
        if answer != Quiesced {
          lastRetarget := lastRetarget[name := now];
        }
        return;
      }
      devicePending := devicePending - {name};
      retryPending := retryPending - {name};
      last := last[name := vm.configuredMiB];
    }

    /** Exactly the guests on file as not up, present and outside their window are probed, once. */
    method ProbePendingDevices(ghost tick: Tick, vms: map<string, Vm>, now: int)
      requires vms == tick.vms && tick.last == last && tick.pending == devicePending && calls == []
      modifies this`last, this`lastRetarget, this`retryPending, this`devicePending, this`calls
      ensures Follows(tick) && OnlyProbes(calls)
      ensures Names(calls, 0) == (set n | n in old(devicePending) && n in vms && !old(InWindow(n, now)))
      ensures |calls| == |Names(calls, 0)|
      ensures devicePending <= old(devicePending)
      ensures forall n :: n !in Names(calls, 0) ==>
        Agree(old(Files()), Files(), n) && (n in devicePending <==> n in old(devicePending))
      ensures AskedSince(old(lastRetarget), lastRetarget, map[], devicePending)
    {
      var names := devicePending;
      ghost var b0, notUp := Files(), devicePending;
      ProbesBegin(tick, now);
      while names != {}
        invariant MidProbes(tick, b0, notUp, names, now)
        decreases |names|
      {
        hide MidProbes;
        var name :| name in names;
        if name in vms {
          ProbeInTurn(tick, b0, notUp, names, vms[name], name, now);
        } else {
          SkipInTurn(tick, b0, notUp, names, name, now);
        }
        names := names - {name};
      }
      hide Follows, OnlyProbes, Names, Agree, AskedSince;
      assert notUp - {} == notUp;
    }

    ghost function ToProbe(vms: map<string, Vm>, b0: Books, notUp: set<string>, now: int): set<string>
    {
      set n | n in notUp && n in vms && !Recent(b0.asked, n, minRetargetInterval, now)
    }

    /** The probes under way, with some names still to come. */
    ghost predicate MidProbes(tick: Tick, b0: Books, notUp: set<string>, names: set<string>, now: int)
      reads this
    {
      && names <= devicePending <= notUp && tick.pending == notUp
      && Follows(tick) && OnlyProbes(calls)
      && Names(calls, 0) == ToProbe(tick.vms, b0, notUp - names, now) && |calls| == |Names(calls, 0)|
      && (forall n :: n !in Names(calls, 0) ==> Agree(b0, Files(), n) && (n in devicePending <==> n in notUp))
      && AskedSince(b0.asked, lastRetarget, map[], devicePending)
    }

    lemma ProbesBegin(tick: Tick, now: int)
      requires tick.last == last && tick.pending == devicePending && calls == []
      ensures MidProbes(tick, Files(), devicePending, devicePending, now)
    {
      AskedAlike(lastRetarget, map[], devicePending);
      hide AskedSince;
      assert devicePending - devicePending == {};
    }

    lemma SkipInTurn(tick: Tick, b0: Books, notUp: set<string>, names: set<string>, name: string, now: int)
      requires MidProbes(tick, b0, notUp, names, now) && name !in tick.vms
      ensures MidProbes(tick, b0, notUp, names - {name}, now)
    {
      hide Follows, OnlyProbes, Names, Agree, AskedSince;
      assert ToProbe(tick.vms, b0, notUp - (names - {name}), now) == ToProbe(tick.vms, b0, notUp - names, now);
    }

    lemma ToProbeSplits(vms: map<string, Vm>, b0: Books, notUp: set<string>, names: set<string>, name: string, now: int)
      requires name in names && name in vms && name in notUp
      ensures ToProbe(vms, b0, notUp - (names - {name}), now) ==
        ToProbe(vms, b0, notUp - names, now) + if Recent(b0.asked, name, minRetargetInterval, now) then {} else {name}
      ensures name !in ToProbe(vms, b0, notUp - names, now)
    {
    }

    method ProbeInTurn(ghost tick: Tick, ghost b0: Books, ghost notUp: set<string>, ghost names: set<string>, vm: Vm,
                       name: string, now: int)
      requires MidProbes(tick, b0, notUp, names, now) && name in names && name in tick.vms && vm == tick.vms[name]
      modifies this`last, this`lastRetarget, this`retryPending, this`devicePending, this`calls
      ensures MidProbes(tick, b0, notUp, names - {name}, now)
    {
      hide Follows, OnlyProbes, Names, AskedSince, ToProbe, Moved;
      ghost var before, b, asked, seen := calls, Files(), lastRetarget, devicePending;
      ToProbeSplits(tick.vms, b0, notUp, names, name, now);
      assert Agree(b0, b, name);
      ProbeDevice(tick, vm, name, now);
      hide Agree, InWindow;
      OnlyProbesMoved(before);
      OnlyProbesMoved(calls);
      ProbedFiles(b, Files(), name);
      AgreeOn(b0, b, Files(), Names(before, 0), name);
      if |calls| > |before| {
        NamesGrow(before, calls[|before|]);
      }
      ProbeAsked(b0.asked, asked, lastRetarget, name, now, seen, devicePending);
    }

    /** The tick is left early: its deficit is within the deadband of the one last applied, some
        guest is off its target, and every such guest is on file. */
    ghost predicate Resting(vms: map<string, Vm>, plan: map<string, int>, deficit: int, holdSetsDeficit: bool)
      reads this
    {
      && InDeadband(deficit, holdSetsDeficit)
      && Changed(last, vms, plan) && Filed(last, retryPending, vms, plan)
    }

    predicate InDeadband(deficit: int, holdSetsDeficit: bool): (r: bool)
      reads this`lastAppliedHold, this`lastAppliedKnown, this`lastAppliedDeficit
      ensures r <==>
        && !holdSetsDeficit && !lastAppliedHold && lastAppliedKnown
        && lastAppliedDeficit - deadbandMiB < deficit < lastAppliedDeficit + deadbandMiB
    {
      !holdSetsDeficit && !lastAppliedHold && lastAppliedKnown && Abs(deficit - lastAppliedDeficit) < deadbandMiB
    }

    /** The plan the tick would make as things stand. */
    ghost function PlanNow(tick: Tick): map<string, int>
      requires tick.floor >= 0
      reads this`last, this`devicePending
    {
      Planned(tick.vms, devicePending, last, tick.latched, tick.deficit, tick.floor)
    }

    /** The replan rounds: plan, take, hand out, and replan around every device found not to be up.
        The loop always ends by a break: each further round leaves one guest out. The tick rests
        exactly when the first plan says so; unless it does, the last plan, made after k calls, is
        carried out as far as the guests allow. */
    method RunRounds(ghost tick: Tick, vms: map<string, Vm>, deficit: int, floorMiB: int, holdSetsDeficit: bool,
                     now: int)
      returns (broke: bool, applied: map<string, int>, ghost plan: map<string, int>, ghost k: nat, ghost rests: bool)
      requires vms == tick.vms && floorMiB == tick.floor >= 0
      requires tick.latched == pressureLatched && deficit == tick.deficit
      requires Sound(tick.vms, tick.last, tick.floor)
      requires Follows(tick) && OnlyProbes(calls)
      modifies this`last, this`lastRetarget, this`retryPending, this`devicePending, this`calls
      ensures broke
      ensures Follows(tick) && applied == Moved(calls)
      ensures LastPlan(tick, calls, k, devicePending, plan) && old(devicePending) <= devicePending
      ensures plan.Keys == vms.Keys - devicePending
      ensures forall n :: n in plan ==> InBounds(vms[n], floorMiB, plan[n])
      ensures AskedSince(old(lastRetarget), lastRetarget, applied, devicePending)
      ensures rests <==> old(Resting(vms, PlanNow(tick), deficit, holdSetsDeficit))
      ensures rests ==> calls == old(calls) && Resting(vms, plan, deficit, holdSetsDeficit)
      ensures !rests ==> forall n :: n in plan ==>
        DealtWith(Files(), calls, n, plan[n], Timed(holdSetsDeficit, now))
      ensures old(!Changed(last, vms, PlanNow(tick))) ==> calls == old(calls)
      ensures AllAccepted(calls) ==> AskedFor(calls, plan)
    {
      hide *;
      broke, applied, plan, rests, k := false, map[], map[], false, 0;
      ghost var start := RoundsStart(calls, lastRetarget, devicePending);
      ghost var must := Resting(vms, PlanNow(tick), deficit, holdSetsDeficit);
      ghost var quiet := !Changed(last, vms, PlanNow(tick));
      RoundsBegin(tick, start);
      var round := 0;
      while round <= |vms|
        invariant 0 <= round <= |vms| + 1
        invariant !broke && MidRounds(tick, start, round, applied)
        invariant round == 0 ==> must == Resting(vms, PlanNow(tick), deficit, holdSetsDeficit)
        invariant round == 0 ==> quiet == !Changed(last, vms, PlanNow(tick)) && calls == old(calls)
        invariant round > 0 ==> !must && !quiet
      {
        broke, applied, plan, k, rests :=
          OneRound(tick, start, vms, deficit, floorMiB, holdSetsDeficit, now, applied, round);
        if broke {
          break;
        }
        round := round + 1;
      }
      if !broke {
        RoundsNotOver(tick, start, round, applied);
      }
      RoundsEnd(tick, start, plan, k, rests, applied, Timed(holdSetsDeficit, now));
    }

    /** The rounds under way: each one but the first followed a device that was not up. */
    ghost predicate MidRounds(tick: Tick, start: RoundsStart, round: nat, applied: map<string, int>)
      reads this`last, this`lastRetarget, this`devicePending, this`calls
    {
      && Follows(tick) && applied == Moved(calls) && Earlier(calls, round)
      && |devicePending * tick.vms.Keys| >= round && start.notUp <= devicePending
      && AskedSince(start.asked, lastRetarget, applied, devicePending)
      && if round == 0 then OnlyProbes(calls) && calls == start.calls else !AllAccepted(calls)
    }

    /** The rounds are over, with the last plan carried out unless the tick rests. */
    ghost predicate RoundsDone(tick: Tick, start: RoundsStart, plan: map<string, int>, k: nat, rests: bool,
                               applied: map<string, int>, t: Timing)
      reads this
    {
      && Follows(tick) && applied == Moved(calls)
      && LastPlan(tick, calls, k, devicePending, plan) && start.notUp <= devicePending
      && plan.Keys == tick.vms.Keys - devicePending
      && (forall n :: n in plan ==> InBounds(tick.vms[n], tick.floor, plan[n]))
      && AskedSince(start.asked, lastRetarget, applied, devicePending)
      && (rests ==> calls == start.calls && Resting(tick.vms, plan, tick.deficit, t.urgent))
      && (!rests ==> forall n :: n in plan ==> DealtWith(Files(), calls, n, plan[n], t))
      && (AllAccepted(calls) ==> AskedFor(calls, plan))
    }

    lemma RoundsBegin(tick: Tick, start: RoundsStart)
      requires Follows(tick) && OnlyProbes(calls) && start == RoundsStart(calls, lastRetarget, devicePending)
      ensures MidRounds(tick, start, 0, map[])
    {
      hide Follows, Moved, AskedSince, Earlier, OnlyProbes;
      OnlyProbesMoved(calls);
      AskedAlike(lastRetarget, map[], devicePending);
    }

    lemma RoundsNotOver(tick: Tick, start: RoundsStart, round: nat, applied: map<string, int>)
      requires MidRounds(tick, start, round, applied)
      ensures round <= |tick.vms|
    {
      hide Follows, Moved, AskedSince, Earlier, OnlyProbes, AllAccepted;
      SubsetSize(devicePending * tick.vms.Keys, tick.vms.Keys);
      assert |tick.vms| == |tick.vms.Keys|;
    }

    lemma RoundsEnd(tick: Tick, start: RoundsStart, plan: map<string, int>, k: nat, rests: bool,
                    applied: map<string, int>, t: Timing)
      requires RoundsDone(tick, start, plan, k, rests, applied, t)
      ensures Follows(tick) && applied == Moved(calls)
      ensures LastPlan(tick, calls, k, devicePending, plan) && start.notUp <= devicePending
      ensures plan.Keys == tick.vms.Keys - devicePending
      ensures forall n :: n in plan ==> InBounds(tick.vms[n], tick.floor, plan[n])
      ensures AskedSince(start.asked, lastRetarget, applied, devicePending)
      ensures rests ==> calls == start.calls && Resting(tick.vms, plan, tick.deficit, t.urgent)
      ensures !rests ==> forall n :: n in plan ==> DealtWith(Files(), calls, n, plan[n], t)
      ensures AllAccepted(calls) ==> AskedFor(calls, plan)
    {
      hide Follows, Moved, AskedSince, Resting, DealtWith, AllAccepted, AskedFor, InBounds, LastPlan;
    }

    /** One turn of the replan loop. Only the first can find that the tick rests, and without a
        change it asks nobody. */
    method OneRound(ghost tick: Tick, ghost start: RoundsStart, vms: map<string, Vm>, deficit: int, floorMiB: int,
                    holdSetsDeficit: bool, now: int, before: map<string, int>, round: nat)
      returns (done: bool, applied: map<string, int>, ghost plan: map<string, int>, ghost k: nat, ghost rests: bool)
      requires vms == tick.vms && floorMiB == tick.floor >= 0
      requires tick.latched == pressureLatched && deficit == tick.deficit
      requires Sound(tick.vms, tick.last, tick.floor) && MidRounds(tick, start, round, before)
      modifies this`last, this`lastRetarget, this`retryPending, this`devicePending, this`calls
      ensures done ==> RoundsDone(tick, start, plan, k, rests, applied, Timed(holdSetsDeficit, now))
      ensures !done ==> !rests && MidRounds(tick, start, round + 1, applied)
      ensures rests <==> round == 0 && old(Resting(vms, PlanNow(tick), deficit, holdSetsDeficit))
      ensures old(!Changed(last, vms, PlanNow(tick))) ==> done && calls == old(calls)
    {
      hide *;
      ghost var t := Timed(holdSetsDeficit, now);
      RestingMeans(vms, PlanNow(tick), deficit, holdSetsDeficit);
      MidRoundsMeans(tick, start, round, before);
      done, applied, rests := true, before, false;
      var targets, changed, unapplied := StartRound(tick, vms, deficit, floorMiB);
      plan, k := targets, |calls|;
      MidRoundsStay(tick, start, round, before, plan);
      if !changed {
        FilesAre();
        TargetsWithin(vms.Keys, plan.Keys, devicePending);
        AllThere(Files(), calls, vms, plan, t);
        RoundsOver(tick, start, plan, k, rests, applied, t);
        return;
      }
      if round == 0 && InDeadband(deficit, holdSetsDeficit) && !unapplied {
        rests := true;
        FiledStays(last, old(retryPending), retryPending, vms, plan);
        RestingMeans(vms, plan, deficit, holdSetsDeficit);
        RoundsOver(tick, start, plan, k, rests, applied, t);
        return;
      }
      done, applied := CarryOut(tick, start, vms, targets, holdSetsDeficit, now, before, round);
    }

    lemma FilesAre()
      ensures Files() == Books(last, lastRetarget, retryPending, Moved(calls))
    {
    }

    lemma RestingMeans(vms: map<string, Vm>, plan: map<string, int>, deficit: int, holdSetsDeficit: bool)
      ensures Resting(vms, plan, deficit, holdSetsDeficit) <==>
        && InDeadband(deficit, holdSetsDeficit)
        && Changed(last, vms, plan) && Filed(last, retryPending, vms, plan)
    {
    }

    /** One turn that has a plan to carry out. */
    method CarryOut(ghost tick: Tick, ghost start: RoundsStart, vms: map<string, Vm>, targets: map<string, int>,
                    holdSetsDeficit: bool, now: int, before: map<string, int>, ghost round: nat)
      returns (done: bool, applied: map<string, int>)
      requires vms == tick.vms && MidRounds(tick, start, round, before) && targets.Keys == vms.Keys - devicePending
      requires LastPlan(tick, calls, |calls|, devicePending, targets)
      requires forall n :: n in targets ==>
        MayAsk(tick, devicePending, n, targets[n]) && InBounds(vms[n], tick.floor, targets[n])
      modifies this`last, this`lastRetarget, this`retryPending, this`devicePending, this`calls
      ensures done ==> RoundsDone(tick, start, targets, |old(calls)|, false, applied, Timed(holdSetsDeficit, now))
      ensures !done ==> MidRounds(tick, start, round + 1, applied)
    {
      hide *;
      ghost var notUp, asked, earlier := devicePending, lastRetarget, calls;
      MidRoundsMeans(tick, start, round, before);
      TargetsWithin(vms.Keys, targets.Keys, devicePending);
      var newlyPending;
      ghost var reduced;
      applied, newlyPending, reduced := RunRound(tick, vms, targets, before, holdSetsDeficit, now, round);
      done := !newlyPending;
      AskedOn(start.asked, asked, lastRetarget, before, applied, notUp, devicePending);
      if done {
        AskedTargets(calls, |earlier|, reduced, targets, notUp);
        RoundAskedFor(earlier, calls, reduced, targets);
        PlanCarried(tick, earlier, calls, notUp, targets);
        RoundsOver(tick, start, targets, |earlier|, false, applied, Timed(holdSetsDeficit, now));
      } else {
        NotAllAccepted(earlier, calls);
        MoreNotUp(notUp, devicePending, vms.Keys, targets.Keys);
        NextRound(tick, start, round, applied);
      }
    }

    lemma MidRoundsMeans(tick: Tick, start: RoundsStart, round: nat, applied: map<string, int>)
      requires MidRounds(tick, start, round, applied)
      ensures Follows(tick) && applied == Moved(calls) && Earlier(calls, round)
      ensures |devicePending * tick.vms.Keys| >= round && start.notUp <= devicePending
      ensures AskedSince(start.asked, lastRetarget, applied, devicePending)
      ensures OnlyProbes(calls) || !AllAccepted(calls)
      ensures round == 0 ==> calls == start.calls
    {
      hide Follows, Moved, Earlier, AskedSince, OnlyProbes, AllAccepted;
    }

    /** The same, with what it means for a plan made at this point. */
    lemma MidRoundsStay(tick: Tick, start: RoundsStart, round: nat, applied: map<string, int>, plan: map<string, int>)
      requires MidRounds(tick, start, round, applied) && tick.floor >= 0 && plan == PlanNow(tick)
      ensures Follows(tick) && applied == Moved(calls) && start.notUp <= devicePending
      ensures AskedSince(start.asked, lastRetarget, applied, devicePending)
      ensures AllAccepted(calls) ==> AskedFor(calls, plan)
      ensures LastPlan(tick, calls, |calls|, devicePending, plan)
      ensures round == 0 ==> calls == start.calls
    {
      hide *;
      MidRoundsMeans(tick, start, round, applied);
      FollowsMeans(tick);
      PlanNowMeans(tick);
      PlannedNow(tick, calls, devicePending, last, plan);
      if OnlyProbes(calls) {
        ProbesAskedFor(calls, plan);
      }
    }

    lemma PlanNowMeans(tick: Tick)
      requires tick.floor >= 0
      ensures PlanNow(tick) == Planned(tick.vms, devicePending, last, tick.latched, tick.deficit, tick.floor)
    {
    }

    lemma NextRound(tick: Tick, start: RoundsStart, round: nat, applied: map<string, int>)
      requires Follows(tick) && applied == Moved(calls) && Earlier(calls, round + 1)
      requires |devicePending * tick.vms.Keys| >= round + 1 && start.notUp <= devicePending
      requires AskedSince(start.asked, lastRetarget, applied, devicePending) && !AllAccepted(calls)
      ensures MidRounds(tick, start, round + 1, applied)
    {
      hide Follows, Moved, Earlier, AskedSince, OnlyProbes, AllAccepted;
    }

    lemma RoundsOver(tick: Tick, start: RoundsStart, plan: map<string, int>, k: nat, rests: bool,
                     applied: map<string, int>, t: Timing)
      requires Follows(tick) && applied == Moved(calls)
      requires LastPlan(tick, calls, k, devicePending, plan) && start.notUp <= devicePending
      requires plan.Keys == tick.vms.Keys - devicePending
      requires forall n :: n in plan ==> InBounds(tick.vms[n], tick.floor, plan[n])
      requires AskedSince(start.asked, lastRetarget, applied, devicePending)
      requires rests ==> calls == start.calls && Resting(tick.vms, plan, tick.deficit, t.urgent)
      requires !rests ==> forall n :: n in plan ==> DealtWith(Files(), calls, n, plan[n], t)
      requires AllAccepted(calls) ==> AskedFor(calls, plan)
      ensures RoundsDone(tick, start, plan, k, rests, applied, t)
    {
      hide Follows, Moved, InBounds, AskedSince, DealtWith, AllAccepted, AskedFor, Resting, LastPlan;
    }

    /** Plan and compare: whether a guest is off its target, and whether one of those is not on file. */
    method StartRound(ghost tick: Tick, vms: map<string, Vm>, deficit: int, floorMiB: int)
      returns (targets: map<string, int>, changed: bool, unapplied: bool)
      requires vms == tick.vms && floorMiB == tick.floor >= 0
      requires tick.latched == pressureLatched && deficit == tick.deficit
      requires Sound(tick.vms, tick.last, tick.floor) && Follows(tick)
      modifies this`retryPending
      ensures targets == PlanNow(tick) && targets.Keys == vms.Keys - devicePending
      ensures forall n :: n in targets ==>
        MayAsk(tick, devicePending, n, targets[n]) && InBounds(vms[n], floorMiB, targets[n])
      ensures changed <==> Changed(last, vms, targets)
      ensures unapplied <==> !Filed(last, old(retryPending), vms, targets)
      ensures retryPending <= old(retryPending)
    {
      targets := PlanActive(vms, deficit, floorMiB);
      PlannedKeys(vms, devicePending, last, pressureLatched, deficit, floorMiB);
      SoundLedger(tick, calls);
      forall n | n in targets
        ensures MayAsk(tick, devicePending, n, targets[n])
      {
        PlannedBounds(vms, devicePending, last, pressureLatched, deficit, floorMiB, n);
      }
      hide Planned, Follows, Sound, InBounds, AsPlanned, MayAsk;
      changed, unapplied := Classify(vms, targets);
      ClassifiedAs(vms, targets, old(retryPending));
    }

    lemma ClassifiedAs(vms: map<string, Vm>, targets: map<string, int>, retry: set<string>)
      requires targets.Keys <= vms.Keys
      ensures Changed(last, vms, targets) <==> exists n :: n in targets && !Settled(vms[n], n, targets[n])
      ensures !Filed(last, retry, vms, targets) <==>
        exists n :: n in targets && !Settled(vms[n], n, targets[n])
                    && (n !in last || ExternallyMoved(vms[n], n) || n in retry)
    {
      hide There, MovedAside;
      if Changed(last, vms, targets) {
        var n :| Off(last, vms, targets, n);
        assert !Settled(vms[n], n, targets[n]);
      }
      if n :| n in targets && !Settled(vms[n], n, targets[n]) {
        assert Off(last, vms, targets, n);
      }
      if !Filed(last, retry, vms, targets) {
        var n :| Off(last, vms, targets, n) && !(n in last && !MovedAside(last, vms[n], n) && n !in retry);
        assert !Settled(vms[n], n, targets[n]) && (n !in last || ExternallyMoved(vms[n], n) || n in retry);
      }
      if n :| n in targets && !Settled(vms[n], n, targets[n])
              && (n !in last || ExternallyMoved(vms[n], n) || n in retry) {
        assert Off(last, vms, targets, n);
      }
    }

    /** Reductions first, then releases unless a reduction met a device that is not up. Each pass
        asks exactly the guests that were due when the round began. */
    method RunRound(ghost tick: Tick, vms: map<string, Vm>, targets: map<string, int>, before: map<string, int>,
                    holdSetsDeficit: bool,
                    now: int, ghost round: nat)
      returns (applied: map<string, int>, newlyPending: bool, ghost reduced: nat)
      requires vms == tick.vms && targets.Keys <= vms.Keys
      requires Follows(tick) && before == Moved(calls) && Earlier(calls, round)
      requires forall n :: n in targets ==> MayAsk(tick, devicePending, n, targets[n])
      modifies this`last, this`lastRetarget, this`retryPending, this`devicePending, this`calls
      ensures Follows(tick) && applied == Moved(calls) && Earlier(calls, round + 1)
      ensures old(devicePending) <= devicePending <= old(devicePending) + targets.Keys
      ensures newlyPending <==> devicePending != old(devicePending)
      ensures old(calls) <= calls && |old(calls)| <= reduced <= |calls|
      ensures newlyPending ==> SomeNotUp(calls, |old(calls)|)
      ensures AskedOnce(calls[..reduced], |old(calls)|,
        old(DueIn(Files(), vms, targets, true, Timed(holdSetsDeficit, now))), targets, old(devicePending))
      ensures AskedOnce(calls, reduced,
        if SomeNotUp(calls[..reduced], |old(calls)|) then {}
        else old(DueIn(Files(), vms, targets, false, Timed(holdSetsDeficit, now))),
        targets, old(devicePending))
      ensures forall i :: |old(calls)| <= i < |calls| ==> calls[i].phase == if i < reduced then Reduce else Release
      ensures before.Keys <= applied.Keys && AskedSince(old(lastRetarget), lastRetarget, applied, devicePending)
      ensures !newlyPending ==> forall n :: n in targets ==>
        DealtWith(Files(), calls, n, targets[n], Timed(holdSetsDeficit, now))
    {
      ghost var t, b0 := Timed(holdSetsDeficit, now), Files();
      hide Follows, MayAsk, Moved, Earlier, Ready, Extends, AskedSince, DealtWith, AskedOnce, DueIn, Due, Shrinks,
        AllDealt, SomeNotUp, Taken, Passed, Agree;
      EarlierReady(calls, round);
      ghost var pending := devicePending;
      applied, newlyPending := RunPass(tick, pending, vms, targets, true, before, holdSetsDeficit, now, round);
      EarlierExtends(old(calls), calls, Reduce, round, newlyPending);
      PhaseOfExtends(old(calls), calls, Reduce, round, newlyPending);
      PassedMoved(b0, Files(), vms, targets, true, t);
      reduced := |calls|;
      ghost var b1, reductions, asked, was, seen := Files(), calls, lastRetarget, applied, devicePending;
      assert calls[..reduced] == calls;
      AskedNobody(calls, targets, pending);
      if !newlyPending {
        ReleaseReady(old(calls), calls, round);
        applied, newlyPending := RunPass(tick, pending, vms, targets, false, applied, holdSetsDeficit, now, round);
        EarlierExtends(reductions, calls, Release, round, newlyPending);
        PhaseOfExtends(reductions, calls, Release, round, newlyPending);
        assert calls[..reduced] == reductions;
        PassedMoved(b1, Files(), vms, targets, false, t);
        AskedOn(old(lastRetarget), asked, lastRetarget, was, applied, seen, devicePending);
        ReleaseDue(b0, b1, vms, targets, t);
        if newlyPending {
          SomeLater(reductions, calls, |old(calls)|);
        } else {
          RoundDealt(b0, b1, Files(), reductions, calls, vms, targets, t);
        }
      }
    }

    method DropDeparted(vms: map<string, Vm>)
      modifies this`last, this`lastRetarget, this`retryPending, this`devicePending, this`lastAppliedDeficit,
        this`lastAppliedKnown, this`lastAppliedHold
      ensures last == Restrict(old(last), vms.Keys) && lastRetarget == Restrict(old(lastRetarget), vms.Keys)
      ensures last.Keys == old(last).Keys * vms.Keys && forall n :: n in last ==> last[n] == old(last)[n]
      ensures retryPending == old(retryPending) * vms.Keys && devicePending == old(devicePending) * vms.Keys
      ensures if last == map[] then lastAppliedDeficit == 0 && !lastAppliedKnown && !lastAppliedHold
              else unchanged(`lastAppliedDeficit, `lastAppliedKnown, `lastAppliedHold)
    {
      last := map n | n in last && n in vms :: last[n];
      lastRetarget := map n | n in lastRetarget && n in vms :: lastRetarget[n];
      retryPending := set n | n in retryPending && n in vms;
      devicePending := set n | n in devicePending && n in vms;
      if last == map[] {
        lastAppliedDeficit, lastAppliedKnown, lastAppliedHold := 0, false, false;
      }
    }

    /** Nobody has a device that is not up, and everybody is where the next plan wants them. */
    ghost predicate AtRest(vms: map<string, Vm>, latched: bool, deficit: int, floor: int)
      requires floor >= 0
      reads this`last, this`devicePending
    {
      && devicePending * vms.Keys == {}
      && !Changed(last, vms, PlanNow(Tick(vms, last, devicePending, latched, deficit, floor)))
    }

    /** One tick over a snapshot of the running guests. The plan is the one the tick made last, after
        k calls; the tick carries it out as far as the guests allow, unless it rests. */
    method Reconcile(vms: map<string, Vm>, sample: Sample, reserveMiB: int, floorMiB: int, holdMiB: int, now: int)
      returns (broke: bool, ghost tick: Tick, ghost plan: map<string, int>, ghost k: nat, ghost rests: bool)
      requires floorMiB >= 0 && Sound(vms, last, floorMiB)
      modifies this
      ensures pressureLatched == Latch(old(pressureLatched), sample)
      ensures tick == Tick(vms, old(last), old(devicePending), pressureLatched,
                           Deficit(sample, reserveMiB, holdMiB, deadbandMiB), floorMiB)
      ensures broke && Disciplined(tick, calls)
      ensures last == Restrict(Ledger(old(last), calls), vms.Keys)
      ensures devicePending == Pending(old(devicePending), calls) * vms.Keys
      ensures LastPlan(tick, calls, k, Pending(old(devicePending), calls), plan)
      ensures plan.Keys == vms.Keys - devicePending
      ensures Grants(tick, calls, k, devicePending, plan)
      ensures forall n :: n in plan ==> InBounds(vms[n], floorMiB, plan[n])
      ensures Sound(vms, last, floorMiB)
      ensures rests ==>
        && old(InDeadband(Deficit(sample, reserveMiB, holdMiB, deadbandMiB),
                          HoldSets(sample, reserveMiB, holdMiB, deadbandMiB)))
        && (forall i :: 0 <= i < |calls| ==> calls[i].phase == Probe)
        && Changed(last, vms, plan) && Filed(last, retryPending, vms, plan)
      ensures !rests ==> forall n :: n in plan ==>
        DealtWith(Files(), calls, n, plan[n], Timed(HoldSets(sample, reserveMiB, holdMiB, deadbandMiB), now))
      ensures !rests && AllAccepted(calls)
              && (HoldSets(sample, reserveMiB, holdMiB, deadbandMiB)
                || forall n :: n in vms ==> !old(InWindow(n, now))) ==>
        forall n :: n in plan ==> n in last && last[n] == plan[n]
      ensures old(AtRest(vms, Latch(pressureLatched, sample), Deficit(sample, reserveMiB, holdMiB, deadbandMiB),
        floorMiB)) ==>
        calls == []
      ensures last != map[] && Moved(calls) != map[] ==>
        && lastAppliedKnown && lastAppliedDeficit == Deficit(sample, reserveMiB, holdMiB, deadbandMiB)
        && lastAppliedHold == HoldSets(sample, reserveMiB, holdMiB, deadbandMiB)
      ensures last != map[] && Moved(calls) == map[] ==>
        unchanged(`lastAppliedKnown, `lastAppliedDeficit, `lastAppliedHold)
    {
      UpdateLatch(sample);
      hide *;
      var deficit, holdSetsDeficit := Shortfall(sample, reserveMiB, holdMiB);
      tick := Tick(vms, last, devicePending, pressureLatched, deficit, floorMiB);
      broke, plan, k, rests := TickAndSettle(vms, deficit, floorMiB, holdSetsDeficit, now);
      LeftOut(vms, Pending(tick.pending, calls));
      LastPlanGrants(tick, calls, k, Pending(tick.pending, calls), plan, devicePending);
    }

    /** A tick once its deficit is known. */
    method TickAndSettle(vms: map<string, Vm>, deficit: int, floorMiB: int, holdSetsDeficit: bool, now: int)
      returns (broke: bool, ghost plan: map<string, int>, ghost k: nat, ghost rests: bool)
      requires floorMiB >= 0 && Sound(vms, last, floorMiB)
      modifies this`last, this`lastRetarget, this`retryPending, this`devicePending, this`calls,
        this`lastAppliedDeficit, this`lastAppliedKnown, this`lastAppliedHold
      ensures broke && Disciplined(Tick(vms, old(last), old(devicePending), pressureLatched, deficit, floorMiB), calls)
      ensures last == Restrict(Ledger(old(last), calls), vms.Keys)
      ensures devicePending == Pending(old(devicePending), calls) * vms.Keys
      ensures LastPlan(Tick(vms, old(last), old(devicePending), pressureLatched, deficit, floorMiB), calls, k,
                       Pending(old(devicePending), calls), plan)
      ensures plan.Keys == vms.Keys - devicePending
      ensures forall n :: n in plan ==> InBounds(vms[n], floorMiB, plan[n])
      ensures Sound(vms, last, floorMiB)
      ensures rests ==>
        && old(InDeadband(deficit, holdSetsDeficit)) && (forall i :: 0 <= i < |calls| ==> calls[i].phase == Probe)
        && Changed(last, vms, plan) && Filed(last, retryPending, vms, plan)
      ensures !rests ==> forall n :: n in plan ==>
        DealtWith(Files(), calls, n, plan[n], Timed(holdSetsDeficit, now))
      ensures !rests && AllAccepted(calls) && (holdSetsDeficit || forall n :: n in vms ==> !old(InWindow(n, now))) ==>
        forall n :: n in plan ==> n in last && last[n] == plan[n]
      ensures old(AtRest(vms, pressureLatched, deficit, floorMiB)) ==> calls == []
      ensures last != map[] && Moved(calls) != map[] ==>
        lastAppliedKnown && lastAppliedDeficit == deficit && lastAppliedHold == holdSetsDeficit
      ensures last != map[] && Moved(calls) == map[] ==>
        unchanged(`lastAppliedKnown, `lastAppliedDeficit, `lastAppliedHold)
    {
      hide *;
      var applied;
      broke, applied, plan, k, rests := RunTick(vms, deficit, floorMiB, holdSetsDeficit, now);
      LeftOut(vms, devicePending);
      ghost var b := Files();
      FilesAre();
      Settle(vms, applied != map[], deficit, holdSetsDeficit);
      FilesAre();
      RestrictedFiles(b, Files(), calls, vms, plan, Timed(holdSetsDeficit, now));
    }

    method Settle(vms: map<string, Vm>, anySucceeded: bool, deficit: int, holdSetsDeficit: bool)
      modifies this`last, this`lastRetarget, this`retryPending, this`devicePending, this`lastAppliedDeficit,
        this`lastAppliedKnown, this`lastAppliedHold
      ensures last == Restrict(old(last), vms.Keys) && devicePending == old(devicePending) * vms.Keys
      ensures lastRetarget == Restrict(old(lastRetarget), vms.Keys) && retryPending == old(retryPending) * vms.Keys
      ensures last != map[] && anySucceeded ==>
        lastAppliedKnown && lastAppliedDeficit == deficit && lastAppliedHold == holdSetsDeficit
      ensures last != map[] && !anySucceeded ==> unchanged(`lastAppliedKnown, `lastAppliedDeficit, `lastAppliedHold)
      ensures last == map[] ==> lastAppliedDeficit == 0 && !lastAppliedKnown && !lastAppliedHold
    {
      hide Restrict;
      if anySucceeded {
        lastAppliedDeficit, lastAppliedKnown, lastAppliedHold := deficit, true, holdSetsDeficit;
      }
      DropDeparted(vms);
    }

    /** The probes and the rounds. When every guest accepts and none is within its window, the
        record ends up being the plan. */
    method RunTick(vms: map<string, Vm>, deficit: int, floorMiB: int, holdSetsDeficit: bool, now: int)
      returns (broke: bool, applied: map<string, int>, ghost plan: map<string, int>, ghost k: nat, ghost rests: bool)
      requires floorMiB >= 0 && Sound(vms, last, floorMiB)
      modifies this`last, this`lastRetarget, this`retryPending, this`devicePending, this`calls
      ensures broke && applied == Moved(calls)
      ensures Disciplined(Tick(vms, old(last), old(devicePending), pressureLatched, deficit, floorMiB), calls)
      ensures last == Ledger(old(last), calls) && devicePending == Pending(old(devicePending), calls)
      ensures LastPlan(Tick(vms, old(last), old(devicePending), pressureLatched, deficit, floorMiB), calls, k,
        devicePending, plan)
      ensures Sound(vms, Restrict(last, vms.Keys), floorMiB)
      ensures plan.Keys == vms.Keys - devicePending
      ensures forall n :: n in plan ==> InBounds(vms[n], floorMiB, plan[n])
      ensures rests ==>
        && InDeadband(deficit, holdSetsDeficit) && (forall i :: 0 <= i < |calls| ==> calls[i].phase == Probe)
        && Changed(last, vms, plan) && Filed(last, retryPending, vms, plan)
      ensures !rests ==> forall n :: n in plan ==>
        DealtWith(Files(), calls, n, plan[n], Timed(holdSetsDeficit, now))
      ensures !rests && AllAccepted(calls) && (holdSetsDeficit || forall n :: n in vms ==> !old(InWindow(n, now))) ==>
        forall n :: n in plan ==> n in last && last[n] == plan[n]
      ensures old(AtRest(vms, pressureLatched, deficit, floorMiB)) ==> calls == []
    {
      hide Follows, Disciplined, Ledger, Pending, Moved, InBounds, Sound, OnlyProbes, Restrict, DealtWith, AskedSince,
        Resting, AllAccepted, AskedFor, LastPlan, Changed, Filed, Planned, Agree, Names, InDeadband;
      calls := [];
      ghost var tick := Tick(vms, last, devicePending, pressureLatched, deficit, floorMiB);
      ghost var b0, notUp := Files(), devicePending;
      ProbePendingDevices(tick, vms, now);
      ghost var asked, seen, probes := lastRetarget, devicePending, calls;
      NobodyProbed(vms, b0, Files(), notUp, devicePending, calls);
      ProbesOnly(calls);
      broke, applied, plan, k, rests := RunRounds(tick, vms, deficit, floorMiB, holdSetsDeficit, now);
      RestingMeans(vms, plan, deficit, holdSetsDeficit);
      FollowsMeans(tick);
      SoundLedger(tick, calls);
      SoundRestrict(vms, last, floorMiB);
      AskedOn(old(lastRetarget), asked, lastRetarget, map[], applied, seen, devicePending);
      ghost var t := Timed(holdSetsDeficit, now);
      if !rests && AllAccepted(calls) && (holdSetsDeficit || forall n :: n in vms ==> !old(InWindow(n, now))) {
        forall n | n in plan
          ensures n in last && last[n] == plan[n]
        {
          Arrives(tick, calls, Files(), old(lastRetarget), devicePending, plan, n, t);
        }
      }
    }

    /** The deficit is the larger of what is held and a real shortfall, where a shortfall smaller
        than the deadband counts for nothing; the hold sets it when it is no smaller. */
    method Shortfall(sample: Sample, reserveMiB: int, holdMiB: int) returns (deficit: int, holdSetsDeficit: bool)
      ensures deficit == Deficit(sample, reserveMiB, holdMiB, deadbandMiB)
      ensures holdSetsDeficit == HoldSets(sample, reserveMiB, holdMiB, deadbandMiB)
      ensures deficit >= 0 && deficit >= holdMiB
      ensures reserveMiB - sample.availableMiB >= deadbandMiB ==> deficit >= reserveMiB - sample.availableMiB
      ensures deficit == 0 || deficit == holdMiB || deficit == reserveMiB - sample.availableMiB >= deadbandMiB
      ensures deficit == 0 <==>
        holdMiB <= 0 && (reserveMiB <= sample.availableMiB || reserveMiB - sample.availableMiB < deadbandMiB)
      ensures holdSetsDeficit <==> holdMiB > 0 && deficit == holdMiB
    {
      var naturalDeficit := reserveMiB - sample.availableMiB;
      if naturalDeficit < 0 {
        naturalDeficit := 0;
      }
      if naturalDeficit > 0 && naturalDeficit < deadbandMiB {
        naturalDeficit := 0;
      }
      deficit := naturalDeficit;
      if holdMiB > deficit {
        deficit := holdMiB;
      }
      holdSetsDeficit := holdMiB > 0 && holdMiB >= naturalDeficit;
    }
  }

  lemma ActiveGrow(vms: map<string, Vm>, pending: set<string>, todo: map<string, Vm>, n: string)
    requires todo.Keys <= vms.Keys && n in todo && todo[n] == vms[n]
    ensures ActiveSizes(vms - (todo - {n}).Keys, pending)
         == if n in pending then ActiveSizes(vms - todo.Keys, pending)
            else ActiveSizes(vms - todo.Keys, pending)[n := vms[n].configuredMiB]
  {
  }

  method ActiveNodes(vms: map<string, Vm>, pending: set<string>) returns (nodes: seq<Plan.Node>)
    ensures Plan.DistinctNames(nodes)
    ensures Plan.Sizes(nodes) == ActiveSizes(vms, pending)
  {
    nodes := [];
    var todo := vms;
    while todo != map[]
      invariant todo.Keys <= vms.Keys && forall n :: n in todo ==> todo[n] == vms[n]
      invariant forall i :: 0 <= i < |nodes| ==> nodes[i].name !in todo
      invariant Plan.DistinctNames(nodes)
      invariant Plan.Sizes(nodes) == ActiveSizes(vms - todo.Keys, pending)
      decreases |todo|
    {
      var n :| n in todo;
      hide Plan.Sizes, Plan.DistinctNames, ActiveSizes;
      ActiveGrow(vms, pending, todo, n);
      OneFewer(todo, n);
      if n !in pending {
        var node := Plan.Node(n, todo[n].configuredMiB);
        Plan.OneMoreNode(nodes, node);
        nodes := nodes + [node];
      }
      todo := todo - {n};
    }
    assert vms - todo.Keys == vms;
  }

  function PhaseOf(reductions: bool): Phase { if reductions then Reduce else Release }

  lemma CallIsOk(tick: Tick, before: seq<Call>, c: Call)
    requires c.phase != Probe && Ready(before, c.phase, c.round)
    requires c.name in tick.vms && InBounds(tick.vms[c.name], tick.floor, c.target)
    requires c.name !in Pending(tick.pending, before)
    requires c.phase == Reduce <==> c.target < Current(Ledger(tick.last, before), tick.vms[c.name], c.name)
    requires AsPlanned(tick, c.pending, Ledger(tick.last, before), c.name, c.target)
    requires c.name in Moved(before) ==> c.target < Moved(before)[c.name]
    requires tick.latched && c.name in Ledger(tick.last, before) ==> c.target <= Ledger(tick.last, before)[c.name]
    ensures CallOk(tick, before, c)
  {
    hide Pending, Moved, Ledger, AsPlanned;
  }

  lemma ExtendsMaybe(start: seq<Call>, before: seq<Call>, calls: seq<Call>, c: Call, first: bool, second: bool)
    requires Extends(start, before, c.phase, c.round, first)
    requires calls == before + [c] || calls == before + []
    requires second <==> calls == before + [c] && c.answer == DevicePending
    ensures Extends(start, calls, c.phase, c.round, first || second)
  {
    if calls == before + [c] {
      ExtendsByOne(before, c);
    } else {
      ExtendsByNone(before, c.phase, c.round);
    }
    ExtendsOn(start, before, calls, c.phase, c.round, first, second);
  }

  lemma AskedMaybe(b0: Books, before: seq<Call>, calls: seq<Call>, c: Call, from: nat, names: set<string>,
                   vms: map<string, Vm>, targets: map<string, int>, reductions: bool, t: Timing)
    requires c.name in names && c.name in targets && c.name in vms && c.target == targets[c.name]
    requires AskedOnce(before, from, DueIn(b0, vms, targets, reductions, t) - names, targets, c.pending)
    requires calls == before + if Due(b0, vms[c.name], c.name, c.target, reductions, t) then [c] else []
    ensures AskedOnce(calls, from, DueIn(b0, vms, targets, reductions, t) - (names - {c.name}), targets, c.pending)
  {
    hide AskedOnce, Due;
    DueSplits(b0, vms, targets, names, c.name, reductions, t);
    if Due(b0, vms[c.name], c.name, c.target, reductions, t) {
      AskedOneMore(before, c, from, DueIn(b0, vms, targets, reductions, t) - names, targets);
    } else {
      var due := DueIn(b0, vms, targets, reductions, t) - names;
      assert calls == before && due + {} == due;
    }
  }

  /** A request that may be made continues a disciplined tick. */
  lemma AskFollows(tick: Tick, before: seq<Call>, c: Call, b: Books)
    requires Disciplined(tick, before) && c.phase != Probe && Ready(before, c.phase, c.round)
    requires b.last == Ledger(tick.last, before) && b.moved == Moved(before)
    requires c.name in tick.vms && c.name !in Pending(tick.pending, before) && !Taken(b, c.name, c.target)
    requires Askable(tick, c.pending, b.last, c.name, c.target)
    requires c.phase == Reduce <==> Shrinks(b, tick.vms[c.name], c.name, c.target)
    ensures Disciplined(tick, before + [c]) && Ready(before + [c], c.phase, c.round)
    ensures Ledger(tick.last, before + [c]) == if c.answer == Accepted then b.last[c.name := c.target] else b.last
    ensures Moved(before + [c]) == if c.answer == Accepted then b.moved[c.name := c.target] else b.moved
    ensures Pending(tick.pending, before + [c]) ==
      if c.answer == DevicePending then Pending(tick.pending, before) + {c.name} else Pending(tick.pending, before)
  {
    hide Ledger, Moved, Pending, Disciplined, AsPlanned, InBounds;
    CallIsOk(tick, before, c);
    Extend(tick, before, c);
    ReadyExtend(before, c);
  }

  lemma ReadyExtend(calls: seq<Call>, c: Call)
    requires Ready(calls, c.phase, c.round) && c.phase != Probe
    ensures Ready(calls + [c], c.phase, c.round)
  {
  }

  /** The calls grew by calls of one phase of one round, noting whether one met a device not up. */
  ghost predicate Extends(before: seq<Call>, calls: seq<Call>, phase: Phase, round: nat, newlyPending: bool)
  {
    && before <= calls
    && (forall i :: |before| <= i < |calls| ==>
          calls[i].phase == phase && calls[i].round == round && (calls[i].answer == DevicePending ==> newlyPending))
    && (newlyPending ==> exists i :: |before| <= i < |calls| && calls[i].answer == DevicePending)
  }

  lemma ExtendsByNone(calls: seq<Call>, phase: Phase, round: nat)
    ensures Extends(calls, calls, phase, round, false)
  {
  }

  lemma ExtendsByOne(calls: seq<Call>, c: Call)
    ensures Extends(calls, calls + [c], c.phase, c.round, c.answer == DevicePending)
  {
    assert (calls + [c])[|calls|] == c;
  }

  lemma ExtendsOn(a: seq<Call>, b: seq<Call>, c: seq<Call>, phase: Phase, round: nat, first: bool, second: bool)
    requires Extends(a, b, phase, round, first) && Extends(b, c, phase, round, second)
    ensures Extends(a, c, phase, round, first || second)
  {
    forall i | |a| <= i < |c|
      ensures c[i].phase == phase && c[i].round == round && (c[i].answer == DevicePending ==> first || second)
    {
      assert i < |b| ==> c[i] == b[i];
    }
    if first {
      var i :| |a| <= i < |b| && b[i].answer == DevicePending;
      assert c[i] == b[i];
    }
  }

  ghost function Restrict(m: map<string, int>, names: set<string>): map<string, int>
  {
    map n | n in m && n in names :: m[n]
  }

  lemma SoundRestrict(vms: map<string, Vm>, last: map<string, int>, floor: int)
    requires Sound(vms, last, floor)
    ensures Sound(vms, Restrict(last, vms.Keys), floor)
  {
  }

  lemma OffRestricted(last: map<string, int>, vms: map<string, Vm>, plan: map<string, int>)
    ensures forall n :: Off(Restrict(last, vms.Keys), vms, plan, n) <==> Off(last, vms, plan, n)
  {
  }

  lemma RestrictedFiles(b: Books, c: Books, calls: seq<Call>, vms: map<string, Vm>, plan: map<string, int>, t: Timing)
    requires plan.Keys <= vms.Keys && c.moved == b.moved
    requires c.last == Restrict(b.last, vms.Keys) && c.asked == Restrict(b.asked, vms.Keys)
    requires c.retry == b.retry * vms.Keys
    ensures forall n :: n in plan && DealtWith(b, calls, n, plan[n], t) ==> DealtWith(c, calls, n, plan[n], t)
    ensures forall n :: n in plan && n in b.last ==> n in c.last && c.last[n] == b.last[n]
    ensures Changed(b.last, vms, plan) ==> Changed(c.last, vms, plan)
    ensures Filed(b.last, b.retry, vms, plan) ==> Filed(c.last, c.retry, vms, plan)
  {
    hide DealtWith;
    OffRestricted(b.last, vms, plan);
    if Changed(b.last, vms, plan) {
      var n :| Off(b.last, vms, plan, n);
      assert Off(c.last, vms, plan, n);
    }
    hide Off;
    forall n | n in plan && DealtWith(b, calls, n, plan[n], t)
      ensures DealtWith(c, calls, n, plan[n], t)
    {
      DealtWithStays(b, c, calls, calls, n, plan[n], t);
    }
  }

  /** A moved guest's record is what it was moved to. */
  lemma {:induction false} MovedIsRecorded(tick: Tick, calls: seq<Call>, n: string)
    requires Disciplined(tick, calls) && n in Moved(calls)
    ensures n in Ledger(tick.last, calls) && Ledger(tick.last, calls)[n] == Moved(calls)[n]
    ensures exists i :: 0 <= i < |calls| && calls[i].phase != Probe && calls[i].name == n
                        && calls[i].target == Moved(calls)[n]
    decreases |calls|
  {
    hide Disciplined, Pending, InBounds, AsPlanned;
    var k := |calls| - 1;
    Prefix(tick, calls, k);
    var c := calls[k];
    if c.phase != Probe && c.answer == Accepted && c.name == n {
      assert calls[k].name == n;
    } else {
      MovedIsRecorded(tick, calls[..k], n);
      var i :| 0 <= i < k && calls[..k][i].phase != Probe && calls[..k][i].name == n
        && calls[..k][i].target == Moved(calls[..k])[n];
      assert calls[i] == calls[..k][i];
    }
  }

  lemma Arrives(tick: Tick, calls: seq<Call>, b: Books, asked: map<string, int>, pending: set<string>,
                plan: map<string, int>, n: string, t: Timing)
    requires Disciplined(tick, calls) && b.last == Ledger(tick.last, calls) && b.moved == Moved(calls)
    requires AskedSince(asked, b.asked, b.moved, pending) && AllAccepted(calls) && AskedFor(calls, plan)
    requires n in plan && n !in pending && DealtWith(b, calls, n, plan[n], t)
    requires t.urgent || !Recent(asked, n, t.window, t.now)
    ensures n in b.last && b.last[n] == plan[n]
  {
    hide Disciplined, Ledger, Moved;
    if n in b.moved {
      MovedIsRecorded(tick, calls, n);
    }
  }

  lemma LeftOut(vms: map<string, Vm>, pending: set<string>)
    ensures vms.Keys - pending == vms.Keys - pending * vms.Keys
  {
  }

  function NaturalDeficit(sample: Sample, reserveMiB: int, deadbandMiB: int): int
  {
    var d := reserveMiB - sample.availableMiB;
    if d <= 0 || d < deadbandMiB then 0 else d
  }

  /** The shortfall of a tick: a real one outside the deadband, or what is held if that is more. */
  function Deficit(sample: Sample, reserveMiB: int, holdMiB: int, deadbandMiB: int): int
  {
    var natural := NaturalDeficit(sample, reserveMiB, deadbandMiB);
    if holdMiB > natural then holdMiB else natural
  }

  predicate HoldSets(sample: Sample, reserveMiB: int, holdMiB: int, deadbandMiB: int)
  {
    holdMiB > 0 && holdMiB >= NaturalDeficit(sample, reserveMiB, deadbandMiB)
  }

  function Abs(x: int): int { if x < 0 then -x else x }

  ghost predicate OnlyProbes(calls: seq<Call>)
  {
    && (forall i :: 0 <= i < |calls| ==> calls[i].phase == Probe)
    && Moved(calls) == map[]
  }

  /** Everything asked in a round so far was asked in an earlier one. */
  ghost predicate Earlier(calls: seq<Call>, round: nat)
  {
    forall i :: 0 <= i < |calls| && calls[i].phase != Probe ==> calls[i].round < round
  }

  lemma EarlierReady(calls: seq<Call>, round: nat)
    requires Earlier(calls, round)
    ensures Ready(calls, Reduce, round) && Earlier(calls, round + 1)
  {
  }

  lemma EarlierExtends(before: seq<Call>, calls: seq<Call>, phase: Phase, round: nat, newlyPending: bool)
    requires Earlier(before, round + 1) && Extends(before, calls, phase, round, newlyPending)
    ensures Earlier(calls, round + 1)
  {
    forall i | 0 <= i < |calls| && calls[i].phase != Probe
      ensures calls[i].round < round + 1
    {
      assert i < |before| ==> before[i] == calls[i];
    }
  }

  lemma ReleaseReady(before: seq<Call>, calls: seq<Call>, round: nat)
    requires Earlier(before, round) && Extends(before, calls, Reduce, round, false)
    ensures Ready(calls, Release, round)
  {
    forall i | 0 <= i < |calls|
      ensures InOrder(calls[i], Call(Release, round, {}, "", 0, Quiesced))
    {
      assert i < |before| ==> before[i] == calls[i];
    }
  }

  lemma ProbeIsOk(tick: Tick, before: seq<Call>, c: Call)
    requires OnlyProbes(before) && c.phase == Probe && c.name in tick.vms && c.name in tick.pending
    requires c.target == tick.vms[c.name].configuredMiB
    ensures CallOk(tick, before, c)
    ensures Disciplined(tick, before) ==> OnlyProbes(before + [c])
  {
    assert (before + [c])[..|before|] == before;
  }

  lemma TargetsWithin(vms: set<string>, targets: set<string>, pending: set<string>)
    requires targets == vms - pending
    ensures targets <= vms
  {
  }

  lemma MoreNotUp(before: set<string>, after: set<string>, vms: set<string>, targets: set<string>)
    requires before <= after <= before + targets && targets == vms - before && after != before
    ensures |after * vms| >= |before * vms| + 1
  {
    var n :| n in after && n !in before;
    SubsetSize(before * vms + {n}, after * vms);
  }

  /** Whatever a disciplined tick has recorded is in bounds. */
  lemma {:induction false} SoundLedger(tick: Tick, calls: seq<Call>)
    requires Disciplined(tick, calls) && Sound(tick.vms, tick.last, tick.floor)
    ensures Sound(tick.vms, Ledger(tick.last, calls), tick.floor)
    decreases |calls|
  {
    hide Disciplined, Pending, Moved, InBounds;
    if calls != [] {
      var n := |calls| - 1;
      Prefix(tick, calls, n);
      SoundLedger(tick, calls[..n]);
    }
  }

  // ----- A tick leaves nothing to do

  /** The snapshot that reports what is on record. */
  function Reporting(vms: map<string, Vm>, last: map<string, int>): map<string, Vm>
  {
    map n | n in vms :: if n in last then vms[n].(reported := Some(last[n])) else vms[n]
  }

  /** Planning again over guests that report the plan gives the same plan. */
  lemma PlanIsStable(vms: map<string, Vm>, pending: set<string>, before: map<string, int>, last: map<string, int>,
                     latched: bool, deficit: int, floor: int)
    requires floor >= 0 && pending * vms.Keys == {}
    requires var plan := Planned(vms, pending, before, latched, deficit, floor);
      forall n :: n in plan ==> n in last && last[n] == plan[n]
    ensures Planned(Reporting(vms, last), {}, last, latched, deficit, floor) ==
      Planned(vms, pending, before, latched, deficit, floor)
  {
    PlannedKeys(vms, pending, before, latched, deficit, floor);
    PlannedKeys(Reporting(vms, last), {}, last, latched, deficit, floor);
    SameSizes(vms, pending, last);
    hide Plan.Targets, ActiveSizes;
  }

  lemma SameSizes(vms: map<string, Vm>, pending: set<string>, last: map<string, int>)
    requires pending * vms.Keys == {}
    ensures ActiveSizes(Reporting(vms, last), {}) == ActiveSizes(vms, pending)
  {
    assert forall n :: n in vms ==> n !in pending by {
      assert forall n :: n in vms && n in pending ==> n in pending * vms.Keys;
    }
  }

  lemma ReportingSound(vms: map<string, Vm>, last: map<string, int>, floor: int)
    requires Sound(vms, last, floor)
    ensures Sound(Reporting(vms, last), last, floor)
  {
  }

  lemma LatchTwice(latched: bool, s: Sample)
    ensures Latch(Latch(latched, s), s) == Latch(latched, s)
  {
  }

  lemma NothingToDo(c: Controller, tick: Tick, calls: seq<Call>, k: nat, pending: set<string>, plan: map<string, int>)
    requires LastPlan(tick, calls, k, pending, plan) && pending * tick.vms.Keys == {} && c.devicePending == {}
    requires forall n :: n in plan ==> n in c.last && c.last[n] == plan[n]
    ensures tick.floor >= 0 && c.AtRest(Reporting(tick.vms, c.last), tick.latched, tick.deficit, tick.floor)
  {
    var before := Ledger(tick.last, calls[..k]);
    hide Planned, Ledger;
    PlanIsStable(tick.vms, pending, before, c.last, tick.latched, tick.deficit, tick.floor);
    assert c.devicePending * Reporting(tick.vms, c.last).Keys == {};
  }

  /** A tick in which every guest asked accepts, none waits and every device is up leaves nothing to
      do: the next one, with the same reading and a snapshot of what was accepted, asks nobody. */
  method TickTwice(c: Controller, vms: map<string, Vm>, sample: Sample, reserveMiB: int, floorMiB: int, holdMiB: int,
                   now: int, later: int)
    returns (ghost first: seq<Call>, ghost plan: map<string, int>, ghost k: nat, ghost rested: bool, ghost mid: Books)
    requires floorMiB >= 0 && Sound(vms, c.last, floorMiB)
    modifies c
    ensures var deficit := Deficit(sample, reserveMiB, holdMiB, c.deadbandMiB);
      var holds := HoldSets(sample, reserveMiB, holdMiB, c.deadbandMiB);
      var latched := Latch(old(c.pressureLatched), sample);
      var tick := Tick(vms, old(c.last), old(c.devicePending), latched, deficit, floorMiB);
      && Disciplined(tick, first) && LastPlan(tick, first, k, Pending(tick.pending, first), plan)
      && mid.last == Restrict(Ledger(tick.last, first), vms.Keys)
      && (rested ==>
            && old(c.InDeadband(deficit, holds)) && (forall i :: 0 <= i < |first| ==> first[i].phase == Probe)
            && Changed(mid.last, vms, plan) && Filed(mid.last, mid.retry, vms, plan))
      && (!rested ==> forall n :: n in plan ==> DealtWith(mid, first, n, plan[n], c.Timed(holds, now)))
    ensures !rested && AllAccepted(first) && Pending(old(c.devicePending), first) * vms.Keys == {}
            && (HoldSets(sample, reserveMiB, holdMiB, c.deadbandMiB)
              || forall n :: n in vms ==> !old(c.InWindow(n, now))) ==>
      c.calls == []
  {
    hide *;
    ghost var tick;
    ghost var windows := forall n :: n in vms ==> !c.InWindow(n, now);
    ghost var pending := c.devicePending;
    LatchTwice(c.pressureLatched, sample);
    var broke;
    broke, tick, plan, k, rested := c.Reconcile(vms, sample, reserveMiB, floorMiB, holdMiB, now);
    first, mid := c.calls, c.Files();
    c.FilesAre();
    ReportingSound(vms, c.last, floorMiB);
    if !rested && AllAccepted(first) && Pending(pending, first) * vms.Keys == {}
       && (HoldSets(sample, reserveMiB, holdMiB, c.deadbandMiB) || windows) {
      NothingToDo(c, tick, first, k, Pending(pending, first), plan);
    }
    ghost var tick2, plan2, k2, rested2;
    var seen := Reporting(vms, c.last);
    broke, tick2, plan2, k2, rested2 := c.Reconcile(seen, sample, reserveMiB, floorMiB, holdMiB, later);
  }
}
