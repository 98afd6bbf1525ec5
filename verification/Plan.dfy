/** The water-filling memory allocator of internal/balloon/plan.go. */
module Plan {
  import opened Totals

  datatype Node = Node(name: string, configuredMiB: int)

  ghost predicate DistinctNames(nodes: seq<Node>)
  {
    forall i, j :: 0 <= i < j < |nodes| ==> nodes[i].name != nodes[j].name
  }

  /** Size by name; the allocator's input as a set of nodes, order forgotten. */
  ghost function Sizes(nodes: seq<Node>): map<string, int>
  {
    if nodes == [] then map[]
    else Sizes(nodes[..|nodes| - 1])[nodes[|nodes| - 1].name := nodes[|nodes| - 1].configuredMiB]
  }

  lemma OneMoreNode(nodes: seq<Node>, node: Node)
    requires DistinctNames(nodes) && forall i :: 0 <= i < |nodes| ==> nodes[i].name != node.name
    ensures DistinctNames(nodes + [node]) && Sizes(nodes + [node]) == Sizes(nodes)[node.name := node.configuredMiB]
  {
    assert (nodes + [node])[..|nodes|] == nodes;
  }

  /** The allocator between two rounds: the targets so far, the nodes still above
      the floor with their configured sizes, and what is left to reclaim. */
  datatype Pool = Pool(targets: map<string, int>, active: map<string, int>, remaining: int)

  function Min(a: int, b: int): int { if a <= b then a else b }

  function Share(remaining: int, size: int, weight: int): int
    requires weight > 0
  {
    remaining * size / weight
  }

  /** Where one node lands after giving its share, clamped at the floor. */
  function Landing(target: int, share: int, floor: int): int
  {
    if target - share <= floor then floor else target - share
  }

  ghost predicate Runnable(p: Pool)
  {
    && p.active.Keys <= p.targets.Keys
    && Total(p.active) > 0
  }

  ghost function Gives(p: Pool, n: string): int
    requires Runnable(p) && n in p.active
  {
    Share(p.remaining, p.active[n], Total(p.active))
  }

  ghost function Landed(p: Pool, floor: int): map<string, int>
    requires Runnable(p)
  {
    map n | n in p.targets ::
      if n in p.active then Landing(p.targets[n], Gives(p, n), floor) else p.targets[n]
  }

  ghost function StillActive(p: Pool, floor: int): map<string, int>
    requires Runnable(p)
  {
    map n | n in p.active && p.targets[n] - Gives(p, n) > floor :: p.active[n]
  }

  /** One round over all active nodes at once: every share is taken of the same
      remaining amount and weight, so no order of processing can matter. */
  ghost function Round(p: Pool, floor: int): Pool
    requires Runnable(p)
  {
    Pool(Landed(p, floor), StillActive(p, floor), p.remaining - (Total(p.targets) - Total(Landed(p, floor))))
  }

  ghost predicate Good(sizes: map<string, int>, floor: int, p: Pool)
  {
    && floor >= 0
    && p.targets.Keys == sizes.Keys
    && p.active.Keys <= sizes.Keys
    && (forall n :: n in p.active ==> p.active[n] == sizes[n] && floor < p.targets[n] <= sizes[n])
    && (forall n :: n in sizes && n !in p.active ==> p.targets[n] == Min(sizes[n], floor))
  }

  lemma GoodIsRunnable(sizes: map<string, int>, floor: int, p: Pool)
    requires Good(sizes, floor, p) && p.active != map[]
    ensures Runnable(p)
  {
    TotalPositive(p.active);
  }

  lemma ShareNonNegative(remaining: int, size: int, weight: int)
    requires weight > 0 && remaining >= 0 && size >= 0
    ensures Share(remaining, size, weight) >= 0
  {
    assert remaining * size >= 0;
  }

  lemma RoundIsGood(sizes: map<string, int>, floor: int, p: Pool)
    requires Good(sizes, floor, p) && p.active != map[] && p.remaining >= 0
    ensures Runnable(p)
    ensures Good(sizes, floor, Round(p, floor))
    ensures Round(p, floor).active.Keys <= p.active.Keys
    ensures Round(p, floor).active != p.active ==> |Round(p, floor).active| < |p.active|
  {
    GoodIsRunnable(sizes, floor, p);
    var q := Round(p, floor);
    forall n | n in q.active
      ensures q.active[n] == sizes[n] && floor < q.targets[n] <= sizes[n]
    {
      ShareNonNegative(p.remaining, p.active[n], Total(p.active));
    }
    assert q.active.Keys == p.active.Keys ==> q.active == p.active;
    if q.active != p.active {
      SmallerMap(q.active, p.active);
    }
  }

  /** What the rounds come to: the allocator as a function of the set of nodes. */
  ghost function Fill(sizes: map<string, int>, floor: int, p: Pool): map<string, int>
    requires Good(sizes, floor, p)
    decreases |p.active|
  {
    if p.remaining <= 0 || p.active == map[] then p.targets
    else
      RoundIsGood(sizes, floor, p);
      var q := Round(p, floor);
      if q.active == p.active then q.targets else Fill(sizes, floor, q)
  }

  ghost function AboveFloor(sizes: map<string, int>, floor: int): map<string, int>
  {
    map n | n in sizes && sizes[n] > floor :: sizes[n]
  }

  ghost function Start(sizes: map<string, int>, deficit: int, floor: int): Pool
  {
    Pool(sizes, AboveFloor(sizes, floor), deficit)
  }

  /** The target of every node, from the set of nodes alone. */
  ghost function Targets(sizes: map<string, int>, deficit: int, floor: int): map<string, int>
    requires floor >= 0
  {
    Fill(sizes, floor, Start(sizes, deficit, floor))
  }

  // ----- What one round takes

  ghost function Shares(active: map<string, int>, remaining: int, weight: int): map<string, int>
    requires weight > 0
  {
    map n | n in active :: Share(remaining, active[n], weight)
  }

  lemma ShareBounds(remaining: int, size: int, weight: int)
    requires weight > 0
    ensures remaining * size - weight < Share(remaining, size, weight) * weight <= remaining * size
  {
  }

  lemma SplitShares(active: map<string, int>, remaining: int, weight: int, n: string)
    requires weight > 0 && n in active
    ensures Total(active) == active[n] + Total(active - {n})
    ensures Total(Shares(active, remaining, weight))
         == Share(remaining, active[n], weight) + Total(Shares(active - {n}, remaining, weight))
    ensures |active| == |active - {n}| + 1
  {
    var shares := Shares(active, remaining, weight);
    TotalRemove(active, n);
    TotalRemove(shares, n);
    assert shares - {n} == Shares(active - {n}, remaining, weight);
  }

  /** Integer division loses less than one unit of weight per node. */
  ghost predicate Apportioned(shares: int, sizes: int, count: int, remaining: int, weight: int)
  {
    remaining * sizes - count * (weight - 1) <= shares * weight <= remaining * sizes
  }

  lemma {:induction false} SharesBounds(active: map<string, int>, remaining: int, weight: int)
    requires weight > 0
    ensures Apportioned(Total(Shares(active, remaining, weight)), Total(active), |active|, remaining, weight)
    decreases |active|
  {
    if active == map[] {
      assert Shares(active, remaining, weight) == map[];
    } else {
      var n :| n in active;
      var rest := active - {n};
      SplitShares(active, remaining, weight, n);
      SharesBounds(rest, remaining, weight);
      AddBounds(remaining, active[n], Total(rest), Total(Shares(rest, remaining, weight)), |rest|, weight);
    }
  }

  lemma AddBounds(remaining: int, size: int, sizes: int, shares: int, count: int, weight: int)
    requires weight > 0 && Apportioned(shares, sizes, count, remaining, weight)
    ensures Apportioned(Share(remaining, size, weight) + shares, size + sizes, count + 1, remaining, weight)
  {
    var share := Share(remaining, size, weight);
    ShareBounds(remaining, size, weight);
    assert (share + shares) * weight == share * weight + shares * weight;
    assert remaining * (size + sizes) == remaining * size + remaining * sizes;
    assert (count + 1) * (weight - 1) == count * (weight - 1) + weight - 1;
  }

  lemma ProductSign(d: int, weight: int)
    requires weight > 0
    ensures d > 0 ==> d * weight > 0
    ensures d >= 0 ==> d * weight >= 0
  {
  }

  lemma CancelWeight(shares: int, remaining: int, count: int, weight: int)
    requires weight > 0 && count > 0
    requires Apportioned(shares, weight, count, remaining, weight)
    ensures shares <= remaining < shares + count
  {
    ProductSign(shares - remaining, weight);
    assert (shares - remaining) * weight == shares * weight - remaining * weight;
    ProductSign(remaining - shares - count, weight);
    assert (remaining - shares - count) * weight == remaining * weight - shares * weight - count * weight;
    assert count * (weight - 1) == count * weight - count;
  }

  /** All shares of a round together: at most what remains, and short of it by
      less than one MiB per active node. */
  lemma RoundShares(active: map<string, int>, remaining: int)
    requires active != map[] && Total(active) > 0
    ensures Total(Shares(active, remaining, Total(active))) <= remaining
    ensures remaining < Total(Shares(active, remaining, Total(active))) + |active|
  {
    var weight := Total(active);
    SharesBounds(active, remaining, weight);
    CancelWeight(Total(Shares(active, remaining, weight)), remaining, |active|, weight);
  }

  /** Splits what a round takes into the shares of the nodes it visits. */
  lemma {:induction false} TakenIsShares(before: map<string, int>, after: map<string, int>, shares: map<string, int>)
    requires before.Keys == after.Keys && shares.Keys <= before.Keys
    requires forall n :: n in before && n !in shares ==> after[n] == before[n]
    requires forall n :: n in shares ==> before[n] - after[n] <= shares[n]
    ensures Total(before) - Total(after) <= Total(shares)
    ensures (forall n :: n in shares ==> before[n] - after[n] == shares[n]) ==>
      Total(before) - Total(after) == Total(shares)
    decreases |shares|
  {
    if shares == map[] {
      assert before == after;
    } else {
      var n :| n in shares;
      var middle := after[n := before[n]];
      TotalUpdate(after, n, before[n]);
      TotalRemove(shares, n);
      assert |shares - {n}| < |shares|;
      TakenIsShares(before, middle, shares - {n});
    }
  }

  lemma RoundTakes(sizes: map<string, int>, floor: int, p: Pool)
    requires Good(sizes, floor, p) && p.active != map[] && p.remaining > 0
    ensures Runnable(p)
    ensures Round(p, floor).remaining >= 0
    ensures Round(p, floor).active == p.active ==> Round(p, floor).remaining < |p.active|
  {
    GoodIsRunnable(sizes, floor, p);
    var q := Round(p, floor);
    var shares := Shares(p.active, p.remaining, Total(p.active));
    RoundShares(p.active, p.remaining);
    TakenIsShares(p.targets, q.targets, shares);
    if q.active == p.active {
      assert forall n :: n in shares ==> p.targets[n] - q.targets[n] == shares[n] by {
        forall n | n in shares ensures p.targets[n] - q.targets[n] == shares[n] {
          assert n in q.active;
        }
      }
    }
  }

  // ----- The allocator's promises

  /** The nodes still strictly above the floor. */
  ghost function Spare(targets: map<string, int>, floor: int): map<string, int>
  {
    map n | n in targets && targets[n] > floor :: targets[n]
  }

  ghost predicate AllDrained(sizes: map<string, int>, targets: map<string, int>, floor: int)
    requires targets.Keys == sizes.Keys
  {
    forall n :: n in sizes ==> targets[n] == Min(sizes[n], floor)
  }

  lemma SpareIsActive(sizes: map<string, int>, floor: int, p: Pool)
    requires Good(sizes, floor, p)
    ensures |Spare(p.targets, floor)| == |p.active|
  {
    assert Spare(p.targets, floor).Keys == p.active.Keys;
    assert |Spare(p.targets, floor)| == |Spare(p.targets, floor).Keys| == |p.active.Keys| == |p.active|;
  }

  lemma {:induction false} FillPromise(sizes: map<string, int>, floor: int, p: Pool, deficit: int)
    requires Good(sizes, floor, p) && p.remaining >= 0
    requires p.remaining + Total(sizes) - Total(p.targets) == deficit
    ensures var t := Fill(sizes, floor, p);
      && t.Keys == sizes.Keys
      && (forall n :: n in sizes ==> Min(sizes[n], floor) <= t[n] <= sizes[n])
      && Total(sizes) - Total(t) <= deficit
      && (AllDrained(sizes, t, floor) || deficit < Total(sizes) - Total(t) + |Spare(t, floor)|)
    decreases |p.active|
  {
    if p.active == map[] {
      assert AllDrained(sizes, p.targets, floor);
    } else if p.remaining == 0 {
      SpareIsActive(sizes, floor, p);
    } else {
      RoundIsGood(sizes, floor, p);
      RoundTakes(sizes, floor, p);
      var q := Round(p, floor);
      if q.active == p.active {
        SpareIsActive(sizes, floor, q);
      } else {
        FillPromise(sizes, floor, q, deficit);
      }
    }
  }

  /** Every plan stays between the floor and the configured sizes, never reclaims
      more than the deficit, and unless it drained every node to its floor it falls
      short by less than one MiB per node still above it. */
  lemma TargetsPromise(sizes: map<string, int>, deficit: int, floor: int)
    requires floor >= 0
    ensures var t := Targets(sizes, deficit, floor);
      && t.Keys == sizes.Keys
      && (forall n :: n in sizes ==> Min(sizes[n], floor) <= t[n] <= sizes[n])
      && 0 <= Total(sizes) - Total(t) <= (if deficit <= 0 then 0 else deficit)
      && (deficit <= 0 || AllDrained(sizes, t, floor) || deficit < Total(sizes) - Total(t) + |Spare(t, floor)|)
  {
    if deficit > 0 {
      FillPromise(sizes, floor, Start(sizes, deficit, floor), deficit);
      TotalMonotone(Targets(sizes, deficit, floor), sizes);
    }
  }

  /** Two nodes of the same configured size always get the same target. */
  lemma {:induction false} EqualSizesFill(sizes: map<string, int>, floor: int, p: Pool, a: string, b: string)
    requires Good(sizes, floor, p) && a in sizes && b in sizes && sizes[a] == sizes[b]
    requires p.targets[a] == p.targets[b] && (a in p.active <==> b in p.active)
    ensures Fill(sizes, floor, p).Keys == sizes.Keys
    ensures Fill(sizes, floor, p)[a] == Fill(sizes, floor, p)[b]
    decreases |p.active|
  {
    if p.remaining > 0 && p.active != map[] {
      RoundIsGood(sizes, floor, p);
      if Round(p, floor).active != p.active {
        EqualSizesFill(sizes, floor, Round(p, floor), a, b);
      }
    }
  }

  lemma EqualSizesEqualTargets(sizes: map<string, int>, deficit: int, floor: int, a: string, b: string)
    requires floor >= 0 && a in sizes && b in sizes && sizes[a] == sizes[b]
    ensures Targets(sizes, deficit, floor).Keys == sizes.Keys
    ensures Targets(sizes, deficit, floor)[a] == Targets(sizes, deficit, floor)[b]
  {
    EqualSizesFill(sizes, floor, Start(sizes, deficit, floor), a, b);
  }

  // ----- Proportionality

  lemma CrossShares(remaining: int, a: int, b: int, weight: int)
    requires weight > 0 && a > 0 && b > 0
    ensures Share(remaining, a, weight) * b - Share(remaining, b, weight) * a <= a
  {
    var x, y := Share(remaining, a, weight), Share(remaining, b, weight);
    ShareBounds(remaining, a, weight);
    ShareBounds(remaining, b, weight);
    Scale(x * weight, remaining * a, b);
    Scale(remaining * b - weight, y * weight, a);
    assert x * weight * b == (x * b) * weight;
    assert y * weight * a == (y * a) * weight;
    assert remaining * a * b == remaining * b * a;
    assert (remaining * b - weight) * a == remaining * b * a - weight * a;
    ProductSign(x * b - y * a - a, weight);
    assert (x * b - y * a - a) * weight == (x * b) * weight - (y * a) * weight - a * weight;
  }

  lemma Scale(x: int, y: int, k: int)
    requires x <= y && k >= 0
    ensures x * k <= y * k
  {
  }

  /** How much more than its proportion of b's reclaim a has given, scaled by both sizes. */
  ghost function Excess(sizes: map<string, int>, targets: map<string, int>, a: string, b: string): int
    requires a in sizes && b in sizes && a in targets && b in targets
  {
    (sizes[a] - targets[a]) * sizes[b] - (sizes[b] - targets[b]) * sizes[a]
  }

  /** The arithmetic of one round on the excess of a over b. */
  lemma ExcessStep(a: int, b: int, givenA: int, givenB: int, x: int, y: int, moreA: int)
    requires moreA <= x && b > 0
    requires x * b - y * a <= a
    ensures (givenA + moreA) * b - (givenB + y) * a <= givenA * b - givenB * a + a
  {
    Scale(moreA, x, b);
    assert (givenA + moreA) * b == givenA * b + moreA * b;
    assert (givenB + y) * a == givenB * a + y * a;
  }

  lemma RoundCross(sizes: map<string, int>, floor: int, p: Pool, a: string, b: string) returns (x: int, y: int)
    requires Good(sizes, floor, p) && p.remaining > 0 && a in sizes && b in p.active && sizes[a] > floor
    requires Runnable(p) && b in Round(p, floor).active
    ensures Round(p, floor).targets[b] == p.targets[b] - y
    ensures p.targets[a] - Round(p, floor).targets[a] <= x
    ensures x * sizes[b] - y * sizes[a] <= sizes[a]
  {
    var weight := Total(p.active);
    y := Share(p.remaining, sizes[b], weight);
    if a in p.active {
      x := Share(p.remaining, sizes[a], weight);
      CrossShares(p.remaining, sizes[a], sizes[b], weight);
    } else {
      x := 0;
      ShareNonNegative(p.remaining, sizes[b], weight);
      Scale(0, y, sizes[a]);
    }
  }

  lemma RoundExcess(sizes: map<string, int>, floor: int, p: Pool, a: string, b: string)
    requires Good(sizes, floor, p) && p.remaining > 0 && a in sizes && b in p.active && sizes[a] > floor
    requires Runnable(p) && b in Round(p, floor).active
    ensures Excess(sizes, Round(p, floor).targets, a, b) <= Excess(sizes, p.targets, a, b) + sizes[a]
  {
    var q := Round(p, floor);
    var x, y := RoundCross(sizes, floor, p, a, b);
    ExcessStep(sizes[a], sizes[b], sizes[a] - p.targets[a], sizes[b] - p.targets[b], x, y, p.targets[a] - q.targets[a]);
  }

  lemma {:induction false} FillExcess(sizes: map<string, int>, floor: int, p: Pool, a: string, b: string, bound: int)
    requires Good(sizes, floor, p) && p.remaining >= 0 && a in sizes && b in sizes && sizes[a] > floor
    requires Fill(sizes, floor, p).Keys == sizes.Keys && Fill(sizes, floor, p)[b] > floor
    requires Excess(sizes, p.targets, a, b) <= bound * sizes[a]
    ensures Excess(sizes, Fill(sizes, floor, p), a, b) <= (bound + |p.active|) * sizes[a]
    decreases |p.active|
  {
    hide Total, Landed, StillActive, Excess;
    if p.remaining == 0 || p.active == map[] {
      Scale(bound, bound + |p.active|, sizes[a]);
    } else {
      RoundIsGood(sizes, floor, p);
      RoundTakes(sizes, floor, p);
      var q := Round(p, floor);
      StaysActive(sizes, floor, q, b);
      assert b in q.active;
      RoundExcess(sizes, floor, p, a, b);
      assert (bound + 1) * sizes[a] == bound * sizes[a] + sizes[a];
      if q.active == p.active {
        assert |p.active| >= 1;
        Scale(bound + 1, bound + |p.active|, sizes[a]);
      } else {
        FillExcess(sizes, floor, q, a, b, bound + 1);
        Scale(bound + 1 + |q.active|, bound + |p.active|, sizes[a]);
      }
    }
  }

  /** A node that leaves the pool never comes back above the floor. */
  lemma {:induction false} StaysActive(sizes: map<string, int>, floor: int, p: Pool, b: string)
    requires Good(sizes, floor, p) && b in sizes
    ensures Fill(sizes, floor, p).Keys == sizes.Keys
    ensures b !in p.active ==> Fill(sizes, floor, p)[b] <= floor
    decreases |p.active|
  {
    if p.remaining > 0 && p.active != map[] {
      RoundIsGood(sizes, floor, p);
      if Round(p, floor).active != p.active {
        StaysActive(sizes, floor, Round(p, floor), b);
      }
    }
  }

  /** Distribution is in proportion to size: against any node b left above the floor,
      no node a gives more than b's proportion by more than one MiB per node that
      started above the floor. A clamped a may give less; nobody may give more. */
  lemma Proportional(sizes: map<string, int>, deficit: int, floor: int, a: string, b: string)
    requires floor >= 0 && a in sizes && b in sizes && sizes[a] > floor
    ensures var t := Targets(sizes, deficit, floor);
      && t.Keys == sizes.Keys
      && (t[b] > floor ==>
            (sizes[a] - t[a]) * sizes[b] <= (sizes[b] - t[b] + |AboveFloor(sizes, floor)|) * sizes[a])
  {
    hide Total, Round;
    var p := Start(sizes, deficit, floor);
    var t := Targets(sizes, deficit, floor);
    StaysActive(sizes, floor, p, b);
    if deficit <= 0 {
      assert t == sizes;
      Scale(0, |AboveFloor(sizes, floor)|, sizes[a]);
    } else if t[b] > floor {
      FillExcess(sizes, floor, p, a, b, 0);
      assert (sizes[b] - t[b] + |p.active|) * sizes[a] == (sizes[b] - t[b]) * sizes[a] + |p.active| * sizes[a];
    }
  }

  // ----- What one node gives

  /** What a node gives from here on: in each round it takes part in, its share of what remains, at
      most what it still has above the floor. */
  ghost function GivenFrom(sizes: map<string, int>, floor: int, p: Pool, n: string): int
    requires Good(sizes, floor, p) && n in sizes
    decreases |p.active|
  {
    if p.remaining <= 0 || n !in p.active then 0
    else
      RoundIsGood(sizes, floor, p);
      var q := Round(p, floor);
      Min(Gives(p, n), p.targets[n] - floor) + if q.active == p.active then 0 else GivenFrom(sizes, floor, q, n)
  }

  ghost function Given(sizes: map<string, int>, deficit: int, floor: int, n: string): int
    requires floor >= 0 && n in sizes
  {
    GivenFrom(sizes, floor, Start(sizes, deficit, floor), n)
  }

  lemma {:induction false} FillGives(sizes: map<string, int>, floor: int, p: Pool, n: string)
    requires Good(sizes, floor, p) && n in sizes
    ensures n in Fill(sizes, floor, p) && Fill(sizes, floor, p)[n] == p.targets[n] - GivenFrom(sizes, floor, p, n)
    decreases |p.active|
  {
    if p.remaining > 0 && p.active != map[] {
      RoundIsGood(sizes, floor, p);
      var q := Round(p, floor);
      hide Total;
      if q.active != p.active {
        FillGives(sizes, floor, q, n);
      }
    }
  }

  /** Every target is the size less what the node gives over the rounds. */
  lemma TargetsAreGiven(sizes: map<string, int>, deficit: int, floor: int, n: string)
    requires floor >= 0 && n in sizes
    ensures var t := Targets(sizes, deficit, floor); n in t && t[n] == sizes[n] - Given(sizes, deficit, floor, n)
  {
    FillGives(sizes, floor, Start(sizes, deficit, floor), n);
  }

  // ----- The plan when nobody reaches the floor

  /** What a node gives in the first round; nodes at or below the floor give nothing. */
  ghost function FirstShare(sizes: map<string, int>, deficit: int, floor: int, n: string): int
  {
    var above := AboveFloor(sizes, floor);
    if n in above && Total(above) > 0 then Share(deficit, above[n], Total(above)) else 0
  }

  /** The first round takes no node to the floor. */
  ghost predicate NobodyClamped(sizes: map<string, int>, deficit: int, floor: int)
  {
    forall n :: n in AboveFloor(sizes, floor) ==> sizes[n] - FirstShare(sizes, deficit, floor, n) > floor
  }

  /** Then one round is the whole plan, and each target is a closed formula. */
  lemma UnclampedTargets(sizes: map<string, int>, deficit: int, floor: int, n: string)
    requires floor >= 0 && deficit > 0 && NobodyClamped(sizes, deficit, floor) && n in sizes
    ensures var t := Targets(sizes, deficit, floor); n in t && t[n] == sizes[n] - FirstShare(sizes, deficit, floor, n)
  {
    var p := Start(sizes, deficit, floor);
    if p.active != map[] {
      GoodIsRunnable(sizes, floor, p);
      hide Total;
      assert StillActive(p, floor) == p.active;
    }
  }

  // ----- The loops

  lemma {:induction false} SizesLookup(nodes: seq<Node>)
    requires DistinctNames(nodes)
    ensures forall n :: n in Sizes(nodes) ==> Node(n, Sizes(nodes)[n]) in nodes
    ensures forall i :: 0 <= i < |nodes| ==>
      nodes[i].name in Sizes(nodes) && Sizes(nodes)[nodes[i].name] == nodes[i].configuredMiB
  {
    if nodes != [] {
      SizesLookup(nodes[..|nodes| - 1]);
    }
  }

  /** The order in which the nodes are listed changes no target. */
  lemma OrderIrrelevant(nodes: seq<Node>, permuted: seq<Node>, deficit: int, floor: int)
    requires DistinctNames(nodes) && DistinctNames(permuted) && floor >= 0
    requires multiset(nodes) == multiset(permuted)
    ensures Targets(Sizes(nodes), deficit, floor) == Targets(Sizes(permuted), deficit, floor)
  {
    SizesLookup(nodes);
    SizesLookup(permuted);
    assert forall x :: x in nodes <==> x in multiset(nodes);
    assert forall x :: x in permuted <==> x in multiset(permuted);
    assert Sizes(nodes) == Sizes(permuted);
  }

  method Weigh(active: map<string, int>) returns (weight: int)
    ensures weight == Total(active)
  {
    weight := 0;
    var todo := active;
    while todo != map[]
      invariant weight + Total(todo) == Total(active)
      decreases |todo|
    {
      var n :| n in todo;
      TotalRemove(todo, n);
      weight := weight + todo[n];
      todo := todo - {n};
    }
  }

  /** The round half done: the given names still to be visited. */
  ghost function MidTargets(p: Pool, floor: int, names: set<string>): map<string, int>
    requires Runnable(p)
  {
    map n | n in p.targets :: if n in names then p.targets[n] else Landed(p, floor)[n]
  }

  ghost function MidActive(p: Pool, floor: int, names: set<string>): map<string, int>
    requires Runnable(p)
  {
    map n | n in p.active && (n in names || n in StillActive(p, floor)) :: p.active[n]
  }

  lemma Visit(p: Pool, floor: int, names: set<string>, name: string)
    requires Runnable(p) && names <= p.active.Keys && name in names
    ensures var to := Landing(p.targets[name], Gives(p, name), floor);
      && name in MidTargets(p, floor, names) && MidTargets(p, floor, names)[name] == p.targets[name]
      && MidTargets(p, floor, names - {name}) == MidTargets(p, floor, names)[name := to]
      && Total(MidTargets(p, floor, names - {name})) == Total(MidTargets(p, floor, names)) - p.targets[name] + to
    ensures name in MidActive(p, floor, names) && MidActive(p, floor, names)[name] == p.active[name]
    ensures MidActive(p, floor, names - {name})
         == if p.targets[name] - Gives(p, name) <= floor then MidActive(p, floor, names) - {name}
           else MidActive(p, floor, names)
  {
    TotalUpdate(MidTargets(p, floor, names), name, Landing(p.targets[name], Gives(p, name), floor));
  }

  lemma RoundEnds(p: Pool, floor: int)
    requires Runnable(p)
    ensures MidTargets(p, floor, p.active.Keys) == p.targets && MidActive(p, floor, p.active.Keys) == p.active
    ensures MidTargets(p, floor, {}) == Landed(p, floor) && MidActive(p, floor, {}) == StillActive(p, floor)
  {
  }

  /** One pass over the active names, in whatever order they come. */
  method RunRound(pool: Pool, floor: int) returns (next: Pool, clamped: bool)
    requires Runnable(pool)
    ensures next == Round(pool, floor)
    ensures clamped <==> next.active != pool.active
  {
    var targets, active := pool.targets, pool.active;
    var weight := Weigh(active);
    clamped := false;
    var distributed := 0;
    var names := active.Keys;
    RoundEnds(pool, floor);
    while names != {}
      invariant names <= pool.active.Keys
      invariant targets == MidTargets(pool, floor, names)
      invariant active == MidActive(pool, floor, names)
      invariant distributed == Total(pool.targets) - Total(targets)
      invariant clamped <==> active != pool.active
    {
      var name :| name in names;
      Visit(pool, floor, names, name);
      var share := Share(pool.remaining, active[name], weight);
      var target := targets[name] - share;
      if target <= floor {
        distributed := distributed + (targets[name] - floor);
        targets := targets[name := floor];
        active := active - {name};
        clamped := true;
        assert name !in active;
      } else {
        targets := targets[name := target];
        distributed := distributed + share;
      }
      names := names - {name};
    }
    next := Pool(targets, active, pool.remaining - distributed);
  }

  method Collect(nodes: seq<Node>, floorMiB: int) returns (targets: map<string, int>, active: map<string, int>)
    requires DistinctNames(nodes)
    ensures targets == Sizes(nodes)
    ensures active == AboveFloor(Sizes(nodes), floorMiB)
  {
    targets, active := map[], map[];
    for i := 0 to |nodes|
      invariant targets == Sizes(nodes[..i])
      invariant active == AboveFloor(Sizes(nodes[..i]), floorMiB)
    {
      var n := nodes[i];
      assert nodes[..i + 1][..i] == nodes[..i];
      assert Sizes(nodes[..i + 1]) == Sizes(nodes[..i])[n.name := n.configuredMiB];
      assert n.name !in Sizes(nodes[..i]) by { SizesLookup(nodes[..i]); }
      targets := targets[n.name := n.configuredMiB];
      if n.configuredMiB > floorMiB {
        active := active[n.name := n.configuredMiB];
      }
    }
    assert nodes[..|nodes|] == nodes;
  }

  method PlanTargets(nodes: seq<Node>, deficitMiB: int, floorMiB: int) returns (targets: map<string, int>)
    requires DistinctNames(nodes) && floorMiB >= 0
    ensures targets == Targets(Sizes(nodes), deficitMiB, floorMiB)
  {
    ghost var sizes := Sizes(nodes);
    var active;
    targets, active := Collect(nodes, floorMiB);
    if deficitMiB <= 0 {
      return;
    }
    var pool := Pool(targets, active, deficitMiB);
    while pool.remaining > 0 && pool.active != map[]
      invariant Good(sizes, floorMiB, pool)
      invariant Fill(sizes, floorMiB, pool) == Targets(sizes, deficitMiB, floorMiB)
      decreases |pool.active|
    {
      RoundIsGood(sizes, floorMiB, pool);
      var next, clamped := RunRound(pool, floorMiB);
      if !clamped {
        return next.targets;
      }
      pool := next;
    }
    return pool.targets;
  }
}
