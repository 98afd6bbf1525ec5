/** Routes learned over BGP and the host's forwarding table: internal/bgp/reconcile.go. */
module Bgp {
  datatype Route = Route(prefix: string, nexthop: string)

  datatype Call = AddCall(prefix: string, nexthop: string, ok: bool) | DeleteCall(prefix: string, ok: bool)

  // ----- The desired routes

  /** The desired routes by prefix; of several with one prefix the last one counts. */
  function Want(desired: seq<Route>): (want: map<string, string>)
    ensures forall p :: p in want <==> exists i :: 0 <= i < |desired| && desired[i].prefix == p
  {
    if desired == [] then map[]
    else
      var last := desired[|desired| - 1];
      Want(desired[..|desired| - 1])[last.prefix := last.nexthop]
  }

  lemma {:induction false} LastWins(desired: seq<Route>, i: nat)
    requires i < |desired| && forall j :: i < j < |desired| ==> desired[j].prefix != desired[i].prefix
    ensures desired[i].prefix in Want(desired) && Want(desired)[desired[i].prefix] == desired[i].nexthop
    decreases |desired|
  {
    if i < |desired| - 1 {
      LastWins(desired[..|desired| - 1], i);
    }
  }

  // ----- The forwarding table

  /** The routes this program manages in the host's table. Any call may fail, except that deletions
      do not where the table is reliable. */
  class Fib {
    const reliable: bool
    var routes: map<string, string>
    ghost var calls: seq<Call>
    ghost var stale: set<string>

    constructor (reliable: bool)
      ensures this.reliable == reliable && routes == map[] && calls == [] && stale == {}
    {
      this.reliable := reliable;
      routes, calls, stale := map[], [], {};
    }

    method AddHostRoute(prefix: string, nexthop: string) returns (ok: bool)
      modifies this
      ensures routes == if ok then old(routes)[prefix := nexthop] else old(routes)
      ensures calls == old(calls) + [AddCall(prefix, nexthop, ok)] && stale == old(stale)
    {
      ok := *;
      if ok {
        routes := routes[prefix := nexthop];
      }
      calls := calls + [AddCall(prefix, nexthop, ok)];
    }

    method DeleteHostRoute(prefix: string) returns (ok: bool)
      modifies this
      ensures reliable ==> ok
      ensures routes == if ok then old(routes) - {prefix} else old(routes)
      ensures calls == old(calls) + [DeleteCall(prefix, ok)]
      ensures stale == if ok then old(stale) else old(stale) + {prefix}
    {
      ok := *;
      if reliable {
        ok := true;
      }
      if ok {
        routes := routes - {prefix};
      } else {
        stale := stale + {prefix};
      }
      calls := calls + [DeleteCall(prefix, ok)];
    }
  }

  // ----- The reconciler

  ghost function At(m: map<string, string>, p: string): seq<string>
  {
    if p in m then [m[p]] else []
  }

  /** Everything recorded as injected is in the table, and the table holds nothing else, except for
      prefixes that once failed to be deleted. */
  ghost predicate Mirrors(injected: map<string, string>, routes: map<string, string>, stale: set<string>)
  {
    && (forall p :: p in injected ==> p in routes && routes[p] == injected[p])
    && (forall p :: p in routes && p !in stale ==> p in injected)
  }

  /** With deletions that succeed, the table and the record are the same map. */
  lemma MirrorsExactly(injected: map<string, string>, routes: map<string, string>)
    requires Mirrors(injected, routes, {})
    ensures routes == injected
  {
    assert routes.Keys == injected.Keys;
  }

  /** The prefix is wanted with the nexthop it already has. */
  ghost predicate Settled(before: map<string, string>, want: map<string, string>, p: string)
  {
    p in before && p in want && before[p] == want[p]
  }

  /** The calls since then, none of them for a settled prefix. */
  ghost predicate Quiet(before: map<string, string>, want: map<string, string>, earlier: seq<Call>, calls: seq<Call>)
  {
    earlier <= calls && forall k :: |earlier| <= k < |calls| ==> !Settled(before, want, calls[k].prefix)
  }

  /** The first loop part done: wanted prefixes that were visited are in the record unless they
      failed, and everything else is as before. */
  ghost predicate Placed(before: map<string, string>, injected: map<string, string>, want: map<string, string>,
                         todo: set<string>, failed: set<string>)
  {
    && failed <= want.Keys && todo <= want.Keys && failed !! todo
    && (forall p :: p in want && p !in todo && p !in failed ==> At(injected, p) == [want[p]])
    && (forall p :: p in failed ==> p !in injected)
    && (forall p :: p !in want || p in todo ==> At(injected, p) == At(before, p))
  }

  lemma PlacedBegins(before: map<string, string>, want: map<string, string>)
    ensures Placed(before, before, want, want.Keys, {})
  {
  }

  lemma PlacedEnds(before: map<string, string>, injected: map<string, string>, want: map<string, string>,
                   failed: set<string>)
    requires Placed(before, injected, want, {}, failed)
    ensures failed <= want.Keys
    ensures forall p :: p in want && p !in failed ==> At(injected, p) == [want[p]]
    ensures forall p :: p in failed ==> p !in injected
    ensures forall p :: p !in want ==> At(injected, p) == At(before, p)
  {
  }

  lemma PlacedAt(before: map<string, string>, injected: map<string, string>, want: map<string, string>,
                 todo: set<string>, failed: set<string>, p: string)
    requires Placed(before, injected, want, todo, failed) && p in todo
    ensures p in want && At(injected, p) == At(before, p)
  {
  }

  lemma PlacedStep(before: map<string, string>, injected: map<string, string>, next: map<string, string>,
                   want: map<string, string>, todo: set<string>, failed: set<string>, prefix: string, ok: bool)
    requires Placed(before, injected, want, todo, failed) && prefix in todo && prefix in want
    requires next == if ok then injected[prefix := want[prefix]] else injected - {prefix}
    ensures Placed(before, next, want, todo - {prefix}, if ok then failed else failed + {prefix})
  {
    assert forall p :: p != prefix ==> At(next, p) == At(injected, p);
  }

  /** The prefixes the table refused to add since then. */
  ghost function FailedAdds(earlier: seq<Call>, calls: seq<Call>): set<string>
  {
    set k | |earlier| <= k < |calls| && calls[k].AddCall? && !calls[k].ok :: calls[k].prefix
  }

  ghost predicate OnlyDeletes(earlier: seq<Call>, calls: seq<Call>)
  {
    earlier <= calls && forall k :: |earlier| <= k < |calls| ==> calls[k].DeleteCall?
  }

  lemma NoCallsYet(before: map<string, string>, want: map<string, string>, calls: seq<Call>)
    ensures FailedAdds(calls, calls) == {} && Quiet(before, want, calls, calls)
  {
  }

  lemma FailedAddsOn(a: seq<Call>, b: seq<Call>, c: seq<Call>)
    requires a <= b <= c
    ensures FailedAdds(a, c) == FailedAdds(a, b) + FailedAdds(b, c)
  {
    forall p | p in FailedAdds(a, b)
      ensures p in FailedAdds(a, c)
    {
      var k :| |a| <= k < |b| && b[k].AddCall? && !b[k].ok && b[k].prefix == p;
      assert c[k] == b[k];
    }
    forall p | p in FailedAdds(a, c) && p !in FailedAdds(b, c)
      ensures p in FailedAdds(a, b)
    {
      var k :| |a| <= k < |c| && c[k].AddCall? && !c[k].ok && c[k].prefix == p;
      assert k < |b| && b[k] == c[k];
    }
  }

  lemma DeletesFailNoAdds(a: seq<Call>, b: seq<Call>)
    requires OnlyDeletes(a, b)
    ensures FailedAdds(a, b) == {}
  {
  }

  lemma QuietOn(before: map<string, string>, want: map<string, string>, a: seq<Call>, b: seq<Call>, c: seq<Call>)
    requires Quiet(before, want, a, b) && Quiet(before, want, b, c)
    ensures Quiet(before, want, a, c)
  {
    forall k | |a| <= k < |c|
      ensures !Settled(before, want, c[k].prefix)
    {
      assert k < |b| ==> c[k] == b[k];
    }
  }

  lemma QuietPrefix(before: map<string, string>, want: map<string, string>, a: seq<Call>, b: seq<Call>)
    requires Quiet(before, want, a, b)
    ensures a <= b
  {
  }

  lemma QuietVisit(before: map<string, string>, want: map<string, string>, a: seq<Call>, b: seq<Call>, prefix: string)
    requires prefix in want && a <= b && forall k :: |a| <= k < |b| ==> b[k].prefix == prefix
    requires At(before, prefix) == [want[prefix]] ==> b == a
    ensures Quiet(before, want, a, b)
  {
  }

  lemma QuietDeletes(before: map<string, string>, want: map<string, string>, a: seq<Call>, b: seq<Call>)
    requires a <= b && forall k :: |a| <= k < |b| ==> b[k].prefix !in want
    ensures Quiet(before, want, a, b)
  {
  }

  class Reconciler {
    const fib: Fib
    var injected: map<string, string>

    constructor (fib: Fib)
      requires fib.routes == map[] && fib.stale == {}
      ensures Valid() && this.fib == fib && injected == map[]
    {
      this.fib := fib;
      injected := map[];
    }

    ghost predicate Valid()
      reads this, fib
    {
      Mirrors(injected, fib.routes, fib.stale) && (fib.reliable ==> fib.stale == {})
    }

    /** The steps for one wanted prefix. */
    method Install(prefix: string, nexthop: string) returns (ok: bool)
      requires Valid()
      modifies `injected, fib
      ensures Valid() && old(fib.stale) <= fib.stale
      ensures ok ==> injected == old(injected)[prefix := nexthop]
      ensures !ok ==> injected == old(injected) - {prefix}
      ensures At(old(injected), prefix) == [nexthop] ==> ok && fib.calls == old(fib.calls)
      ensures At(old(injected), prefix) != [nexthop] ==>
        |fib.calls| > |old(fib.calls)| && fib.calls[|fib.calls| - 1] == AddCall(prefix, nexthop, ok)
      ensures FailedAdds(old(fib.calls), fib.calls) == if ok then {} else {prefix}
      ensures old(fib.calls) <= fib.calls && forall k :: |old(fib.calls)| <= k < |fib.calls| ==>
        fib.calls[k].prefix == prefix
    {
      if prefix in injected && injected[prefix] == nexthop {
        assert injected == injected[prefix := nexthop];
        return true;
      }
      if prefix in injected {
        var _ := fib.DeleteHostRoute(prefix);
        injected := injected - {prefix};
      }
      ok := fib.AddHostRoute(prefix, nexthop);
      if !ok {
        assert injected == old(injected) - {prefix};
        return;
      }
      injected := injected[prefix := nexthop];
    }

    /** The steps for one prefix that is no longer wanted. */
    method Withdraw(prefix: string)
      requires Valid()
      modifies `injected, fib
      ensures Valid() && old(fib.stale) <= fib.stale
      ensures injected == old(injected) - {prefix}
      ensures OnlyDeletes(old(fib.calls), fib.calls) && |fib.calls| == |old(fib.calls)| + 1
      ensures fib.calls[|old(fib.calls)|].prefix == prefix
    {
      var _ := fib.DeleteHostRoute(prefix);
      injected := injected - {prefix};
    }

    /** The first loop: wanted prefixes, in any order. */
    method InstallAll(want: map<string, string>) returns (failed: set<string>)
      requires Valid()
      modifies `injected, fib
      ensures Valid() && old(fib.stale) <= fib.stale
      ensures failed == FailedAdds(old(fib.calls), fib.calls) <= want.Keys
      ensures forall p :: p in want && p !in failed ==> At(injected, p) == [want[p]]
      ensures forall p :: p in failed ==> p !in injected
      ensures forall p :: p !in want ==> At(injected, p) == At(old(injected), p)
      ensures Quiet(old(injected), want, old(fib.calls), fib.calls)
    {
      hide *;
      failed := {};
      var todo := want.Keys;
      NoCallsYet(injected, want, fib.calls);
      PlacedBegins(injected, want);
      while todo != {}
        invariant Valid() && old(fib.stale) <= fib.stale
        invariant Placed(old(injected), injected, want, todo, failed)
        invariant old(fib.calls) <= fib.calls && failed == FailedAdds(old(fib.calls), fib.calls)
        invariant Quiet(old(injected), want, old(fib.calls), fib.calls)
        decreases |todo|
      {
        var prefix :| prefix in todo;
        ghost var before, placed := fib.calls, injected;
        PlacedAt(old(injected), injected, want, todo, failed, prefix);
        var ok := Install(prefix, want[prefix]);
        QuietVisit(old(injected), want, before, fib.calls, prefix);
        QuietOn(old(injected), want, old(fib.calls), before, fib.calls);
        FailedAddsOn(old(fib.calls), before, fib.calls);
        PlacedStep(old(injected), placed, injected, want, todo, failed, prefix, ok);
        if !ok {
          failed := failed + {prefix};
        }
        todo := todo - {prefix};
      }
      PlacedEnds(old(injected), injected, want, failed);
    }

    /** The second loop: injected prefixes that are not wanted, in any order. */
    method WithdrawOthers(want: map<string, string>)
      requires Valid()
      modifies `injected, fib
      ensures Valid() && old(fib.stale) <= fib.stale
      ensures forall p :: At(injected, p) == if p in want then At(old(injected), p) else []
      ensures OnlyDeletes(old(fib.calls), fib.calls)
      ensures old(fib.calls) <= fib.calls && forall k :: |old(fib.calls)| <= k < |fib.calls| ==>
        fib.calls[k].prefix !in want
    {
      var todo := injected.Keys;
      while todo != {}
        invariant Valid() && old(fib.stale) <= fib.stale
        invariant forall p :: p in injected && p !in want ==> p in todo
        invariant forall p :: p in want ==> At(injected, p) == At(old(injected), p)
        invariant OnlyDeletes(old(fib.calls), fib.calls)
        invariant old(fib.calls) <= fib.calls && forall k :: |old(fib.calls)| <= k < |fib.calls| ==>
          fib.calls[k].prefix !in want
        decreases |todo|
      {
        hide Valid;
        var prefix :| prefix in todo;
        if prefix !in want {
          Withdraw(prefix);
        }
        todo := todo - {prefix};
      }
    }

    /** One pass. Exactly the prefixes the table refused to add in it are missing afterwards, and a
        prefix that keeps its nexthop is left alone. */
    method Reconcile(desired: seq<Route>) returns (failed: set<string>)
      requires Valid()
      modifies `injected, fib
      ensures Valid() && old(fib.stale) <= fib.stale
      ensures failed == FailedAdds(old(fib.calls), fib.calls) <= Want(desired).Keys
      ensures injected == Want(desired) - failed
      ensures failed == {} && fib.reliable ==> fib.routes == injected == Want(desired)
      ensures Quiet(old(injected), Want(desired), old(fib.calls), fib.calls)
    {
      hide Want, Mirrors, FailedAdds, Quiet, OnlyDeletes;
      var want := Collect(desired);
      ghost var earlier := fib.calls;
      NoCallsYet(injected, want, earlier);
      failed := InstallAll(want);
      ghost var installed := fib.calls;
      QuietPrefix(old(injected), want, earlier, installed);
      WithdrawOthers(want);
      DeletesFailNoAdds(installed, fib.calls);
      FailedAddsOn(earlier, installed, fib.calls);
      QuietDeletes(old(injected), want, installed, fib.calls);
      QuietOn(old(injected), want, earlier, installed, fib.calls);
      assert injected == want - failed by {
        Restricted(injected, want, failed);
      }
      if failed == {} && fib.reliable {
        MirrorsExactly(injected, fib.routes);
      }
    }

    method WithdrawAll()
      requires Valid()
      modifies `injected, fib
      ensures Valid() && old(fib.stale) <= fib.stale && injected == map[]
      ensures fib.reliable ==> fib.routes == map[]
    {
      var todo := injected.Keys;
      while todo != {}
        invariant injected == old(injected) && old(fib.stale) <= fib.stale && (fib.reliable ==> fib.stale == {})
        invariant forall p :: p in fib.routes && p !in fib.stale ==> p in todo
        decreases |todo|
      {
        var prefix :| prefix in todo;
        var _ := fib.DeleteHostRoute(prefix);
        todo := todo - {prefix};
      }
      injected := map[];
    }
  }

  method Collect(desired: seq<Route>) returns (want: map<string, string>)
    ensures want == Want(desired)
  {
    want := map[];
    for i := 0 to |desired|
      invariant want == Want(desired[..i])
    {
      assert desired[..i + 1][..i] == desired[..i];
      want := want[desired[i].prefix := desired[i].nexthop];
    }
    assert desired[..|desired|] == desired;
  }

  lemma Restricted(injected: map<string, string>, want: map<string, string>, failed: set<string>)
    requires failed <= want.Keys
    requires forall p :: At(injected, p) == if p in want && p !in failed then [want[p]] else []
    ensures injected == want - failed
  {
    assert forall p :: p in injected <==> At(injected, p) != [];
    assert forall p :: p in injected ==> At(injected, p)[0] == injected[p];
    assert forall p :: p in injected <==> p in want - failed;
  }
}
