/** The route the kernel would use: selectMostSpecificRoute in internal/cluster/subnet.go. */
module Routes {
  /** A routed network. Other stands for every network whose mask is not a plain 32-bit one. */
  datatype Network = NoNetwork | Other | V4(address: nat, prefix: Prefix)

  type Prefix = n: nat | n <= 32

  datatype Route = Route(device: string, network: Network, metric: int, looksLikeTunnel: bool)

  const NO_ROUTE := Route("", NoNetwork, 0, false)

  function Pow2(n: nat): (r: nat)
    ensures r > 0
  {
    if n == 0 then 1 else 2 * Pow2(n - 1)
  }

  /** The address without its last bits. */
  function Shifted(address: nat, bits: nat): (r: nat)
    ensures r == address / Pow2(bits)
  {
    if bits == 0 then address
    else
      HalvedThenDivided(address, Pow2(bits - 1));
      Shifted(address / 2, bits - 1)
  }

  lemma HalvedThenDivided(a: nat, m: nat)
    requires m > 0
    ensures a / 2 / m == a / (2 * m)
  {
    var q, r := a / 2 / m, a / 2 % m;
    assert a / 2 == q * m + r;
    assert a == q * (2 * m) + (2 * r + a % 2);
    QuotientIs(a, 2 * m, q, 2 * r + a % 2);
  }

  lemma QuotientIs(a: nat, m: nat, q: nat, r: nat)
    requires m > 0 && r < m && a == q * m + r
    ensures a / m == q
  {
    var d := a / m;
    assert a == d * m + a % m;
    if d < q {
      MulGrows(d + 1, q, m);
    } else if d > q {
      MulGrows(q + 1, d, m);
    }
  }

  lemma MulGrows(x: nat, y: nat, m: nat)
    requires x <= y
    ensures x * m <= y * m
  {
  }

  lemma SameQuotient(a: nat, d: nat, m: nat)
    requires m > 0
    ensures a / m == d / m <==> a - a % m <= d < a - a % m + m
  {
    var q := a / m;
    assert a - a % m == q * m;
    if q * m <= d < q * m + m {
      QuotientIs(d, m, q, d - q * m);
    }
    if d / m == q {
      assert d == q * m + d % m;
    }
  }

  /** A network with prefix p is the block of 2^(32 - p) addresses that begins at its address
      rounded down to a multiple of that size. */
  predicate Contains(network: Network, destination: nat): (r: bool)
    ensures r <==>
      && network.V4?
      && var size := Pow2(32 - network.prefix);
         var first := network.address - network.address % size;
         first <= destination < first + size
  {
    && network.V4?
    && (SameQuotient(network.address, destination, Pow2(32 - network.prefix));
        Shifted(network.address, 32 - network.prefix) == Shifted(destination, 32 - network.prefix))
  }

  /** A default route covers every 32-bit address, a host route one, and a longer prefix at the same
      address covers a part of what a shorter one does. */
  lemma Blocks(network: Network, destination: nat)
    requires network.V4? && network.address < 0x1_0000_0000
    ensures network.prefix == 0 ==> (Contains(network, destination) <==> destination < 0x1_0000_0000)
    ensures network.prefix == 24 ==> (Contains(network, destination) <==> network.address / 256 == destination / 256)
    ensures network.prefix == 32 ==> (Contains(network, destination) <==> destination == network.address)
    ensures network.prefix > 0 && Contains(network, destination) ==>
      Contains(network.(prefix := network.prefix - 1), destination)
  {
    PowersOfTwo();
    if network.prefix > 0 {
      var size := Pow2(32 - network.prefix);
      SameQuotient(network.address, destination, size);
      SameQuotient(network.address, destination, 2 * size);
      TwiceDivided(network.address, size);
      TwiceDivided(destination, size);
    }
    if network.prefix == 24 {
      SameQuotient(network.address, destination, 256);
    }
  }

  lemma PowersOfTwo()
    ensures Pow2(0) == 1 && Pow2(8) == 256 && Pow2(32) == 0x1_0000_0000
  {
    assert Pow2(4) == 16;
    assert Pow2(8) == 256;
    assert Pow2(12) == 4096;
    assert Pow2(16) == 65536;
    assert Pow2(20) == 1048576;
    assert Pow2(24) == 16777216;
    assert Pow2(28) == 268435456;
  }

  lemma TwiceDivided(a: nat, m: nat)
    requires m > 0
    ensures a / (2 * m) == a / m / 2
  {
    var q, r := a / m / 2, a / m % 2;
    assert a / m == 2 * q + r;
    assert a == (2 * q + r) * m + a % m;
    assert a == q * (2 * m) + (r * m + a % m);
    assert r * m + a % m < 2 * m;
    QuotientIs(a, 2 * m, q, r * m + a % m);
  }

  predicate Matches(route: Route, destination: nat, ignored: set<string>)
  {
    route.device !in ignored && Contains(route.network, destination)
  }

  /** The first route is used rather than the second: longer prefix, then lower metric. */
  predicate Better(a: Route, b: Route)
    requires a.network.V4? && b.network.V4?
  {
    a.network.prefix > b.network.prefix || (a.network.prefix == b.network.prefix && a.metric < b.metric)
  }

  /** Two routes nothing here can tell apart. */
  predicate Tied(a: Route, b: Route)
    requires a.network.V4? && b.network.V4?
  {
    a.network.prefix == b.network.prefix && a.metric == b.metric
  }

  ghost predicate TunnelAmong(routes: seq<Route>, destination: nat, ignored: set<string>, best: Route)
    requires best.network.V4?
  {
    exists j :: 0 <= j < |routes| && Matches(routes[j], destination, ignored) && Tied(routes[j], best)
      && routes[j].looksLikeTunnel
  }

  /** No matching route is better, and the route comes first among those it is tied with. */
  ghost predicate FirstBest(routes: seq<Route>, destination: nat, ignored: set<string>, i: nat)
  {
    && i < |routes| && Matches(routes[i], destination, ignored)
    && (forall j :: 0 <= j < |routes| && Matches(routes[j], destination, ignored) ==> !Better(routes[j], routes[i]))
    && (forall j :: 0 <= j < i && Matches(routes[j], destination, ignored) ==> !Tied(routes[j], routes[i]))
  }

  /** The route that is reported: none without a match, otherwise the first best one with the
      tunnel signal of every route it is tied with. */
  ghost predicate Selected(routes: seq<Route>, destination: nat, ignored: set<string>, route: Route)
  {
    if forall j :: 0 <= j < |routes| ==> !Matches(routes[j], destination, ignored) then route == NO_ROUTE
    else exists i: nat :: FirstBest(routes, destination, ignored, i)
                     && route == routes[i].(looksLikeTunnel := TunnelAmong(routes, destination, ignored, routes[i]))
  }

  method SelectMostSpecificRoute(destination: nat, routes: seq<Route>, ignored: set<string>) returns (selected: Route)
    ensures Selected(routes, destination, ignored, selected)
  {
    selected := NO_ROUTE;
    var selectedPrefix := -1;
    ghost var best := 0;
    for i := 0 to |routes|
      invariant selectedPrefix == -1 <==> forall j :: 0 <= j < i ==> !Matches(routes[j], destination, ignored)
      invariant selectedPrefix == -1 ==> selected == NO_ROUTE
      invariant selectedPrefix != -1 ==>
        && FirstBest(routes[..i], destination, ignored, best) && selectedPrefix == routes[best].network.prefix
        && selected == routes[best].(looksLikeTunnel := TunnelAmong(routes[..i], destination, ignored, routes[best]))
    {
      hide Contains;
      var route := routes[i];
      assert routes[..i + 1] == routes[..i] + [route];
      if route.device in ignored || route.network == NoNetwork || !Contains(route.network, destination) {
        if selectedPrefix != -1 {
          Unmatched(routes[..i], route, destination, ignored, best);
        }
        continue;
      }
      var prefix := route.network.prefix;
      if prefix < selectedPrefix {
        Worse(routes[..i], route, destination, ignored, best);
        continue;
      }
      if prefix > selectedPrefix || route.metric < selected.metric {
        if selectedPrefix == -1 {
          FirstMatch(routes[..i], route, destination, ignored);
        } else {
          Improves(routes[..i], route, destination, ignored, best);
        }
        selected := route;
        selectedPrefix := prefix;
        best := i;
      } else if route.metric == selected.metric {
        Joins(routes[..i], route, destination, ignored, best);
        selected := selected.(looksLikeTunnel := selected.looksLikeTunnel || route.looksLikeTunnel);
      } else {
        Worse(routes[..i], route, destination, ignored, best);
      }
    }
    assert routes[..|routes|] == routes;
  }

  lemma Grown(seen: seq<Route>, route: Route)
    ensures forall j :: 0 <= j < |seen| ==> (seen + [route])[j] == seen[j]
    ensures (seen + [route])[|seen|] == route
  {
  }

  lemma Unmatched(seen: seq<Route>, route: Route, destination: nat, ignored: set<string>, best: nat)
    requires FirstBest(seen, destination, ignored, best) && !Matches(route, destination, ignored)
    ensures FirstBest(seen + [route], destination, ignored, best)
    ensures TunnelAmong(seen + [route], destination, ignored, seen[best]) ==
      TunnelAmong(seen, destination, ignored, seen[best])
  {
    Grown(seen, route);
    hide Contains;
    TunnelGrows(seen, route, destination, ignored, seen[best]);
  }

  lemma TunnelGrows(seen: seq<Route>, route: Route, destination: nat, ignored: set<string>, best: Route)
    requires best.network.V4?
    ensures TunnelAmong(seen + [route], destination, ignored, best) <==>
      || TunnelAmong(seen, destination, ignored, best)
      || (Matches(route, destination, ignored) && Tied(route, best) && route.looksLikeTunnel)
  {
    Grown(seen, route);
    var all := seen + [route];
    hide Contains;
    if TunnelAmong(seen, destination, ignored, best) {
      var j :| 0 <= j < |seen| && Matches(seen[j], destination, ignored) && Tied(seen[j], best)
        && seen[j].looksLikeTunnel;
      assert Matches(all[j], destination, ignored);
    }
    if Matches(route, destination, ignored) && Tied(route, best) && route.looksLikeTunnel {
      assert Matches(all[|seen|], destination, ignored);
    }
  }

  lemma Worse(seen: seq<Route>, route: Route, destination: nat, ignored: set<string>, best: nat)
    requires FirstBest(seen, destination, ignored, best) && Matches(route, destination, ignored)
    requires Better(seen[best], route)
    ensures FirstBest(seen + [route], destination, ignored, best)
    ensures TunnelAmong(seen + [route], destination, ignored, seen[best]) ==
      TunnelAmong(seen, destination, ignored, seen[best])
  {
    Grown(seen, route);
    hide Contains;
    TunnelGrows(seen, route, destination, ignored, seen[best]);
  }

  lemma Joins(seen: seq<Route>, route: Route, destination: nat, ignored: set<string>, best: nat)
    requires FirstBest(seen, destination, ignored, best) && Matches(route, destination, ignored)
    requires Tied(route, seen[best])
    ensures FirstBest(seen + [route], destination, ignored, best)
    ensures TunnelAmong(seen + [route], destination, ignored, seen[best]) ==
      (TunnelAmong(seen, destination, ignored, seen[best]) || route.looksLikeTunnel)
  {
    Grown(seen, route);
    hide Contains;
    TunnelGrows(seen, route, destination, ignored, seen[best]);
  }

  lemma Improves(seen: seq<Route>, route: Route, destination: nat, ignored: set<string>, best: nat)
    requires FirstBest(seen, destination, ignored, best) && Matches(route, destination, ignored)
    requires Better(route, seen[best])
    ensures FirstBest(seen + [route], destination, ignored, |seen|)
    ensures TunnelAmong(seen + [route], destination, ignored, route) == route.looksLikeTunnel
  {
    Grown(seen, route);
    hide Contains;
    TunnelGrows(seen, route, destination, ignored, route);
  }

  lemma FirstMatch(seen: seq<Route>, route: Route, destination: nat, ignored: set<string>)
    requires Matches(route, destination, ignored)
    requires forall j :: 0 <= j < |seen| ==> !Matches(seen[j], destination, ignored)
    ensures FirstBest(seen + [route], destination, ignored, |seen|)
    ensures TunnelAmong(seen + [route], destination, ignored, route) == route.looksLikeTunnel
  {
    Grown(seen, route);
    hide Contains;
    TunnelGrows(seen, route, destination, ignored, route);
  }

  /** Without a route on a device that counts whose network covers the destination none is reported.
      Otherwise it is one of those: every other one has a shorter prefix, or the same and a higher
      metric, or both the same. It is flagged when one with both the same is. */
  lemma SelectedMeans(routes: seq<Route>, destination: nat, ignored: set<string>, route: Route)
    requires Selected(routes, destination, ignored, route)
    ensures (forall r :: r in routes ==> r.device in ignored || !Contains(r.network, destination)) ==>
      route == Route("", NoNetwork, 0, false)
    ensures (exists r :: r in routes && r.device !in ignored && Contains(r.network, destination)) ==>
      && route.device !in ignored && Contains(route.network, destination)
      && (exists r :: r in routes && route == r.(looksLikeTunnel := route.looksLikeTunnel))
      && (forall r :: r in routes && r.device !in ignored && Contains(r.network, destination) ==>
            && r.network.prefix <= route.network.prefix
            && (r.network.prefix == route.network.prefix ==> route.metric <= r.metric))
      && (route.looksLikeTunnel <==>
            exists r :: r in routes && r.device !in ignored && Contains(r.network, destination)
              && r.network.prefix == route.network.prefix && r.metric == route.metric && r.looksLikeTunnel)
  {
    hide Contains;
    if r :| r in routes && r.device !in ignored && Contains(r.network, destination) {
      var k :| 0 <= k < |routes| && routes[k] == r;
      assert Matches(routes[k], destination, ignored);
      var i: nat :| FirstBest(routes, destination, ignored, i)
                    && route == routes[i].(looksLikeTunnel := TunnelAmong(routes, destination, ignored, routes[i]));
      assert routes[i] in routes && route == routes[i].(looksLikeTunnel := route.looksLikeTunnel);
    } else {
      assert forall j :: 0 <= j < |routes| ==> routes[j] in routes && !Matches(routes[j], destination, ignored);
    }
  }

  /** The order in which routes are listed, and how often, only decides which of the tied routes
      is named: prefix, metric and tunnel signal come out the same. */
  lemma OrderDecidesOnlyTies(a: seq<Route>, b: seq<Route>, destination: nat, ignored: set<string>, ra: Route, rb: Route)
    requires forall r :: r in a <==> r in b
    ensures Selected(a, destination, ignored, ra) && Selected(b, destination, ignored, rb) ==>
      ra == rb == NO_ROUTE
        || (ra.network.V4? && rb.network.V4? && Tied(ra, rb) && ra.looksLikeTunnel == rb.looksLikeTunnel)
  {
    SameMatches(a, b, destination, ignored);
    SameMatches(b, a, destination, ignored);
    if Selected(a, destination, ignored, ra) && Selected(b, destination, ignored, rb)
       && exists j :: 0 <= j < |a| && Matches(a[j], destination, ignored) {
      var i: nat :| FirstBest(a, destination, ignored, i)
                    && ra == a[i].(looksLikeTunnel := TunnelAmong(a, destination, ignored, a[i]));
      var k: nat :| FirstBest(b, destination, ignored, k)
                    && rb == b[k].(looksLikeTunnel := TunnelAmong(b, destination, ignored, b[k]));
      BestAreTied(a, b, destination, ignored, i, k);
      hide FirstBest, TunnelAmong, Matches;
      SameTunnel(a, b, destination, ignored, a[i], b[k]);
      SameTunnel(b, a, destination, ignored, b[k], a[i]);
    }
  }

  lemma SameMatches(a: seq<Route>, b: seq<Route>, destination: nat, ignored: set<string>)
    requires forall r :: r in a <==> r in b
    ensures (exists j :: 0 <= j < |a| && Matches(a[j], destination, ignored)) ==>
      exists j :: 0 <= j < |b| && Matches(b[j], destination, ignored)
  {
    if j :| 0 <= j < |a| && Matches(a[j], destination, ignored) {
      assert a[j] in b;
      var k :| 0 <= k < |b| && b[k] == a[j];
      assert Matches(b[k], destination, ignored);
    }
  }

  lemma BestAreTied(a: seq<Route>, b: seq<Route>, destination: nat, ignored: set<string>, i: nat, k: nat)
    requires forall r :: r in a <==> r in b
    requires FirstBest(a, destination, ignored, i) && FirstBest(b, destination, ignored, k)
    ensures Tied(a[i], b[k])
  {
    hide Contains;
    assert a[i] in b && b[k] in a;
    var x :| 0 <= x < |b| && b[x] == a[i];
    var y :| 0 <= y < |a| && a[y] == b[k];
    assert !Better(b[x], b[k]) && !Better(a[y], a[i]);
  }

  lemma SameTunnel(a: seq<Route>, b: seq<Route>, destination: nat, ignored: set<string>, ra: Route, rb: Route)
    requires forall r :: r in a <==> r in b
    requires ra.network.V4? && rb.network.V4? && Tied(ra, rb)
    ensures TunnelAmong(a, destination, ignored, ra) ==> TunnelAmong(b, destination, ignored, rb)
  {
    hide Contains;
    if TunnelAmong(a, destination, ignored, ra) {
      var j :| 0 <= j < |a| && Matches(a[j], destination, ignored) && Tied(a[j], ra) && a[j].looksLikeTunnel;
      assert a[j] in b;
      var k :| 0 <= k < |b| && b[k] == a[j];
      assert Matches(b[k], destination, ignored);
    }
  }

  /** Routes tied for a destination lead to one and the same network. */
  lemma TiedRoutesShareNetwork(a: Route, b: Route, destination: nat, ignored: set<string>)
    requires Matches(a, destination, ignored) && Matches(b, destination, ignored) && Tied(a, b)
    ensures forall d :: Contains(a.network, d) <==> Contains(b.network, d)
  {
  }
}
