/** Names of cluster machines: internal/dns/resolver.go. */
module Resolver {
  import opened Options
  import opened Text

  datatype Ip = Ip(a: int, b: int, c: int, d: int)

  datatype Machine = Machine(name: string, mac: string)

  datatype Cluster = Cluster(name: string, domain: string, subnetIndex: int, nodes: seq<Machine>)

  const MAX_SUBNET := 255
  const INGRESS_HOST := 200

  /** The leased address of a machine on a subnet, when there is one. */
  type Leases = (string, int) -> Option<Ip>

  function Domain(c: Cluster): (d: string)
    ensures d != ""
    ensures EqualFold(d, if c.domain != "" then c.domain else c.name + ".k8s.test")
    ensures forall i :: 0 <= i < |d| ==> !('A' <= d[i] <= 'Z')
  {
    LowerIffEqualFold(c.domain, c.domain);
    LowerIffEqualFold(c.name + ".k8s.test", c.name + ".k8s.test");
    if c.domain != "" then Lower(c.domain) else Lower(c.name + ".k8s.test")
  }

  predicate Under(name: string, domain: string)
  {
    name == domain || HasSuffix(name, "." + domain)
  }

  /** At or under a domain are the domain and whatever ends with a dot and the domain. */
  lemma UnderIff(head: string, domain: string, name: string)
    ensures Under(domain, domain) && Under(head + "." + domain, domain)
    ensures Under(name, domain) ==>
      name == domain || (|name| > |domain| && name == name[..|name| - |domain| - 1] + "." + domain)
  {
    var longer, tail := head + "." + domain, "." + domain;
    assert longer[|longer| - |tail|..] == tail;
    if HasSuffix(name, tail) {
      assert name == name[..|name| - |tail|] + tail;
    }
  }

  // ----- Ownership

  /** Among the first n clusters: the cluster's domain covers the name, no other covering domain is
      longer, and among equals the cluster comes first. */
  ghost predicate Leads(clusters: seq<Cluster>, n: nat, name: string, i: nat)
    requires n <= |clusters|
  {
    && i < n && Under(name, Domain(clusters[i]))
    && (forall j :: 0 <= j < n && Under(name, Domain(clusters[j])) ==> |Domain(clusters[j])| <= |Domain(clusters[i])|)
    && (forall j :: 0 <= j < i && Under(name, Domain(clusters[j])) ==> |Domain(clusters[j])| < |Domain(clusters[i])|)
  }

  ghost predicate Owns(clusters: seq<Cluster>, name: string, i: nat)
  {
    Leads(clusters, |clusters|, name, i)
  }

  ghost predicate Unowned(clusters: seq<Cluster>, name: string)
  {
    forall j :: 0 <= j < |clusters| ==> !Under(name, Domain(clusters[j]))
  }

  /** Two domains of one length that cover the same name are the same domain. */
  lemma SameLengthSameDomain(name: string, d: string, e: string)
    requires Under(name, d) && Under(name, e) && |d| == |e|
    ensures d == e
  {
    SuffixOf(name, d);
    SuffixOf(name, e);
  }

  lemma SuffixOf(name: string, d: string)
    requires Under(name, d)
    ensures |d| <= |name| && name[|name| - |d|..] == d
  {
    if name != d {
      var whole := "." + d;
      assert name[|name| - |d|..] == name[|name| - |whole|..][1..] == whole[1..];
    }
  }

  /** A domain inside another one covers only names the other covers too. */
  lemma NestedUnder(name: string, outer: string, inner: string)
    requires Under(name, inner) && HasSuffix(inner, "." + outer)
    ensures Under(name, outer) && |inner| > |outer|
  {
    SuffixOf(name, inner);
    var whole := "." + outer;
    assert name[|name| - |whole|..] == name[|name| - |inner|..][|inner| - |whole|..] == whole;
  }

  // ----- Answers

  /** The first machine of that name. */
  function FindMachine(nodes: seq<Machine>, name: string, domain: string): (r: Option<Machine>)
    ensures r.None? <==> forall i :: 0 <= i < |nodes| ==> name != Lower(nodes[i].name) + "." + domain
    ensures r.Some? ==> exists i ::
      && 0 <= i < |nodes| && r.value == nodes[i] && name == Lower(nodes[i].name) + "." + domain
      && forall j :: 0 <= j < i ==> name != Lower(nodes[j].name) + "." + domain
  {
    if nodes == [] then None
    else if name == Lower(nodes[0].name) + "." + domain then Some(nodes[0])
    else FindMachine(nodes[1..], name, domain)
  }

  function AnswerOf(owner: Cluster, name: string, lease: Leases): Option<Ip>
  {
    if name == Domain(owner) || owner.subnetIndex < 0 || owner.subnetIndex > MAX_SUBNET then None
    else match FindMachine(owner.nodes, name, Domain(owner))
         case Some(machine) => lease(machine.mac, owner.subnetIndex)
         case None => Some(Ip(172, 30, owner.subnetIndex, INGRESS_HOST))
  }

  /** The name is that of the machine with this number. */
  ghost predicate IsNamed(owner: Cluster, i: nat, name: string)
    requires i < |owner.nodes|
  {
    name == Lower(owner.nodes[i].name) + "." + Domain(owner)
  }

  /** The apex has no record, and neither has anything on a subnet out of range. A machine's name is
      answered with the lease of the first machine so named, every other name with the ingress. */
  lemma AnswerMeans(owner: Cluster, name: string, lease: Leases, i: nat)
    ensures name == Domain(owner) || owner.subnetIndex < 0 || owner.subnetIndex > 255 ==>
      AnswerOf(owner, name, lease) == None
    ensures name != Domain(owner) && 0 <= owner.subnetIndex <= 255 && i < |owner.nodes|
            && IsNamed(owner, i, name) && (forall j :: 0 <= j < i ==> !IsNamed(owner, j, name)) ==>
      AnswerOf(owner, name, lease) == lease(owner.nodes[i].mac, owner.subnetIndex)
    ensures name != Domain(owner) && 0 <= owner.subnetIndex <= 255
            && (forall j :: 0 <= j < |owner.nodes| ==> !IsNamed(owner, j, name)) ==>
      AnswerOf(owner, name, lease) == Some(Ip(172, 30, owner.subnetIndex, 200))
  {
    hide Domain, Lower, FindMachine;
    if i < |owner.nodes| && IsNamed(owner, i, name) && (forall j :: 0 <= j < i ==> !IsNamed(owner, j, name)) {
      FirstFound(owner, name, i);
    }
    if FindMachine(owner.nodes, name, Domain(owner)).Some? {
      var k :| 0 <= k < |owner.nodes| && name == Lower(owner.nodes[k].name) + "." + Domain(owner);
      assert IsNamed(owner, k, name);
    }
  }

  lemma FirstFound(owner: Cluster, name: string, i: nat)
    requires i < |owner.nodes| && IsNamed(owner, i, name) && forall j :: 0 <= j < i ==> !IsNamed(owner, j, name)
    ensures FindMachine(owner.nodes, name, Domain(owner)) == Some(owner.nodes[i])
  {
    hide Domain, Lower, FindMachine;
    var found := FindMachine(owner.nodes, name, Domain(owner));
    assert found.Some?;
    var k :| 0 <= k < |owner.nodes| && found.value == owner.nodes[k] && IsNamed(owner, k, name)
      && forall j :: 0 <= j < k ==> !IsNamed(owner, j, name);
    assert k == i;
  }

  /** Neither letter case nor one trailing dot of a question matters. */
  lemma SpellingIrrelevant(a: string, b: string)
    requires EqualFold(a, b) && !HasSuffix(a, ".") && !HasSuffix(b, ".")
    ensures Query(a) == Query(b) == Query(b + ".") && EqualFold(Query(a), a)
  {
    LowerIffEqualFold(a, b);
    assert (b + ".")[..|b|] == b && (b + ".")[|b|..] == ".";
  }

  function Query(question: string): string { Lower(TrimSuffix(question, ".")) }

  /** What a question is answered with. */
  ghost predicate Answers(clusters: seq<Cluster>, question: string, lease: Leases, ip: Option<Ip>)
  {
    if Unowned(clusters, Query(question)) then ip == None
    else exists i: nat :: Owns(clusters, Query(question), i) && ip == AnswerOf(clusters[i], Query(question), lease)
  }

  lemma StillLeads(clusters: seq<Cluster>, n: nat, name: string, i: nat)
    requires n < |clusters| && Leads(clusters, n, name, i)
    requires |Domain(clusters[n])| <= |Domain(clusters[i])| || !Under(name, Domain(clusters[n]))
    ensures Leads(clusters, n + 1, name, i)
  {
    hide Under, Domain;
  }

  lemma TakesLead(clusters: seq<Cluster>, n: nat, name: string, i: nat)
    requires n < |clusters| && Leads(clusters, n, name, i)
    requires |Domain(clusters[n])| > |Domain(clusters[i])| && Under(name, Domain(clusters[n]))
    ensures Leads(clusters, n + 1, name, n)
  {
    hide Under, Domain;
  }

  lemma FirstLeads(clusters: seq<Cluster>, n: nat, name: string)
    requires n < |clusters| && Under(name, Domain(clusters[n]))
    requires forall j :: 0 <= j < n ==> !Under(name, Domain(clusters[j]))
    ensures Leads(clusters, n + 1, name, n)
  {
    hide Under, Domain;
  }

  method FindOwner(clusters: seq<Cluster>, name: string) returns (owner: Option<nat>)
    ensures owner.None? <==> Unowned(clusters, name)
    ensures owner.Some? ==> owner.value < |clusters| && Owns(clusters, name, owner.value)
  {
    hide Under, Domain;
    owner := None;
    var ownerDomain := "";
    for i := 0 to |clusters|
      invariant owner.None? ==> ownerDomain == "" && forall j :: 0 <= j < i ==> !Under(name, Domain(clusters[j]))
      invariant owner.Some? ==>
        owner.value < i && ownerDomain == Domain(clusters[owner.value]) && Leads(clusters, i, name, owner.value)
    {
      hide Leads;
      var domain := Domain(clusters[i]);
      if |domain| <= |ownerDomain| {
        if owner.Some? {
          StillLeads(clusters, i, name, owner.value);
        }
        continue;
      }
      if Under(name, domain) {
        if owner.Some? {
          TakesLead(clusters, i, name, owner.value);
        } else {
          FirstLeads(clusters, i, name);
        }
        owner, ownerDomain := Some(i), domain;
      } else if owner.Some? {
        StillLeads(clusters, i, name, owner.value);
      }
    }
  }

  method Resolve(question: string, clusters: seq<Cluster>, lease: Leases) returns (ip: Option<Ip>)
    ensures Answers(clusters, question, lease, ip)
  {
    var name := Lower(TrimSuffix(question, "."));
    var found := FindOwner(clusters, name);
    hide Owns, Unowned, Domain;
    if found.None? {
      return None;
    }
    var owner := clusters[found.value];
    if name == Domain(owner) {
      return None;
    }
    if owner.subnetIndex < 0 || owner.subnetIndex > MAX_SUBNET {
      return None;
    }
    for i := 0 to |owner.nodes|
      invariant FindMachine(owner.nodes, name, Domain(owner)) == FindMachine(owner.nodes[i..], name, Domain(owner))
    {
      var node := owner.nodes[i];
      if name == Lower(node.name) + "." + Domain(owner) {
        return lease(node.mac, owner.subnetIndex);
      }
      assert owner.nodes[i..][1..] == owner.nodes[i + 1..];
    }
    return Some(Ip(172, 30, owner.subnetIndex, INGRESS_HOST));
  }

  // ----- What the answers do not depend on

  ghost predicate DistinctDomains(clusters: seq<Cluster>)
  {
    forall i, j :: 0 <= i < j < |clusters| ==> Domain(clusters[i]) != Domain(clusters[j])
  }

  /** With distinct domains the owner is the one cluster with the longest covering domain. */
  lemma OwnerUnique(clusters: seq<Cluster>, name: string, i: nat)
    requires DistinctDomains(clusters) && Owns(clusters, name, i)
    ensures forall j :: 0 <= j < |clusters| && j != i && Under(name, Domain(clusters[j])) ==>
      |Domain(clusters[j])| < |Domain(clusters[i])|
  {
    hide Domain;
    forall j | 0 <= j < |clusters| && j != i && Under(name, Domain(clusters[j]))
      ensures |Domain(clusters[j])| < |Domain(clusters[i])|
    {
      if |Domain(clusters[j])| == |Domain(clusters[i])| {
        SameLengthSameDomain(name, Domain(clusters[j]), Domain(clusters[i]));
      }
    }
  }

  lemma SameOwner(a: seq<Cluster>, b: seq<Cluster>, name: string, i: nat, k: nat)
    requires DistinctDomains(b) && forall c :: c in a <==> c in b
    requires Owns(a, name, i) && Owns(b, name, k)
    ensures a[i] == b[k]
  {
    hide Domain, Under;
    assert a[i] in b && b[k] in a;
    var x :| 0 <= x < |b| && b[x] == a[i];
    var y :| 0 <= y < |a| && a[y] == b[k];
    assert |Domain(a[y])| <= |Domain(a[i])| && |Domain(b[x])| <= |Domain(b[k])|;
    OwnerUnique(b, name, k);
  }

  lemma SameUnowned(a: seq<Cluster>, b: seq<Cluster>, name: string)
    requires forall c :: c in a <==> c in b
    ensures Unowned(a, name) ==> Unowned(b, name)
  {
    hide Domain, Under;
    forall j | Unowned(a, name) && 0 <= j < |b|
      ensures !Under(name, Domain(b[j]))
    {
      assert b[j] in a;
    }
  }

  /** The order in which the clusters are listed does not change any answer. */
  lemma OrderIrrelevant(a: seq<Cluster>, b: seq<Cluster>, question: string, lease: Leases, ipA: Option<Ip>,
                        ipB: Option<Ip>)
    requires DistinctDomains(b) && forall c :: c in a <==> c in b
    requires Answers(a, question, lease, ipA) && Answers(b, question, lease, ipB)
    ensures ipA == ipB
  {
    var name := Query(question);
    SameUnowned(a, b, name);
    SameUnowned(b, a, name);
    hide Unowned, Owns, AnswerOf;
    if !Unowned(a, name) {
      var i: nat :| Owns(a, name, i) && ipA == AnswerOf(a[i], name, lease);
      var k: nat :| Owns(b, name, k) && ipB == AnswerOf(b[k], name, lease);
      SameOwner(a, b, name, i, k);
    }
  }

  /** A name at or under a nested domain is never answered by the enclosing cluster. */
  lemma NestedNeverFallsThrough(clusters: seq<Cluster>, name: string, outer: nat, inner: nat, i: nat)
    requires outer < |clusters| && inner < |clusters|
    requires HasSuffix(Domain(clusters[inner]), "." + Domain(clusters[outer]))
    requires Under(name, Domain(clusters[inner])) && Owns(clusters, name, i)
    ensures i != outer && Under(name, Domain(clusters[outer])) && |Domain(clusters[i])| >= |Domain(clusters[inner])|
  {
    hide Domain;
    NestedUnder(name, Domain(clusters[outer]), Domain(clusters[inner]));
  }
}
