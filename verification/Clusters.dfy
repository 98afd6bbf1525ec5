/** Growing and shrinking a cluster: internal/cluster/cluster.go, node.go and the entry points of
    reservation.go. */
module Clusters {
  import opened Options
  import opened Text
  import opened Nodes

  // ----- Names a path may be built from

  /** The path without its trailing slashes. */
  function Stripped(path: string): (r: string)
    ensures r <= path && (r == [] || r[|r| - 1] != '/')
    ensures forall i :: |r| <= i < |path| ==> path[i] == '/'
  {
    if path != [] && path[|path| - 1] == '/' then Stripped(path[..|path| - 1]) else path
  }

  function LastElement(path: string): (r: string)
    ensures '/' !in r && |r| <= |path| && path[|path| - |r|..] == r
    ensures |r| < |path| ==> path[|path| - |r| - 1] == '/'
  {
    if path == [] || path[|path| - 1] == '/' then []
    else LastElement(path[..|path| - 1]) + [path[|path| - 1]]
  }

  /** filepath.Base */
  function Base(path: string): string
  {
    if path == "" then "."
    else if Stripped(path) == "" then "/"
    else LastElement(Stripped(path))
  }

  predicate ValidName(name: string)
  {
    name != "" && Base(name) == name && name != "." && name != ".."
  }

  lemma BaseOfPlain(name: string)
    requires name != "" && '/' !in name
    ensures Base(name) == name
  {
    assert name[|name| - 1] in name;
    assert Stripped(name) == name;
    var last := LastElement(name);
    assert last == name[|name| - |last|..] == name;
  }

  /** A valid name has no slash in it, with one exception: the name that is only a slash. */
  lemma ValidNameMeans(name: string)
    ensures ValidName(name) <==> name == "/" || (name != "" && '/' !in name && name != "." && name != "..")
  {
    if name != "" && '/' !in name {
      BaseOfPlain(name);
    }
    hide Stripped, LastElement;
    assert name == "/" ==> Stripped(name) == "" || Stripped(name) == name;
  }

  // ----- Role counters

  ghost function ControlPlanes(nodes: seq<Node>): nat
  {
    if nodes == [] then 0
    else ControlPlanes(nodes[..|nodes| - 1]) + if nodes[|nodes| - 1].role == ControlPlane then 1 else 0
  }

  lemma {:induction false} ControlPlanesConcat(a: seq<Node>, b: seq<Node>)
    ensures ControlPlanes(a + b) == ControlPlanes(a) + ControlPlanes(b)
    decreases |b|
  {
    if b == [] {
      assert a + b == a;
    } else {
      var n := |b| - 1;
      assert (a + b)[..|a| + n] == a + b[..n];
      ControlPlanesConcat(a, b[..n]);
    }
  }

  lemma {:induction false} ControlPlanesFilled(before: seq<Node>, after: seq<Node>)
    requires OnlyFilled(before, after)
    ensures ControlPlanes(after) == ControlPlanes(before)
    decreases |before|
  {
    if before != [] {
      var n := |before| - 1;
      assert OnlyFilled(before[..n], after[..n]);
      ControlPlanesFilled(before[..n], after[..n]);
    }
  }

  // ----- What every operation keeps

  /** Names are unique, every address on record is a distinct reservation of the cluster's own
      subnet in plain form, and the two counters are the numbers of nodes of each kind. */
  ghost predicate Kept(subnet: int, controlPlanes: int, workers: int, nodes: seq<Node>)
  {
    && 0 <= subnet <= MAX_SUBNET
    && DistinctNames(nodes) && Addressed(nodes, subnet) && PlainForm(nodes)
    && controlPlanes == ControlPlanes(nodes) && workers == |nodes| - ControlPlanes(nodes)
  }

  lemma NamedFilled(before: seq<Node>, after: seq<Node>, name: string)
    requires OnlyFilled(before, after)
    ensures Named(after, name) <==> Named(before, name)
  {
  }

  lemma FilledKeeps(subnet: int, controlPlanes: int, workers: int, before: seq<Node>, after: seq<Node>)
    requires Kept(subnet, controlPlanes, workers, before)
    requires OnlyFilled(before, after) && Addressed(after, subnet)
    ensures Kept(subnet, controlPlanes, workers, after)
  {
    ControlPlanesFilled(before, after);
    hide Addressed, ControlPlanes;
  }

  /** With plain spellings the next address is unused, and there is none only when the subnet is full. */
  lemma NextForPlain(nodes: seq<Node>, subnet: int)
    requires AllSet(nodes) && PlainForm(nodes) && Addressed(nodes, subnet)
    ensures FirstFree(subnet, Spelled(nodes), FIRST_HOST).None? <==> |nodes| == CAPACITY
    ensures Spelled(nodes) == InUse(nodes)
  {
    PlainSpelling(nodes);
    hide Spelled, InUse, Addressed, FirstFree;
    RoomFor(nodes, subnet);
    AssignedBounds(nodes);
  }

  lemma AppendedNames(nodes: seq<Node>, node: Node)
    requires DistinctNames(nodes) && PlainForm(nodes) && !Named(nodes, node.name) && node.ip == Canonical(node.ip)
    ensures DistinctNames(nodes + [node]) && PlainForm(nodes + [node])
  {
  }

  lemma AddKeeps(subnet: int, controlPlanes: int, workers: int, nodes: seq<Node>, node: Node)
    requires Kept(subnet, controlPlanes, workers, nodes) && AllSet(nodes) && !Named(nodes, node.name)
    requires FirstFree(subnet, Spelled(nodes), FIRST_HOST) == Some(node.ip)
    ensures if node.role == ControlPlane then Kept(subnet, controlPlanes + 1, workers, nodes + [node])
            else Kept(subnet, controlPlanes, workers + 1, nodes + [node])
  {
    NextForPlain(nodes, subnet);
    AddressedLast(nodes, node, subnet);
    AppendedNames(nodes, node);
    hide Addressed, DistinctNames, PlainForm, Spelled, InUse;
    ControlPlanesConcat(nodes, [node]);
    assert ControlPlanes([node]) == if node.role == ControlPlane then 1 else 0;
  }

  // ----- Removal

  /** The nodes without the first one of that name. */
  function Removed(nodes: seq<Node>, name: string): seq<Node>
  {
    if nodes == [] then [] else if nodes[0].name == name then nodes[1..] else [nodes[0]] + Removed(nodes[1..], name)
  }

  lemma {:induction false} RemovedAt(nodes: seq<Node>, name: string, i: nat)
    requires i < |nodes| && nodes[i].name == name
    requires forall j :: 0 <= j < i ==> nodes[j].name != name
    ensures Removed(nodes, name) == nodes[..i] + nodes[i + 1..]
    decreases i
  {
    if i > 0 {
      RemovedAt(nodes[1..], name, i - 1);
      assert nodes[..i] + nodes[i + 1..] == [nodes[0]] + (nodes[1..][..i - 1] + nodes[1..][i..]);
    }
  }

  /** Taking out the node that was just added gives back the nodes from before. */
  lemma AddThenRemove(nodes: seq<Node>, node: Node)
    requires !Named(nodes, node.name)
    ensures Removed(nodes + [node], node.name) == nodes
  {
    var all := nodes + [node];
    assert all[|nodes|] == node;
    RemovedAt(all, node.name, |nodes|);
    assert all[..|nodes|] + all[|nodes| + 1..] == nodes;
  }

  lemma CutKeepsAddresses(nodes: seq<Node>, i: nat, subnet: int)
    requires i < |nodes| && Addressed(nodes, subnet)
    ensures Addressed(nodes[..i] + nodes[i + 1..], subnet)
  {
    hide ValidReservation, Canonical;
    var left := nodes[..i] + nodes[i + 1..];
    assert forall j :: 0 <= j < |left| ==> left[j] == nodes[if j < i then j else j + 1];
  }

  lemma CutKeepsNames(nodes: seq<Node>, i: nat)
    requires i < |nodes| && DistinctNames(nodes) && PlainForm(nodes)
    ensures DistinctNames(nodes[..i] + nodes[i + 1..]) && PlainForm(nodes[..i] + nodes[i + 1..])
    ensures !Named(nodes[..i] + nodes[i + 1..], nodes[i].name)
  {
    var left := nodes[..i] + nodes[i + 1..];
    assert forall j :: 0 <= j < |left| ==> left[j] == nodes[if j < i then j else j + 1];
  }

  lemma CountAround(a: seq<Node>, node: Node, b: seq<Node>)
    ensures ControlPlanes(a + [node] + b) == ControlPlanes(a + b) + if node.role == ControlPlane then 1 else 0
  {
    ControlPlanesConcat(a + [node], b);
    ControlPlanesConcat(a, b);
    assert (a + [node])[..|a|] == a;
  }

  lemma CutCount(nodes: seq<Node>, i: nat)
    requires i < |nodes|
    ensures ControlPlanes(nodes) ==
      ControlPlanes(nodes[..i] + nodes[i + 1..]) + if nodes[i].role == ControlPlane then 1 else 0
  {
    hide ControlPlanes;
    CountAround(nodes[..i], nodes[i], nodes[i + 1..]);
    assert nodes == nodes[..i] + [nodes[i]] + nodes[i + 1..];
  }

  lemma RemoveKeeps(subnet: int, controlPlanes: int, workers: int, nodes: seq<Node>, i: nat)
    requires i < |nodes| && Kept(subnet, controlPlanes, workers, nodes)
    ensures var left := nodes[..i] + nodes[i + 1..];
      && (if nodes[i].role == ControlPlane then Kept(subnet, controlPlanes - 1, workers, left)
          else Kept(subnet, controlPlanes, workers - 1, left))
      && !Named(left, nodes[i].name)
  {
    CutKeepsAddresses(nodes, i, subnet);
    CutKeepsNames(nodes, i);
    CutCount(nodes, i);
    hide Addressed, DistinctNames, PlainForm, ControlPlanes, Named;
  }

  // ----- A new cluster

  function NumberedName(cluster: string, role: Role, i: int): string { NamePrefix(cluster, role) + Itoa(i) }

  /** The nodes a new cluster starts with: control planes, then workers, addressed in order. */
  ghost function Fresh(cluster: string, subnet: int, controlPlanes: nat, workers: nat): seq<Node>
  {
    seq(controlPlanes + workers, i requires 0 <= i < controlPlanes + workers =>
      var role := if i < controlPlanes then ControlPlane else Worker;
      Node(NumberedName(cluster, role, if i < controlPlanes then i + 1 else i - controlPlanes + 1), role,
        Addr(false, subnet, FIRST_HOST + i)))
  }

  lemma NumberedDiffer(cluster: string, roleA: Role, i: int, roleB: Role, j: int)
    requires MIN_INT <= i <= MAX_INT && MIN_INT <= j <= MAX_INT
    requires (roleA == ControlPlane) != (roleB == ControlPlane) || (roleA == roleB && i != j)
    ensures NumberedName(cluster, roleA, i) != NumberedName(cluster, roleB, j)
  {
    if roleA == roleB {
      IndexOfWritten(NamePrefix(cluster, roleA), i);
      IndexOfWritten(NamePrefix(cluster, roleA), j);
    } else {
      hide Itoa;
      assert NumberedName(cluster, roleA, i)[|cluster| + 1] == Label(roleA)[0];
      assert NumberedName(cluster, roleB, j)[|cluster| + 1] == Label(roleB)[0];
    }
  }

  lemma FreshNames(cluster: string, subnet: int, controlPlanes: nat, workers: nat)
    requires controlPlanes + workers <= CAPACITY
    ensures DistinctNames(Fresh(cluster, subnet, controlPlanes, workers))
  {
    var nodes := Fresh(cluster, subnet, controlPlanes, workers);
    forall i, j | 0 <= i < j < |nodes|
      ensures nodes[i].name != nodes[j].name
    {
      NumberedDiffer(cluster,
        nodes[i].role, if i < controlPlanes then i + 1 else i - controlPlanes + 1,
        nodes[j].role, if j < controlPlanes then j + 1 else j - controlPlanes + 1);
    }
  }

  lemma {:induction false} FreshCount(cluster: string, subnet: int, controlPlanes: nat, workers: nat, k: nat)
    requires k <= controlPlanes + workers
    ensures ControlPlanes(Fresh(cluster, subnet, controlPlanes, workers)[..k]) ==
      if k < controlPlanes then k else controlPlanes
    decreases k
  {
    if k > 0 {
      var nodes := Fresh(cluster, subnet, controlPlanes, workers);
      FreshCount(cluster, subnet, controlPlanes, workers, k - 1);
      assert nodes[..k][..k - 1] == nodes[..k - 1];
      hide Fresh;
    }
  }

  lemma FreshKept(cluster: string, subnet: int, controlPlanes: nat, workers: nat)
    requires 0 <= subnet <= MAX_SUBNET && controlPlanes + workers <= CAPACITY
    ensures Kept(subnet, controlPlanes, workers, Fresh(cluster, subnet, controlPlanes, workers))
    ensures AllSet(Fresh(cluster, subnet, controlPlanes, workers))
  {
    var nodes := Fresh(cluster, subnet, controlPlanes, workers);
    FreshNames(cluster, subnet, controlPlanes, workers);
    FreshCount(cluster, subnet, controlPlanes, workers, |nodes|);
    assert nodes[..|nodes|] == nodes;
    assert forall i :: 0 <= i < |nodes| ==> nodes[i].ip == Addr(false, subnet, FIRST_HOST + i);
    hide Fresh, ControlPlanes, DistinctNames;
  }

  /** First the control planes, then the workers, each kind numbered from one and all of them addressed
      from host 2 up. */
  ghost predicate NumberedInOrder(nodes: seq<Node>, cluster: string, subnet: int, controlPlanes: nat, workers: nat)
  {
    && |nodes| == controlPlanes + workers
    && (forall i :: 0 <= i < |nodes| ==> nodes[i].ip == Addr(false, subnet, 2 + i))
    && (forall i :: 0 <= i < controlPlanes ==>
          nodes[i].role == ControlPlane && nodes[i].name == cluster + "-cp-" + Itoa(i + 1))
    && (forall i :: controlPlanes <= i < |nodes| ==>
          nodes[i].role == Worker && nodes[i].name == cluster + "-worker-" + Itoa(i - controlPlanes + 1))
  }

  lemma FreshInOrder(cluster: string, subnet: int, controlPlanes: nat, workers: nat)
    ensures NumberedInOrder(Fresh(cluster, subnet, controlPlanes, workers), cluster, subnet, controlPlanes, workers)
  {
    var nodes := Fresh(cluster, subnet, controlPlanes, workers);
    PrefixMeans(cluster, ControlPlane);
    PrefixMeans(cluster, Worker);
    hide NamePrefix, Itoa;
    assert forall i :: 0 <= i < controlPlanes ==> nodes[i].name == NumberedName(cluster, ControlPlane, i + 1);
    assert forall i :: controlPlanes <= i < |nodes| ==>
      nodes[i].name == NumberedName(cluster, Worker, i - controlPlanes + 1);
  }

  datatype Sizing = Sizing(memoryMiB: int, cpus: int, diskGiB: int)

  function WithDefaults(s: Sizing): Sizing
  {
    Sizing(if s.memoryMiB == 0 then 2048 else s.memoryMiB,
           if s.cpus == 0 then 2 else s.cpus,
           if s.diskGiB == 0 then 20 else s.diskGiB)
  }

  // ----- The cluster on record

  type SubnetIndex = n: int | 0 <= n <= MAX_SUBNET

  lemma SameWhenSet(before: seq<Node>, after: seq<Node>)
    requires OnlyFilled(before, after)
    ensures AllSet(before) ==> after == before
  {
    if AllSet(before) {
      assert forall i :: 0 <= i < |before| ==> after[i] == before[i];
    }
  }

  /** The addresses on record, as they are spelled. */
  method Spellings(nodes: seq<Node>) returns (used: set<Address>)
    ensures used == Spelled(nodes)
  {
    used := {};
    for i := 0 to |nodes|
      invariant used == Spelled(nodes[..i])
    {
      used := used + {nodes[i].ip};
      SpelledLast(nodes, i);
    }
    assert nodes[..|nodes|] == nodes;
  }

  lemma SpelledLast(nodes: seq<Node>, i: nat)
    requires i < |nodes|
    ensures Spelled(nodes[..i + 1]) == Spelled(nodes[..i]) + {nodes[i].ip}
  {
    forall a | a in Spelled(nodes[..i]) + {nodes[i].ip}
      ensures a in Spelled(nodes[..i + 1])
    {
      var j :| 0 <= j < i + 1 && nodes[j].ip == a;
      assert nodes[..i + 1][j].ip == a;
    }
  }

  lemma FilledSize(before: seq<Node>, after: seq<Node>)
    requires OnlyFilled(before, after)
    ensures |after| == |before|
  {
  }

  lemma KeptRoom(subnet: int, controlPlanes: int, workers: int, nodes: seq<Node>)
    ensures Kept(subnet, controlPlanes, workers, nodes) ==> Addressed(nodes, subnet)
    ensures Kept(subnet, controlPlanes, workers, nodes) && AllSet(nodes) ==>
      && |nodes| <= CAPACITY
      && (FirstFree(subnet, Spelled(nodes), FIRST_HOST).None? <==> |nodes| == CAPACITY)
  {
    if Kept(subnet, controlPlanes, workers, nodes) && AllSet(nodes) {
      hide FirstFree, Spelled, ControlPlanes, Addressed;
      NextForPlain(nodes, subnet);
      RoomFor(nodes, subnet);
      AssignedBounds(nodes);
    }
  }

  /** One node has been added behind the others, with the lowest address not spelled there. */
  ghost predicate Appended(before: seq<Node>, after: seq<Node>, subnet: int, node: Node)
  {
    && |after| == |before| + 1 && after[|before|] == node
    && OnlyFilled(before, after[..|before|]) && AllSet(after[..|before|])
    && FirstFree(subnet, Spelled(after[..|before|]), FIRST_HOST) == Some(node.ip)
  }

  lemma AppendedLast(before: seq<Node>, filled: seq<Node>, subnet: int, node: Node)
    requires OnlyFilled(before, filled) && AllSet(filled)
    requires FirstFree(subnet, Spelled(filled), FIRST_HOST) == Some(node.ip)
    ensures Appended(before, filled + [node], subnet, node)
  {
    assert (filled + [node])[..|before|] == filled;
  }

  datatype Addition = BadRole | BadName | Duplicate | BadReservation | NoAddress | Added(node: Node)

  class Cluster {
    const name: string
    const subnetIndex: SubnetIndex
    const defaults: Sizing
    var controlPlanes: int
    var workers: int
    var nodes: seq<Node>

    constructor (name: string, subnetIndex: SubnetIndex, controlPlanes: int, workers: int, defaults: Sizing,
                 nodes: seq<Node>)
      ensures this.name == name && this.subnetIndex == subnetIndex && this.defaults == defaults
      ensures this.controlPlanes == controlPlanes && this.workers == workers && this.nodes == nodes
    {
      this.name, this.subnetIndex, this.defaults := name, subnetIndex, defaults;
      this.controlPlanes, this.workers, this.nodes := controlPlanes, workers, nodes;
    }

    ghost predicate Sound()
      reads this
    {
      Kept(subnetIndex, controlPlanes, workers, nodes)
    }

    static method New(name: string, subnetIndex: int, controlPlanes: int, workers: int, defaults: Sizing)
      returns (c: Option<Cluster>)
      ensures c.Some? <==>
        && ValidName(name) && 0 <= subnetIndex <= 255
        && controlPlanes >= 0 && workers >= 0 && controlPlanes + workers <= 178
        && defaults.memoryMiB >= 0 && defaults.cpus >= 0 && defaults.diskGiB >= 0
      ensures c.Some? ==>
        && fresh(c.value) && c.value.Sound()
        && c.value.name == name && c.value.subnetIndex == subnetIndex
        && c.value.defaults.memoryMiB == (if defaults.memoryMiB > 0 then defaults.memoryMiB else 2048)
        && c.value.defaults.cpus == (if defaults.cpus > 0 then defaults.cpus else 2)
        && c.value.defaults.diskGiB == (if defaults.diskGiB > 0 then defaults.diskGiB else 20)
        && c.value.controlPlanes == controlPlanes && c.value.workers == workers
        && NumberedInOrder(c.value.nodes, name, subnetIndex, controlPlanes, workers)
    {
      hide Base, NumberedInOrder;
      if !ValidName(name) {
        return None;
      }
      if subnetIndex < 0 || subnetIndex > MAX_SUBNET {
        return None;
      }
      if controlPlanes < 0 || workers < 0 {
        return None;
      }
      if controlPlanes + workers > CAPACITY {
        return None;
      }
      if defaults.memoryMiB < 0 || defaults.cpus < 0 || defaults.diskGiB < 0 {
        return None;
      }
      var nodes: seq<Node> := [];
      for i := 1 to controlPlanes + 1
        invariant nodes == Fresh(name, subnetIndex, controlPlanes, workers)[..i - 1]
      {
        var ip := Addr(false, subnetIndex, FIRST_HOST + |nodes|);
        nodes := nodes + [Node(NumberedName(name, ControlPlane, i), ControlPlane, ip)];
      }
      for i := 1 to workers + 1
        invariant nodes == Fresh(name, subnetIndex, controlPlanes, workers)[..controlPlanes + i - 1]
      {
        nodes := nodes + [Node(NumberedName(name, Worker, i), Worker, Addr(false, subnetIndex, FIRST_HOST + |nodes|))];
      }
      assert nodes == Fresh(name, subnetIndex, controlPlanes, workers);
      FreshKept(name, subnetIndex, controlPlanes, workers);
      FreshInOrder(name, subnetIndex, controlPlanes, workers);
      hide Kept, Fresh, NumberedInOrder;
      var made := new Cluster(name, subnetIndex, controlPlanes, workers, WithDefaults(defaults), nodes);
      return Some(made);
    }

    /** Gives every node without an address the lowest one that is free. Addresses on record stay
        as they are, also when the subnet runs out half way through. */
    method EnsureReservations() returns (result: Migration)
      modifies `nodes
      ensures OnlyFilled(old(nodes), nodes)
      ensures result == Invalid <==> !Addressed(old(nodes), subnetIndex)
      ensures result == Invalid ==> nodes == old(nodes)
      ensures result != Invalid ==> Addressed(nodes, subnetIndex) && (result == Exhausted <==> |old(nodes)| > CAPACITY)
      ensures result == Unchanged || result == Migrated ==> AllSet(nodes)
      ensures result == Unchanged ==> AllSet(old(nodes))
      ensures result == Migrated ==> !AllSet(old(nodes))
      ensures AllSet(old(nodes)) ==> nodes == old(nodes)
      ensures old(Sound()) ==> Sound()
    {
      hide Addressed, InUse, ControlPlanes;
      var used := CollectUsed(nodes, subnetIndex);
      if used.None? {
        return Invalid;
      }
      var filled;
      filled, result := FillAddresses(nodes, subnetIndex, used.value);
      SameWhenSet(nodes, filled);
      if Kept(subnetIndex, controlPlanes, workers, nodes) {
        FilledKeeps(subnetIndex, controlPlanes, workers, nodes, filled);
      }
      nodes := filled;
    }

    /** The address for one more node. The nodes are shared with the caller, so filling in the
        missing addresses is visible there too. */
    method NextReservation() returns (ip: Option<Address>, result: Migration)
      modifies `nodes
      ensures OnlyFilled(old(nodes), nodes)
      ensures result == Invalid <==> !Addressed(old(nodes), subnetIndex)
      ensures result == Invalid ==> nodes == old(nodes)
      ensures result != Invalid ==> Addressed(nodes, subnetIndex) && (result == Exhausted <==> |old(nodes)| > CAPACITY)
      ensures result == Invalid || result == Exhausted ==> ip.None?
      ensures result == Unchanged ==> AllSet(old(nodes))
      ensures result == Migrated ==> !AllSet(old(nodes))
      ensures result == Unchanged || result == Migrated ==>
        AllSet(nodes) && ip == FirstFree(subnetIndex, Spelled(nodes), FIRST_HOST)
      ensures old(Sound()) ==> Sound() && (ip.None? <==> |old(nodes)| >= CAPACITY)
    {
      hide Kept, Addressed, OnlyFilled;
      result := EnsureReservations();
      if result == Invalid || result == Exhausted {
        ip := None;
      } else {
        var used := Spellings(nodes);
        ip := LowestFreeReservation(subnetIndex, used);
      }
      KeptRoom(subnetIndex, controlPlanes, workers, nodes);
      FilledSize(old(nodes), nodes);
    }

    /** What AddNode is going to call the node. */
    ghost function Chosen(wanted: string, role: Role): string
      reads this
    {
      if wanted != "" then wanted else GeneratedName(nodes, NamePrefix(name, role))
    }

    /** The end of AddNode, once the name is settled. */
    method Append(role: Role, name: string) returns (result: Addition)
      requires role != UnknownRole && !Named(nodes, name)
      modifies `nodes, `controlPlanes, `workers
      ensures result == BadReservation <==> !Addressed(old(nodes), subnetIndex)
      ensures result == BadReservation || result == NoAddress || result.Added?
      ensures result.Added? ==>
        && result.node.name == name && result.node.role == role
        && Appended(old(nodes), nodes, subnetIndex, result.node)
        && controlPlanes == old(controlPlanes) + (if role == ControlPlane then 1 else 0)
        && workers == old(workers) + (if role == Worker then 1 else 0)
      ensures !result.Added? ==>
        controlPlanes == old(controlPlanes) && workers == old(workers) && OnlyFilled(old(nodes), nodes)
      ensures result == BadReservation ==> nodes == old(nodes)
      ensures old(Sound()) ==> Sound() && (result == NoAddress <==> |old(nodes)| >= CAPACITY)
    {
      hide Kept, Addressed, OnlyFilled, Named, Spelled, FirstFree, Appended;
      KeptRoom(subnetIndex, controlPlanes, workers, nodes);
      var ip, migration := NextReservation();
      if migration == Invalid {
        return BadReservation;
      }
      if ip.None? {
        return NoAddress;
      }
      var node := Node(name, role, ip.value);
      AppendedLast(old(nodes), nodes, subnetIndex, node);
      NamedFilled(old(nodes), nodes, name);
      if Kept(subnetIndex, controlPlanes, workers, nodes) {
        AddKeeps(subnetIndex, controlPlanes, workers, nodes, node);
      }
      nodes := nodes + [node];
      if role == ControlPlane {
        controlPlanes := controlPlanes + 1;
      } else {
        workers := workers + 1;
      }
      return Added(node);
    }

    method AddNode(role: Role, wanted: string) returns (result: Addition)
      modifies `nodes, `controlPlanes, `workers
      ensures result == BadRole <==> role == UnknownRole
      ensures result == BadName <==> role != UnknownRole && !ValidName(old(Chosen(wanted, role)))
      ensures result == Duplicate <==>
        role != UnknownRole && ValidName(old(Chosen(wanted, role))) && Named(old(nodes), old(Chosen(wanted, role)))
      ensures result == BadReservation <==>
        role != UnknownRole && ValidName(old(Chosen(wanted, role))) && !Named(old(nodes), old(Chosen(wanted, role)))
          && !Addressed(old(nodes), subnetIndex)
      ensures result.Added? ==>
        && result.node.name == old(Chosen(wanted, role)) && result.node.role == role
        && Appended(old(nodes), nodes, subnetIndex, result.node)
        && controlPlanes == old(controlPlanes) + (if role == ControlPlane then 1 else 0)
        && workers == old(workers) + (if role == Worker then 1 else 0)
      ensures !result.Added? ==>
        controlPlanes == old(controlPlanes) && workers == old(workers) && OnlyFilled(old(nodes), nodes)
      ensures result != NoAddress && !result.Added? ==> nodes == old(nodes)
      ensures old(Sound()) ==>
        && Sound()
        && (result == NoAddress <==>
              role != UnknownRole && ValidName(old(Chosen(wanted, role)))
                && !Named(old(nodes), old(Chosen(wanted, role))) && |old(nodes)| >= CAPACITY)
    {
      hide Kept, Addressed, OnlyFilled, Spelled, FirstFree, Appended, GeneratedName, NamePrefix, Base;
      FilledByNothing(nodes);
      if role != ControlPlane && role != Worker {
        return BadRole;
      }
      var name := wanted;
      if wanted == "" {
        name := NextNodeName(this.name, nodes, role);
        PrefixMeans(this.name, role);
      }
      if !ValidName(name) {
        return BadName;
      }
      for i := 0 to |nodes|
        invariant forall j :: 0 <= j < i ==> nodes[j].name != name
      {
        if nodes[i].name == name {
          return Duplicate;
        }
      }
      result := Append(role, name);
    }

    /** Takes out the first node of that name. */
    method RemoveNode(name: string) returns (removed: Option<Node>)
      modifies `nodes, `controlPlanes, `workers
      ensures removed.Some? <==> Named(old(nodes), name)
      ensures removed.None? ==> nodes == old(nodes) && controlPlanes == old(controlPlanes) && workers == old(workers)
      ensures removed.Some? ==>
        && removed.value.name == name && removed.value in old(nodes)
        && nodes == Removed(old(nodes), name) && |nodes| == |old(nodes)| - 1
        && controlPlanes == old(controlPlanes) - (if removed.value.role == ControlPlane then 1 else 0)
        && workers == old(workers) - (if removed.value.role == ControlPlane then 0 else 1)
      ensures old(Sound()) ==> Sound() && !Named(nodes, name)
    {
      for i := 0 to |nodes|
        invariant forall j :: 0 <= j < i ==> nodes[j].name != name
        invariant unchanged(this)
      {
        var node := nodes[i];
        if node.name != name {
          continue;
        }
        hide Kept, Named, Removed;
        RemovedAt(nodes, name, i);
        if Kept(subnetIndex, controlPlanes, workers, nodes) {
          RemoveKeeps(subnetIndex, controlPlanes, workers, nodes, i);
        }
        nodes := nodes[..i] + nodes[i + 1..];
        if node.role == ControlPlane {
          controlPlanes := controlPlanes - 1;
        } else {
          workers := workers - 1;
        }
        assert Named(old(nodes), name) by {
          NamedAt(old(nodes), i);
        }
        return Some(node);
      }
      removed := None;
    }
  }

  lemma PlainNameValid(name: string)
    requires '/' !in name && |name| > 2
    ensures ValidName(name)
  {
    hide Base;
    ValidNameMeans(name);
  }

  lemma DigitsPlain(n: int)
    ensures '/' !in Itoa(n)
  {
  }

  lemma WrappedChoice(c: Cluster, role: Role, a: Address, b: Address)
    requires '/' !in c.name
    requires var prefix := NamePrefix(c.name, role);
      c.nodes == [Node(prefix + Itoa(MAX_INT), role, a), Node(prefix + Itoa(MIN_INT), role, b)]
    ensures ValidName(c.Chosen("", role)) && Named(c.nodes, c.Chosen("", role))
  {
    hide *;
    var prefix := NamePrefix(c.name, role);
    PlainPrefix(c.name, role);
    WrappedNameExists(prefix, role, a, b);
    DigitsPlain(MIN_INT);
    ChosenUnnamed(c, role);
    PlainNameValid(prefix + Itoa(MIN_INT));
  }

  lemma PlainPrefix(name: string, role: Role)
    requires '/' !in name
    ensures '/' !in NamePrefix(name, role) && |NamePrefix(name, role)| > 2
  {
  }

  lemma ChosenUnnamed(c: Cluster, role: Role)
    ensures c.Chosen("", role) == GeneratedName(c.nodes, NamePrefix(c.name, role))
  {
    hide GeneratedName, NamePrefix;
  }

  /** With those two nodes and no name wanted, AddNode reports a node that already exists. */
  method AddAfterWrap(c: Cluster, role: Role, a: Address, b: Address) returns (result: Addition)
    requires role != UnknownRole && '/' !in c.name
    requires var prefix := NamePrefix(c.name, role);
      c.nodes == [Node(prefix + Itoa(MAX_INT), role, a), Node(prefix + Itoa(MIN_INT), role, b)]
    modifies c`nodes, c`controlPlanes, c`workers
    ensures result == Duplicate && c.nodes == old(c.nodes)
  {
    hide *;
    WrappedChoice(c, role, a, b);
    result := c.AddNode(role, "");
  }

  lemma NamedAt(nodes: seq<Node>, i: nat)
    requires i < |nodes|
    ensures Named(nodes, nodes[i].name)
  {
  }
}
