/** A cluster's nodes, their names, role counters and addresses: internal/cluster/cluster.go,
    node.go and reservation.go. */
module Nodes {
  import opened Options
  import opened Text
  import Totals

  datatype Role = ControlPlane | Worker | UnknownRole

  /** An address as the state file spells it. A reservation is 172.30.subnet.host; the same
      address may also be written in its IPv4-mapped IPv6 form. Anything else is no reservation. */
  datatype Address = Unset | Addr(mapped: bool, subnet: int, host: int) | Alien

  datatype Node = Node(name: string, role: Role, ip: Address)

  const MAX_SUBNET := 255
  const FIRST_HOST := 2
  const LAST_HOST := 179
  const CAPACITY := 178

  predicate ValidReservation(ip: Address, subnet: int)
  {
    ip.Addr? && 0 <= subnet <= MAX_SUBNET && ip.subnet == subnet && FIRST_HOST <= ip.host <= LAST_HOST
  }

  /** The spelling a parsed address is printed in. */
  function Canonical(ip: Address): Address
  {
    if ip.Addr? then ip.(mapped := false) else ip
  }

  // ----- Free addresses

  function FirstFree(subnet: int, used: set<Address>, host: int): (r: Option<Address>)
    requires FIRST_HOST <= host <= LAST_HOST + 1
    ensures r.Some? ==>
      r.value.Addr? && r.value == Addr(false, subnet, r.value.host) && host <= r.value.host <= LAST_HOST
        && r.value !in used
    ensures r.Some? ==> forall h :: host <= h < r.value.host ==> Addr(false, subnet, h) in used
    ensures r.None? ==> forall h :: host <= h <= LAST_HOST ==> Addr(false, subnet, h) in used
    decreases LAST_HOST + 1 - host
  {
    if host > LAST_HOST then None
    else if Addr(false, subnet, host) !in used then Some(Addr(false, subnet, host))
    else FirstFree(subnet, used, host + 1)
  }

  method LowestFreeReservation(subnet: int, used: set<Address>) returns (ip: Option<Address>)
    ensures ip == FirstFree(subnet, used, FIRST_HOST)
  {
    for host := FIRST_HOST to LAST_HOST + 1
      invariant FirstFree(subnet, used, FIRST_HOST) == FirstFree(subnet, used, host)
    {
      var candidate := Addr(false, subnet, host);
      if candidate !in used {
        return Some(candidate);
      }
    }
    return None;
  }

  ghost function Range(subnet: int, n: nat): set<Address>
  {
    set h | FIRST_HOST <= h < FIRST_HOST + n :: Addr(false, subnet, h)
  }

  lemma {:induction false} RangeSize(subnet: int, n: nat)
    ensures |Range(subnet, n)| == n
    decreases n
  {
    if n > 0 {
      RangeSize(subnet, n - 1);
      assert Range(subnet, n) == Range(subnet, n - 1) + {Addr(false, subnet, FIRST_HOST + n - 1)};
    }
  }

  /** A subnet runs out of addresses exactly when all of its reservations are in use. */
  lemma FreeIffRoom(subnet: int, used: set<Address>)
    requires forall a :: a in used ==> a.Addr? && a == Addr(false, subnet, a.host) && FIRST_HOST <= a.host <= LAST_HOST
    ensures |used| <= CAPACITY
    ensures FirstFree(subnet, used, FIRST_HOST).None? <==> |used| == CAPACITY
  {
    var all := Range(subnet, CAPACITY);
    RangeSize(subnet, CAPACITY);
    forall a | a in used
      ensures a in all
    {
      assert a == Addr(false, subnet, a.host);
    }
    Totals.SubsetSize(used, all);
    var r := FirstFree(subnet, used, FIRST_HOST);
    if |used| == CAPACITY {
      Totals.SubsetEqual(used, all);
    }
    if r.None? {
      forall a | a in all
        ensures a in used
      {
      }
      assert used == all;
    } else {
      assert r.value in all;
    }
  }

  // ----- What the nodes of a cluster keep

  ghost predicate DistinctNames(nodes: seq<Node>)
  {
    forall i, j :: 0 <= i < j < |nodes| ==> nodes[i].name != nodes[j].name
  }

  /** Every address that is set is a valid reservation, and no two are the same. */
  ghost predicate Addressed(nodes: seq<Node>, subnet: int)
  {
    && (forall i :: 0 <= i < |nodes| && nodes[i].ip != Unset ==> ValidReservation(nodes[i].ip, subnet))
    && (forall i, j :: 0 <= i < j < |nodes| && nodes[i].ip != Unset && nodes[j].ip != Unset ==>
          Canonical(nodes[i].ip) != Canonical(nodes[j].ip))
  }

  ghost predicate PlainForm(nodes: seq<Node>)
  {
    forall i :: 0 <= i < |nodes| ==> nodes[i].ip == Canonical(nodes[i].ip)
  }

  /** The addresses in use, in the spelling they are printed in. */
  ghost function InUse(nodes: seq<Node>): set<Address>
  {
    set i | 0 <= i < |nodes| && nodes[i].ip != Unset :: Canonical(nodes[i].ip)
  }

  ghost function Assigned(nodes: seq<Node>): nat
  {
    if nodes == [] then 0
    else Assigned(nodes[..|nodes| - 1]) + if nodes[|nodes| - 1].ip == Unset then 0 else 1
  }

  lemma InUseLast(nodes: seq<Node>, last: Node)
    ensures InUse(nodes + [last]) == if last.ip == Unset then InUse(nodes) else InUse(nodes) + {Canonical(last.ip)}
  {
    var all := nodes + [last];
    forall a | a in InUse(nodes)
      ensures a in InUse(all)
    {
      var i :| 0 <= i < |nodes| && nodes[i].ip != Unset && Canonical(nodes[i].ip) == a;
      assert all[i] == nodes[i];
    }
    assert all[|nodes|] == last;
  }

  lemma AddressedLast(nodes: seq<Node>, last: Node, subnet: int)
    ensures Addressed(nodes + [last], subnet) <==>
      && Addressed(nodes, subnet)
      && (last.ip == Unset || (ValidReservation(last.ip, subnet) && Canonical(last.ip) !in InUse(nodes)))
  {
    var all := nodes + [last];
    assert all[|nodes|] == last;
    assert forall i :: 0 <= i < |nodes| ==> all[i] == nodes[i];
    hide ValidReservation, Canonical;
  }

  lemma AddressedPrefix(nodes: seq<Node>, k: nat, subnet: int)
    requires k <= |nodes|
    ensures Addressed(nodes, subnet) ==> Addressed(nodes[..k], subnet)
  {
  }

  lemma {:induction false} InUseSize(nodes: seq<Node>, subnet: int)
    requires Addressed(nodes, subnet)
    ensures |InUse(nodes)| == Assigned(nodes)
    ensures forall a :: a in InUse(nodes) ==>
      a.Addr? && a == Addr(false, subnet, a.host) && FIRST_HOST <= a.host <= LAST_HOST
    decreases |nodes|
  {
    if nodes != [] {
      var n := |nodes| - 1;
      assert nodes == nodes[..n] + [nodes[n]];
      AddressedLast(nodes[..n], nodes[n], subnet);
      InUseLast(nodes[..n], nodes[n]);
      hide Addressed, InUse;
      InUseSize(nodes[..n], subnet);
    }
  }

  // ----- Migration of nodes without an address

  datatype Migration = Unchanged | Migrated | Invalid | Exhausted

  /** The first loop: the addresses in use, or None when one is not a valid reservation of
      this subnet or is assigned twice. */
  method CollectUsed(nodes: seq<Node>, subnet: int) returns (used: Option<set<Address>>)
    ensures used.Some? <==> Addressed(nodes, subnet)
    ensures used.Some? ==> used.value == InUse(nodes)
  {
    var seen: set<Address> := {};
    for i := 0 to |nodes|
      invariant Addressed(nodes[..i], subnet) && seen == InUse(nodes[..i])
    {
      hide Addressed, InUse;
      var ip := nodes[i].ip;
      assert nodes[..i + 1] == nodes[..i] + [nodes[i]];
      AddressedLast(nodes[..i], nodes[i], subnet);
      InUseLast(nodes[..i], nodes[i]);
      if ip == Unset {
        continue;
      }
      if !ValidReservation(ip, subnet) {
        AddressedPrefix(nodes, i + 1, subnet);
        return None;
      }
      var key := Canonical(ip);
      if key in seen {
        AddressedPrefix(nodes, i + 1, subnet);
        return None;
      }
      seen := seen + {key};
    }
    assert nodes[..|nodes|] == nodes;
    return Some(seen);
  }

  ghost predicate AllSet(nodes: seq<Node>)
  {
    forall i :: 0 <= i < |nodes| ==> nodes[i].ip != Unset
  }

  lemma {:induction false} AssignedBounds(nodes: seq<Node>)
    ensures Assigned(nodes) <= |nodes|
    ensures Assigned(nodes) == |nodes| <==> AllSet(nodes)
    decreases |nodes|
  {
    if nodes != [] {
      AssignedBounds(nodes[..|nodes| - 1]);
    }
  }

  lemma SetAddress(nodes: seq<Node>, i: nat, ip: Address, subnet: int)
    requires i < |nodes| && nodes[i].ip == Unset && Addressed(nodes, subnet)
    requires ip.Addr? && !ip.mapped && ip !in InUse(nodes) && ValidReservation(ip, subnet)
    ensures var filled := nodes[i := nodes[i].(ip := ip)];
      Addressed(filled, subnet) && InUse(filled) == InUse(nodes) + {ip}
  {
    var filled := nodes[i := nodes[i].(ip := ip)];
    assert forall j :: 0 <= j < |nodes| && j != i ==> filled[j] == nodes[j];
    assert filled[i].ip == ip;
    forall j | 0 <= j < |nodes| && j != i && nodes[j].ip != Unset
      ensures Canonical(nodes[j].ip) != ip
    {
      assert Canonical(nodes[j].ip) in InUse(nodes);
    }
    hide ValidReservation, Canonical;
    forall a | a in InUse(nodes)
      ensures a in InUse(filled)
    {
      var j :| 0 <= j < |nodes| && nodes[j].ip != Unset && Canonical(nodes[j].ip) == a;
      assert filled[j] == nodes[j];
    }
  }

  /** Nothing but missing addresses has been filled in. */
  ghost predicate OnlyFilled(before: seq<Node>, after: seq<Node>)
  {
    && |after| == |before|
    && forall i :: 0 <= i < |before| ==>
         && after[i].name == before[i].name && after[i].role == before[i].role
         && (before[i].ip != Unset ==> after[i].ip == before[i].ip)
         && (before[i].ip == Unset ==> after[i].ip == Canonical(after[i].ip))
  }

  /** A subnet has room for all of its nodes exactly when there are at most 178. */
  lemma RoomFor(nodes: seq<Node>, subnet: int)
    requires Addressed(nodes, subnet)
    ensures FirstFree(subnet, InUse(nodes), FIRST_HOST).None? <==> Assigned(nodes) == CAPACITY
    ensures Assigned(nodes) <= CAPACITY
  {
    InUseSize(nodes, subnet);
    FreeIffRoom(subnet, InUse(nodes));
  }

  /** The second loop: the lowest free address for each node without one. */
  method FillAddresses(nodes: seq<Node>, subnet: int, inUse: set<Address>)
    returns (filled: seq<Node>, result: Migration)
    requires Addressed(nodes, subnet) && inUse == InUse(nodes) && 0 <= subnet <= MAX_SUBNET
    ensures OnlyFilled(nodes, filled) && Addressed(filled, subnet)
    ensures result == Exhausted <==> |nodes| > CAPACITY
    ensures result != Exhausted ==>
      AllSet(filled) && (result == Unchanged <==> AllSet(nodes)) && (result == Migrated <==> !AllSet(nodes))
  {
    hide Addressed, InUse, OnlyFilled, Assigned, FirstFree, Canonical, ValidReservation;
    FilledByNothing(nodes);
    filled, result := nodes, Unchanged;
    var used := inUse;
    for i := 0 to |nodes|
      invariant OnlyFilled(nodes, filled) && Addressed(filled, subnet) && used == InUse(filled)
      invariant |filled| == |nodes|
      invariant forall j :: 0 <= j < i ==> filled[j].ip != Unset
      invariant forall j :: i <= j < |nodes| ==> filled[j] == nodes[j]
      invariant result == Unchanged || result == Migrated
      invariant result == Unchanged <==> forall j :: 0 <= j < i ==> nodes[j].ip != Unset
    {
      if filled[i].ip != Unset {
        continue;
      }
      var ip := LowestFreeReservation(subnet, used);
      RoomFor(filled, subnet);
      if ip.None? {
        SomeUnset(filled, i);
        result := Exhausted;
        return;
      }
      PlainIsValid(ip.value, subnet);
      SetAddress(filled, i, ip.value, subnet);
      FillOne(nodes, filled, i, ip.value);
      filled := filled[i := filled[i].(ip := ip.value)];
      used := used + {ip.value};
      result := Migrated;
    }
    RoomFor(filled, subnet);
    AssignedBounds(filled);
  }

  lemma FilledByNothing(nodes: seq<Node>)
    ensures OnlyFilled(nodes, nodes)
  {
  }

  lemma PlainIsValid(ip: Address, subnet: int)
    requires 0 <= subnet <= MAX_SUBNET && ip.Addr? && ip == Addr(false, subnet, ip.host)
    requires FIRST_HOST <= ip.host <= LAST_HOST
    ensures ValidReservation(ip, subnet)
  {
  }

  lemma SomeUnset(nodes: seq<Node>, i: nat)
    requires i < |nodes| && nodes[i].ip == Unset
    ensures Assigned(nodes) < |nodes|
  {
    AssignedBounds(nodes);
  }

  lemma FillOne(before: seq<Node>, after: seq<Node>, i: nat, ip: Address)
    requires OnlyFilled(before, after) && i < |before| && before[i].ip == Unset && ip.Addr? && !ip.mapped
    ensures OnlyFilled(before, after[i := after[i].(ip := ip)])
  {
  }

  // ----- The address of the next node

  /** The spellings on record, as they stand. */
  ghost function Spelled(nodes: seq<Node>): set<Address>
  {
    set i | 0 <= i < |nodes| :: nodes[i].ip
  }

  lemma PlainSpelling(nodes: seq<Node>)
    requires AllSet(nodes) && PlainForm(nodes)
    ensures Spelled(nodes) == InUse(nodes)
  {
    forall a | a in Spelled(nodes)
      ensures a in InUse(nodes)
    {
      var i :| 0 <= i < |nodes| && nodes[i].ip == a;
      assert Canonical(nodes[i].ip) == a;
    }
    forall a | a in InUse(nodes)
      ensures a in Spelled(nodes)
    {
      var i :| 0 <= i < |nodes| && nodes[i].ip != Unset && Canonical(nodes[i].ip) == a;
      assert nodes[i].ip == a;
    }
  }

  lemma SpelledAt(nodes: seq<Node>, i: nat)
    requires i < |nodes|
    ensures nodes[i].ip in Spelled(nodes)
    ensures nodes[i].ip != Unset ==> Canonical(nodes[i].ip) in InUse(nodes)
  {
  }

  /** Some host below is neither spelled nor otherwise in use. */
  ghost predicate FreeBelow(nodes: seq<Node>, subnet: int, m: int)
  {
    exists h :: FIRST_HOST <= h < m && Addr(false, subnet, h) !in InUse(nodes)
  }

  lemma FreshFreesBelow(nodes: seq<Node>, subnet: int, i: nat)
    requires AllSet(nodes) && Addressed(nodes, subnet) && FirstFree(subnet, Spelled(nodes), FIRST_HOST).Some?
    requires FirstFree(subnet, Spelled(nodes), FIRST_HOST).value !in InUse(nodes)
    requires i < |nodes| && nodes[i].ip.Addr? && nodes[i].ip.mapped
    ensures FreeBelow(nodes, subnet, nodes[i].ip.host)
  {
    var ip, m := FirstFree(subnet, Spelled(nodes), FIRST_HOST).value, nodes[i].ip.host;
    SpelledAt(nodes, i);
    NotBothForms(nodes, subnet, i);
    assert ip == Addr(false, subnet, ip.host) && ip.host < m;
  }

  /** A host held in mapped form is not also on record in plain form. */
  lemma NotBothForms(nodes: seq<Node>, subnet: int, i: nat)
    requires Addressed(nodes, subnet) && i < |nodes| && nodes[i].ip.Addr? && nodes[i].ip.mapped
    ensures Addr(false, subnet, nodes[i].ip.host) !in Spelled(nodes)
  {
    forall j | 0 <= j < |nodes|
      ensures nodes[j].ip != Addr(false, subnet, nodes[i].ip.host)
    {
      assert j != i ==> nodes[j].ip == Unset || Canonical(nodes[i].ip) != Canonical(nodes[j].ip);
    }
  }

  lemma CollisionFillsBelow(nodes: seq<Node>, subnet: int) returns (i: nat)
    requires AllSet(nodes) && Addressed(nodes, subnet) && FirstFree(subnet, Spelled(nodes), FIRST_HOST).Some?
    requires FirstFree(subnet, Spelled(nodes), FIRST_HOST).value in InUse(nodes)
    ensures i < |nodes| && nodes[i].ip.Addr? && nodes[i].ip.mapped && !FreeBelow(nodes, subnet, nodes[i].ip.host)
  {
    var ip := FirstFree(subnet, Spelled(nodes), FIRST_HOST).value;
    i :| 0 <= i < |nodes| && nodes[i].ip != Unset && Canonical(nodes[i].ip) == ip;
    SpelledAt(nodes, i);
    forall h | FIRST_HOST <= h < ip.host
      ensures Addr(false, subnet, h) in InUse(nodes)
    {
      assert Addr(false, subnet, h) in Spelled(nodes);
      var j :| 0 <= j < |nodes| && nodes[j].ip == Addr(false, subnet, h);
      SpelledAt(nodes, j);
    }
  }

  /** The address given to a new node is compared with the spellings on record, not with the
      addresses. It is a fresh address if and only if below every host held in mapped form there is
      one that is not in use. */
  lemma NextIsFreshIff(nodes: seq<Node>, subnet: int)
    requires AllSet(nodes) && Addressed(nodes, subnet) && FirstFree(subnet, Spelled(nodes), FIRST_HOST).Some?
    ensures FirstFree(subnet, Spelled(nodes), FIRST_HOST).value !in InUse(nodes) <==>
      forall i :: 0 <= i < |nodes| && nodes[i].ip.Addr? && nodes[i].ip.mapped ==>
        FreeBelow(nodes, subnet, nodes[i].ip.host)
  {
    if FirstFree(subnet, Spelled(nodes), FIRST_HOST).value in InUse(nodes) {
      var i := CollisionFillsBelow(nodes, subnet);
    } else {
      forall i: nat | i < |nodes| && nodes[i].ip.Addr? && nodes[i].ip.mapped
        ensures FreeBelow(nodes, subnet, nodes[i].ip.host)
      {
        FreshFreesBelow(nodes, subnet, i);
      }
    }
  }

  /** A node whose address is spelled ::ffff:172.30.s.2 has it handed out a second time. */
  lemma MappedFormCollides(subnet: int, name: string, role: Role)
    requires 0 <= subnet <= MAX_SUBNET
    ensures var nodes := [Node(name, role, Addr(true, subnet, 2))];
      && AllSet(nodes) && Addressed(nodes, subnet)
      && FirstFree(subnet, Spelled(nodes), FIRST_HOST) == Some(Addr(false, subnet, 2))
      && Addr(false, subnet, 2) in InUse(nodes)
  {
    var nodes := [Node(name, role, Addr(true, subnet, 2))];
    assert Canonical(nodes[0].ip) in InUse(nodes);
    assert Addr(false, subnet, 2) !in Spelled(nodes);
  }

  // ----- Names

  function Label(role: Role): string { if role == ControlPlane then "cp" else "worker" }

  function NamePrefix(cluster: string, role: Role): string { cluster + "-" + Label(role) + "-" }

  /** The number a name carries after the prefix, zero when it carries none. */
  function NameIndex(name: string, prefix: string): (n: int)
    ensures MIN_INT <= n <= MAX_INT
  {
    if !HasPrefix(name, prefix) then 0
    else match Atoi(name[|prefix|..]) case Parsed(n) => n case Malformed => 0
  }

  /** The highest number any node carries after the prefix, zero when none carries one. */
  ghost function Highest(nodes: seq<Node>, prefix: string): (highest: int)
    ensures 0 <= highest <= MAX_INT
  {
    if nodes == [] then 0
    else
      var before := Highest(nodes[..|nodes| - 1], prefix);
      var index := NameIndex(nodes[|nodes| - 1].name, prefix);
      if index > before then index else before
  }

  lemma {:induction false} HighestIsMaximum(nodes: seq<Node>, prefix: string)
    ensures forall i :: 0 <= i < |nodes| ==> NameIndex(nodes[i].name, prefix) <= Highest(nodes, prefix)
    ensures Highest(nodes, prefix) > 0 ==>
      exists i :: 0 <= i < |nodes| && NameIndex(nodes[i].name, prefix) == Highest(nodes, prefix)
    decreases |nodes|
  {
    hide NameIndex;
    if nodes != [] {
      var n := |nodes| - 1;
      var before := nodes[..n];
      HighestIsMaximum(before, prefix);
      assert forall i :: 0 <= i < n ==> nodes[i] == before[i];
    }
  }

  /** One more than the highest number in use, in 64-bit arithmetic. */
  ghost function GeneratedName(nodes: seq<Node>, prefix: string): string
  {
    prefix + Itoa(Wrap(Highest(nodes, prefix) + 1))
  }

  lemma HighestStep(nodes: seq<Node>, prefix: string, i: nat)
    requires i < |nodes|
    ensures Highest(nodes[..0], prefix) == 0 && nodes[..|nodes|] == nodes
    ensures var before, index := Highest(nodes[..i], prefix), NameIndex(nodes[i].name, prefix);
      Highest(nodes[..i + 1], prefix) == if index > before then index else before
  {
    hide NameIndex;
    assert nodes[..i + 1][..i] == nodes[..i];
  }

  /** Control planes are numbered after "-cp-", every other node after "-worker-". */
  lemma PrefixMeans(cluster: string, role: Role)
    ensures NamePrefix(cluster, role) == cluster + if role == ControlPlane then "-cp-" else "-worker-"
  {
  }

  /** A name carries a number when the rest of it after the prefix is one. */
  lemma NameIndexMeans(name: string, prefix: string, rest: string)
    ensures name == prefix + rest ==>
      NameIndex(name, prefix) == match Atoi(rest) case Parsed(n) => n case Malformed => 0
    ensures !(prefix <= name) ==> NameIndex(name, prefix) == 0
  {
    assert (prefix + rest)[|prefix|..] == rest;
  }

  method NextNodeName(cluster: string, nodes: seq<Node>, role: Role) returns (name: string)
    ensures name == GeneratedName(nodes, cluster + if role == ControlPlane then "-cp-" else "-worker-")
  {
    hide Atoi, Itoa, NamePrefix;
    PrefixMeans(cluster, role);
    var prefix := NamePrefix(cluster, role);
    var maxIndex := 0;
    for i := 0 to |nodes|
      invariant maxIndex == Highest(nodes[..i], prefix)
    {
      hide Highest;
      HighestStep(nodes, prefix, i);
      if !HasPrefix(nodes[i].name, prefix) {
        continue;
      }
      var index := Atoi(nodes[i].name[|prefix|..]);
      if index.Parsed? && index.value > maxIndex {
        maxIndex := index.value;
      }
    }
    assert nodes[..|nodes|] == nodes;
    name := prefix + Itoa(Wrap(maxIndex + 1));
  }

  lemma IndexOfWritten(prefix: string, n: int)
    requires MIN_INT <= n <= MAX_INT
    ensures NameIndex(prefix + Itoa(n), prefix) == n
  {
    assert (prefix + Itoa(n))[|prefix|..] == Itoa(n);
    AtoiItoa(n);
  }

  ghost predicate Named(nodes: seq<Node>, name: string)
  {
    exists i :: 0 <= i < |nodes| && nodes[i].name == name
  }

  /** A generated name is new, except in one corner: a node numbered with the largest 64-bit
      integer makes the next number wrap, and a node may already carry that one too. */
  lemma GeneratedNameIsFreshIff(nodes: seq<Node>, prefix: string)
    ensures !Named(nodes, GeneratedName(nodes, prefix)) <==>
      !(Highest(nodes, prefix) == MAX_INT && Named(nodes, prefix + Itoa(MIN_INT)))
  {
    hide NameIndex, Itoa, Highest;
    var highest := Highest(nodes, prefix);
    HighestIsMaximum(nodes, prefix);
    if highest == MAX_INT {
      assert Wrap(MAX_INT + 1) == MIN_INT;
    } else {
      assert Wrap(highest + 1) == highest + 1;
      IndexOfWritten(prefix, highest + 1);
      assert !Named(nodes, prefix + Itoa(highest + 1));
    }
  }

  /** Two nodes numbered with the largest and the smallest 64-bit integer: the generated name is the
      name of the second. */
  lemma WrappedNameExists(prefix: string, role: Role, a: Address, b: Address)
    ensures var nodes := [Node(prefix + Itoa(MAX_INT), role, a), Node(prefix + Itoa(MIN_INT), role, b)];
      GeneratedName(nodes, prefix) == prefix + Itoa(MIN_INT) && Named(nodes, GeneratedName(nodes, prefix))
  {
    hide Itoa, NameIndex, Highest;
    var nodes := [Node(prefix + Itoa(MAX_INT), role, a), Node(prefix + Itoa(MIN_INT), role, b)];
    IndexOfWritten(prefix, MAX_INT);
    HighestIsMaximum(nodes, prefix);
    assert NameIndex(nodes[0].name, prefix) == MAX_INT;
    assert Wrap(MAX_INT + 1) == MIN_INT;
    assert nodes[1].name == prefix + Itoa(MIN_INT);
  }
}
