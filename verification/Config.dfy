/** Reading and printing talosbox.yaml: internal/config/config.go and marshal.go. The document is a
    record of its fields; None is a key that is absent. */
module Config {
  import opened Options
  import opened Text
  import opened Provisioning
  import opened Clusters
  import Domains

  // ----- The document

  datatype RawTalos = RawTalos(version: string, schematic: string, extensions: Option<seq<string>>)

  datatype RawNode = RawNode(memory: string, cpus: int, diskSize: string)

  datatype RawCluster = RawCluster(
    name: string, hypervisor: string, controlPlanes: Option<int>, workers: Option<int>, provisioning: Input,
    domain: string, allowUnsafeDomain: bool,
    node: RawNode, controlPlane: Option<RawNode>, worker: Option<RawNode>, talos: Option<RawTalos>)

  datatype RawConfig = RawConfig(version: Option<int>, talos: RawTalos, clusters: seq<RawCluster>)

  // ----- What is read from it

  datatype TalosSpec = TalosSpec(version: string, schematic: string, extensions: Option<seq<string>>)

  datatype ClusterSpec = ClusterSpec(
    name: string, hypervisor: string, controlPlanes: int, workers: int, intent: Intent,
    domain: string, allowUnsafeDomain: bool,
    node: Sizing, controlPlane: Option<Sizing>, worker: Option<Sizing>, talos: TalosSpec)

  datatype Config = Config(talos: TalosSpec, clusters: seq<ClusterSpec>)

  const NO_TALOS := TalosSpec("", "", None)
  const NO_RAW_TALOS := RawTalos("", "", None)
  const DEFAULT_NODE := Sizing(2048, 2, 20)

  // ----- Sizes

  /** Go's remainder, which takes the sign of the dividend. */
  function Rem(a: int, b: int): int
    requires b > 0
  {
    if a >= 0 then a % b else -((-a) % b)
  }

  /** Go's division, which truncates towards zero. */
  function Quot(a: int, b: int): int
    requires b > 0
  {
    if a >= 0 then a / b else -((-a) / b)
  }

  function ParseSizeMiB(s: string): (r: Option<int>)
    ensures r.Some? ==> MIN_INT <= r.value <= MAX_INT
  {
    if HasSuffix(s, "GiB") then
      match Atoi(TrimSuffix(s, "GiB"))
      case Parsed(n) => if n <= 0 then None else Some(Wrap(n * 1024))
      case Malformed => None
    else if HasSuffix(s, "MiB") then
      match Atoi(TrimSuffix(s, "MiB"))
      case Parsed(n) => if n <= 0 then None else Some(n)
      case Malformed => None
    else None
  }

  function SizeString(mib: int): string
  {
    if Rem(mib, 1024) == 0 then Itoa(Quot(mib, 1024)) + "GiB" else Itoa(mib) + "MiB"
  }

  lemma ParseGiB(n: int)
    requires MIN_INT <= n <= MAX_INT
    ensures ParseSizeMiB(Itoa(n) + "GiB") == if n <= 0 then None else Some(Wrap(n * 1024))
  {
    AtoiItoa(n);
    var s := Itoa(n) + "GiB";
    assert s[|s| - 3..] == "GiB";
    assert s[..|s| - 3] == Itoa(n);
  }

  lemma ParseMiB(n: int)
    requires MIN_INT <= n <= MAX_INT
    ensures ParseSizeMiB(Itoa(n) + "MiB") == if n <= 0 then None else Some(n)
  {
    AtoiItoa(n);
    var s := Itoa(n) + "MiB";
    assert s[|s| - 3..] == "MiB";
    assert s[..|s| - 3] == Itoa(n);
    assert s[|s| - 3] == 'M';
  }

  /** A size is a number and a unit; nothing else is one. */
  lemma SizeMeans(num: string, unit: string)
    requires unit in {"MiB", "GiB"}
    ensures ParseSizeMiB(num + unit) ==
      if Atoi(num) == Malformed || Atoi(num).value <= 0 then None
      else Some(Wrap(Atoi(num).value * if unit == "GiB" then 1024 else 1))
  {
    hide Atoi, Wrap;
    var s := num + unit;
    assert s[|s| - 3..] == unit && s[..|s| - 3] == num;
    assert unit[0] == 'M' <==> unit == "MiB";
    assert s[|s| - 3..][0] == unit[0];
    AtoiFits(num);
  }

  lemma AtoiFits(s: string)
    ensures Atoi(s).Parsed? ==> MIN_INT <= Atoi(s).value <= MAX_INT && Wrap(Atoi(s).value * 1) == Atoi(s).value
  {
  }

  lemma SizeHasUnit(s: string)
    ensures ParseSizeMiB(s).Some? ==> |s| > 3 && s == s[..|s| - 3] + s[|s| - 3..] && s[|s| - 3..] in {"MiB", "GiB"}
  {
    if |s| >= 3 {
      assert s == s[..|s| - 3] + s[|s| - 3..];
    }
    AtoiNothing();
    hide Atoi;
  }

  lemma AtoiNothing()
    ensures Atoi("") == Malformed
  {
  }

  /** A size is read back from what is printed for it exactly when it is positive. */
  lemma SizeRoundTrip(mib: int)
    requires MIN_INT <= mib <= MAX_INT
    ensures ParseSizeMiB(SizeString(mib)) == if mib > 0 then Some(mib) else None
  {
    if Rem(mib, 1024) == 0 {
      ParseGiB(Quot(mib, 1024));
    } else {
      ParseMiB(mib);
    }
  }

  lemma DiskRoundTrip(gib: int)
    requires MIN_INT <= gib * 1024 <= MAX_INT
    ensures ParseSizeMiB(Itoa(gib) + "GiB") == if gib > 0 then Some(gib * 1024) else None
  {
    ParseGiB(gib);
  }

  /** 2^54 GiB is accepted and wraps to a size of zero, which is then refused when printed. */
  lemma SizeWrapsToZero()
    ensures ParseSizeMiB(Itoa(0x40_0000_0000_0000) + "GiB") == Some(0)
    ensures ParseSizeMiB(SizeString(0)) == None
  {
    hide Itoa, ParseSizeMiB, SizeString;
    ParseGiB(0x40_0000_0000_0000);
    SizeRoundTrip(0);
  }

  // ----- Overlays

  function ResolveTalos(base: TalosSpec, raw: RawTalos): TalosSpec
  {
    TalosSpec(
      if raw.version != "" then raw.version else base.version,
      if raw.schematic != "" then raw.schematic else base.schematic,
      if raw.extensions.Some? then raw.extensions else base.extensions)
  }

  function ResolveNode(base: Sizing, raw: RawNode): Option<Sizing>
  {
    var memory := if raw.memory == "" then Some(base.memoryMiB) else ParseSizeMiB(raw.memory);
    var disk := if raw.diskSize == "" then Some(base.diskGiB)
                else match ParseSizeMiB(raw.diskSize)
                     case None => None
                     case Some(mib) => if Rem(mib, 1024) != 0 then None else Some(Quot(mib, 1024));
    if memory.None? || disk.None? then None
    else Some(Sizing(memory.value, if raw.cpus != 0 then raw.cpus else base.cpus, disk.value))
  }

  /** What resolution makes of any sizing: 64-bit sizes and a number of CPUs that is not zero. */
  predicate Resolved(s: Sizing)
  {
    MIN_INT <= s.memoryMiB <= MAX_INT && MIN_INT <= s.diskGiB * 1024 <= MAX_INT && s.cpus != 0
  }

  lemma ResolveNodeResolves(base: Sizing, raw: RawNode)
    requires Resolved(base)
    ensures ResolveNode(base, raw).Some? ==> Resolved(ResolveNode(base, raw).value)
  {
    hide ParseSizeMiB;
  }

  function PrintNode(s: Sizing): RawNode
  {
    RawNode(SizeString(s.memoryMiB), s.cpus, Itoa(s.diskGiB) + "GiB")
  }

  predicate Positive(s: Sizing) { s.memoryMiB > 0 && s.diskGiB > 0 }

  /** A printed sizing names all of its fields, so it does not matter what it is laid over. */
  lemma NodeRoundTrip(base: Sizing, s: Sizing)
    requires Resolved(s)
    ensures ResolveNode(base, PrintNode(s)) == if Positive(s) then Some(s) else None
  {
    hide ParseSizeMiB, SizeString, Itoa;
    SizeRoundTrip(s.memoryMiB);
    DiskRoundTrip(s.diskGiB);
    NonEmptySize(s.memoryMiB);
    WholeGiB(s.diskGiB);
    assert |Itoa(s.diskGiB) + "GiB"| >= 3;
  }

  lemma NonEmptySize(mib: int)
    ensures SizeString(mib) != ""
  {
    hide Itoa;
    assert |SizeString(mib)| >= 3;
  }

  lemma WholeGiB(gib: int)
    ensures Rem(gib * 1024, 1024) == 0 && Quot(gib * 1024, 1024) == gib
  {
  }

  function PrintTalos(t: TalosSpec): RawTalos { RawTalos(t.version, t.schematic, t.extensions) }

  // ----- One cluster

  function DefaultDomain(name: string): string { name + "." + Domains.DEFAULT_SUFFIX }

  function EffectiveDomain(spec: ClusterSpec): string
  {
    if spec.domain != "" then spec.domain else DefaultDomain(spec.name)
  }

  /** The stored domain; the cluster's own default spelled out is stored as no domain at all. */
  function ResolveDomain(rc: RawCluster): Option<string>
  {
    if rc.domain == "" then Some("")
    else match Domains.Validate(rc.domain, rc.allowUnsafeDomain)
         case Refused => None
         case Canonical(name) => Some(if name == DefaultDomain(rc.name) then "" else name)
  }

  predicate FormsDomain(name: string)
  {
    Domains.Validate(DefaultDomain(name), true) == Domains.Canonical(DefaultDomain(name))
  }

  function ResolveRole(base: Sizing, raw: Option<RawNode>): Option<Option<Sizing>>
  {
    if raw.None? then Some(None)
    else match ResolveNode(base, raw.value)
         case None => None
         case Some(s) => Some(Some(s))
  }

  function OrElse(n: Option<int>, default: int): int { if n.Some? then n.value else default }

  /** One cluster of the document, without the checks against the others. */
  function ResolveCluster(file: TalosSpec, rc: RawCluster): Option<ClusterSpec>
  {
    var intent := ParseIntent(rc.provisioning);
    var domain := ResolveDomain(rc);
    var controlPlanes := OrElse(rc.controlPlanes, 1);
    var workers := OrElse(rc.workers, 2);
    var node := ResolveNode(DEFAULT_NODE, rc.node);
    if !Domains.IsLabel(rc.name) || rc.hypervisor !in {"", "vz", "qemu"} || intent.None? || domain.None?
       || (domain.value == "" && !FormsDomain(rc.name)) || controlPlanes < 1 || workers < 0 || node.None?
    then None
    else
      var controlPlane := ResolveRole(node.value, rc.controlPlane);
      var worker := ResolveRole(node.value, rc.worker);
      if controlPlane.None? || worker.None? then None
      else Some(ClusterSpec(rc.name, rc.hypervisor, controlPlanes, workers, intent.value, domain.value,
        rc.allowUnsafeDomain,
                            node.value, controlPlane.value, worker.value,
                            if rc.talos.Some? then ResolveTalos(file, rc.talos.value) else file))
  }

  // ----- What a cluster block says

  /** A sizing block laid over another sizing: a field that is given counts, one left out is taken from
      below. Disks come in whole GiB. */
  ghost predicate LaidOver(base: Sizing, raw: RawNode, s: Sizing)
  {
    && (if raw.memory == "" then s.memoryMiB == base.memoryMiB else ParseSizeMiB(raw.memory) == Some(s.memoryMiB))
    && (if raw.cpus == 0 then s.cpus == base.cpus else s.cpus == raw.cpus)
    && (if raw.diskSize == "" then s.diskGiB == base.diskGiB else ParseSizeMiB(raw.diskSize) == Some(s.diskGiB * 1024))
  }

  ghost predicate RoleLaidOver(base: Sizing, raw: Option<RawNode>, s: Option<Sizing>)
  {
    (raw.Some? <==> s.Some?) && (raw.Some? ==> LaidOver(base, raw.value, s.value))
  }

  /** The image of a cluster: each pin of its own block, otherwise the file's. */
  ghost predicate TalosLaidOver(file: TalosSpec, raw: Option<RawTalos>, t: TalosSpec)
  {
    && t.version == (if raw.Some? && raw.value.version != "" then raw.value.version else file.version)
    && t.schematic == (if raw.Some? && raw.value.schematic != "" then raw.value.schematic else file.schematic)
    && t.extensions == (if raw.Some? && raw.value.extensions.Some? then raw.value.extensions else file.extensions)
  }

  /** The cluster's domain is the one given, in canonical form, or its name under k8s.test. The latter
      is stored as no domain, however it was spelled, and must itself be a canonical name. */
  ghost predicate DomainRead(name: string, given: string, allowUnsafe: bool, stored: string)
  {
    var own := name + "." + "k8s.test";
    var effective := if stored == "" then own else stored;
    && stored != own
    && (if given == "" then stored == "" else Domains.Validate(given, allowUnsafe) == Domains.Canonical(effective))
    && (stored == "" ==> Domains.Validate(own, true) == Domains.Canonical(own))
  }

  ghost predicate Describes(file: TalosSpec, rc: RawCluster, c: ClusterSpec)
  {
    && c.name == rc.name && Domains.IsLabel(rc.name)
    && c.hypervisor == rc.hypervisor && rc.hypervisor in {"", "vz", "qemu"}
    && (if rc.controlPlanes.Some? then c.controlPlanes == rc.controlPlanes.value else c.controlPlanes == 1)
    && (if rc.workers.Some? then c.workers == rc.workers.value else c.workers == 2)
    && c.controlPlanes >= 1 && c.workers >= 0
    && ParseIntent(rc.provisioning) == Some(c.intent)
    && c.allowUnsafeDomain == rc.allowUnsafeDomain
    && DomainRead(rc.name, rc.domain, rc.allowUnsafeDomain, c.domain)
    && LaidOver(Sizing(2048, 2, 20), rc.node, c.node)
    && RoleLaidOver(c.node, rc.controlPlane, c.controlPlane)
    && RoleLaidOver(c.node, rc.worker, c.worker)
    && TalosLaidOver(file, rc.talos, c.talos)
  }

  lemma NodeReadIff(base: Sizing, raw: RawNode, s: Sizing)
    ensures ResolveNode(base, raw) == Some(s) <==> LaidOver(base, raw, s)
  {
    hide ParseSizeMiB;
    WholeGiB(s.diskGiB);
  }

  lemma RoleReadIff(base: Sizing, raw: Option<RawNode>, s: Option<Sizing>)
    ensures ResolveRole(base, raw) == Some(s) <==> RoleLaidOver(base, raw, s)
  {
    if raw.Some? && s.Some? {
      NodeReadIff(base, raw.value, s.value);
    }
    hide ResolveNode, LaidOver;
  }

  lemma DomainReadIff(rc: RawCluster, stored: string)
    ensures ResolveDomain(rc) == Some(stored) && (stored == "" ==> FormsDomain(rc.name)) <==>
      DomainRead(rc.name, rc.domain, rc.allowUnsafeDomain, stored)
  {
    if rc.domain != "" && Domains.Validate(rc.domain, rc.allowUnsafeDomain).Canonical? {
      Domains.ValidateTwice(rc.domain, rc.allowUnsafeDomain);
    }
    hide Domains.Validate;
    assert |DefaultDomain(rc.name)| > 0;
  }

  /** A cluster block is accepted exactly when some cluster fits what it says, and then that cluster is
      what is read. */
  lemma ReadIff(file: TalosSpec, rc: RawCluster, c: ClusterSpec)
    ensures ResolveCluster(file, rc) == Some(c) <==> Describes(file, rc, c)
  {
    NodeReadIff(DEFAULT_NODE, rc.node, c.node);
    RoleReadIff(c.node, rc.controlPlane, c.controlPlane);
    RoleReadIff(c.node, rc.worker, c.worker);
    DomainReadIff(rc, c.domain);
    hide ParseIntent, ResolveDomain, FormsDomain, ResolveNode, ResolveRole, DomainRead, LaidOver, RoleLaidOver,
      Domains.IsLabel;
  }

  function PrintIntent(intent: Intent): Input
  {
    if intent.cni == "" then NO_INPUT
    else Input(intent.cni, intent.csi, Some(intent.lb), if intent.bgp then Some(true) else None,
               if intent.hubble then Some(true) else None,
               if intent.disableKubeletMemoryProtection then Some(false) else None)
  }

  function PrintRole(s: Option<Sizing>): Option<RawNode> { if s.Some? then Some(PrintNode(s.value)) else None }

  function PrintCluster(file: TalosSpec, c: ClusterSpec): RawCluster
  {
    RawCluster(c.name, c.hypervisor, Some(c.controlPlanes), Some(c.workers), PrintIntent(c.intent), c.domain,
      c.allowUnsafeDomain,
               PrintNode(c.node), PrintRole(c.controlPlane), PrintRole(c.worker),
               if c.talos != NO_TALOS && c.talos != file then Some(PrintTalos(c.talos)) else None)
  }

  /** Nothing the file pins is missing from a block that was laid over it. */
  predicate Inherits(file: TalosSpec, t: TalosSpec)
  {
    && (t.version == "" ==> file.version == "")
    && (t.schematic == "" ==> file.schematic == "")
    && (t.extensions.None? ==> file.extensions.None?)
  }

  predicate StoredDomain(name: string, domain: string, allowUnsafe: bool)
  {
    if domain == "" then FormsDomain(name)
    else Domains.Validate(domain, allowUnsafe) == Domains.Canonical(domain) && domain != DefaultDomain(name)
  }

  /** What is read for one cluster, whatever the document says. */
  predicate WellFormed(file: TalosSpec, c: ClusterSpec)
  {
    && Domains.IsLabel(c.name) && c.hypervisor in {"", "vz", "qemu"} && c.controlPlanes >= 1 && c.workers >= 0
    && Valid(c.intent) && StoredDomain(c.name, c.domain, c.allowUnsafeDomain)
    && Resolved(c.node)
    && (c.controlPlane.Some? ==> Resolved(c.controlPlane.value))
    && (c.worker.Some? ==> Resolved(c.worker.value))
    && Inherits(file, c.talos)
  }

  lemma ReadIsWellFormed(file: TalosSpec, rc: RawCluster)
    requires ResolveCluster(file, rc).Some?
    ensures WellFormed(file, ResolveCluster(file, rc).value)
  {
    var c := ResolveCluster(file, rc).value;
    IntentRoundTrip(c.intent);
    assert ParseIntent(rc.provisioning) == Some(c.intent);
    hide ParseIntent, Valid;
    StoredDomains(rc);
    hide ResolveDomain, StoredDomain, FormsDomain, Domains.IsLabel;
    ResolveNodeResolves(DEFAULT_NODE, rc.node);
    ResolveRoleResolves(c.node, rc.controlPlane);
    ResolveRoleResolves(c.node, rc.worker);
    hide ResolveNode;
  }

  lemma StoredDomains(rc: RawCluster)
    requires ResolveDomain(rc).Some?
    ensures ResolveDomain(rc).value != "" ==> StoredDomain(rc.name, ResolveDomain(rc).value, rc.allowUnsafeDomain)
    ensures FormsDomain(rc.name) ==> StoredDomain(rc.name, ResolveDomain(rc).value, rc.allowUnsafeDomain)
  {
    if rc.domain != "" {
      Domains.ValidateTwice(rc.domain, rc.allowUnsafeDomain);
    }
    hide Domains.Validate, DefaultDomain, FormsDomain;
  }

  lemma ResolveRoleResolves(base: Sizing, raw: Option<RawNode>)
    requires Resolved(base)
    ensures ResolveRole(base, raw).Some? && ResolveRole(base, raw).value.Some? ==>
      Resolved(ResolveRole(base, raw).value.value)
  {
    if raw.Some? {
      ResolveNodeResolves(base, raw.value);
      hide ResolveNode;
    }
  }

  lemma RoleRoundTrip(base: Sizing, s: Option<Sizing>)
    requires s.Some? ==> Resolved(s.value)
    ensures ResolveRole(base, PrintRole(s)) == if s.Some? && !Positive(s.value) then None else Some(s)
  {
    if s.Some? {
      NodeRoundTrip(base, s.value);
      hide ResolveNode, PrintNode;
    }
  }

  lemma PrintedIntent(intent: Intent)
    requires Valid(intent)
    ensures ParseIntent(PrintIntent(intent)) == Some(intent)
  {
  }

  lemma PrintedDomain(file: TalosSpec, c: ClusterSpec)
    requires StoredDomain(c.name, c.domain, c.allowUnsafeDomain)
    ensures ResolveDomain(PrintCluster(file, c)) == Some(c.domain)
  {
    hide Domains.Validate, DefaultDomain, PrintNode, PrintRole, PrintIntent;
  }

  lemma PrintedTalos(file: TalosSpec, c: ClusterSpec)
    requires Inherits(file, c.talos)
    ensures var raw := PrintCluster(file, c).talos;
      (if raw.Some? then ResolveTalos(file, raw.value) else file) == c.talos && (raw.None? <==> c.talos == file)
  {
    hide PrintNode, PrintRole, PrintIntent;
  }

  predicate AllPositive(c: ClusterSpec)
  {
    && Positive(c.node)
    && (c.controlPlane.Some? ==> Positive(c.controlPlane.value))
    && (c.worker.Some? ==> Positive(c.worker.value))
  }

  lemma ClusterRoundTrip(file: TalosSpec, c: ClusterSpec)
    requires WellFormed(file, c)
    ensures ResolveCluster(file, PrintCluster(file, c)) == if AllPositive(c) then Some(c) else None
  {
    PrintedIntent(c.intent);
    PrintedDomain(file, c);
    PrintedTalos(file, c);
    NodeRoundTrip(DEFAULT_NODE, c.node);
    RoleRoundTrip(c.node, c.controlPlane);
    RoleRoundTrip(c.node, c.worker);
    hide ParseIntent, PrintIntent, ResolveDomain, ResolveNode, PrintNode, ResolveRole, PrintRole, FormsDomain,
      Domains.IsLabel, Valid, ResolveTalos, Positive;
  }

  // ----- The whole document

  function FileTalos(raw: RawConfig): TalosSpec { ResolveTalos(NO_TALOS, raw.talos) }

  predicate EachResolves(raw: RawConfig)
  {
    forall i :: 0 <= i < |raw.clusters| ==> ResolveCluster(FileTalos(raw), raw.clusters[i]).Some?
  }

  function Specs(raw: RawConfig): (specs: seq<ClusterSpec>)
    requires EachResolves(raw)
    ensures |specs| == |raw.clusters|
    ensures forall i :: 0 <= i < |specs| ==> Some(specs[i]) == ResolveCluster(FileTalos(raw), raw.clusters[i])
  {
    seq(|raw.clusters|, i requires 0 <= i < |raw.clusters| => ResolveCluster(FileTalos(raw), raw.clusters[i]).value)
  }

  predicate DistinctClusters(specs: seq<ClusterSpec>)
  {
    forall i, j :: 0 <= i < j < |specs| ==>
      specs[i].name != specs[j].name && EffectiveDomain(specs[i]) != EffectiveDomain(specs[j])
  }

  predicate Acceptable(raw: RawConfig)
  {
    raw.version == Some(1) && raw.clusters != [] && EachResolves(raw) && DistinctClusters(Specs(raw))
  }

  function Read(raw: RawConfig): Option<Config>
  {
    if Acceptable(raw) then Some(Config(FileTalos(raw), Specs(raw))) else None
  }

  function Printed(cfg: Config): RawConfig
  {
    RawConfig(Some(1), if cfg.talos == NO_TALOS then NO_RAW_TALOS else PrintTalos(cfg.talos),
              seq(|cfg.clusters|, i requires 0 <= i < |cfg.clusters| => PrintCluster(cfg.talos, cfg.clusters[i])))
  }

  /** What Parse can return. */
  ghost predicate Parseable(cfg: Config)
  {
    exists raw :: Read(raw) == Some(cfg)
  }

  ghost predicate SizesPositive(cfg: Config)
  {
    forall i :: 0 <= i < |cfg.clusters| ==> AllPositive(cfg.clusters[i])
  }

  lemma PrintedClusters(cfg: Config)
    requires Parseable(cfg)
    ensures FileTalos(Printed(cfg)) == cfg.talos
    ensures forall i :: 0 <= i < |cfg.clusters| ==>
      ResolveCluster(cfg.talos, Printed(cfg).clusters[i]) ==
        if AllPositive(cfg.clusters[i]) then Some(cfg.clusters[i]) else None
  {
    var raw :| Read(raw) == Some(cfg);
    forall i | 0 <= i < |cfg.clusters|
      ensures ResolveCluster(cfg.talos, Printed(cfg).clusters[i]) ==
        if AllPositive(cfg.clusters[i]) then Some(cfg.clusters[i]) else None
    {
      ReadIsWellFormed(cfg.talos, raw.clusters[i]);
      ClusterRoundTrip(cfg.talos, cfg.clusters[i]);
    }
  }

  /** Printing a config that was read and reading it again gives back the same config, if and only
      if no size has wrapped to zero or below; otherwise the printed document is refused. */
  lemma RoundTripIff(cfg: Config)
    requires Parseable(cfg)
    ensures Read(Printed(cfg)) == if SizesPositive(cfg) then Some(cfg) else None
  {
    PrintedClusters(cfg);
    var again := Printed(cfg);
    hide ResolveCluster, PrintCluster, AllPositive, FileTalos, EffectiveDomain;
    assert EachResolves(again) <==> SizesPositive(cfg);
    if SizesPositive(cfg) {
      assert Specs(again) == cfg.clusters;
      var raw :| Read(raw) == Some(cfg);
      assert DistinctClusters(cfg.clusters) && cfg.clusters != [];
    }
  }

  lemma SameName(file: TalosSpec, rc: RawCluster)
    ensures ResolveCluster(file, rc).Some? ==> ResolveCluster(file, rc).value.name == rc.name
  {
    hide ResolveNode, ParseIntent, ResolveDomain;
  }

  /** The name a cluster answers to. */
  ghost function OwnDomain(c: ClusterSpec): string
  {
    if c.domain == "" then c.name + "." + "k8s.test" else c.domain
  }

  /** A document is accepted exactly when some config fits what it says: version 1, one or more cluster
      blocks that describe its clusters in order, and no name or domain used twice. */
  lemma DocumentIff(raw: RawConfig, cfg: Config)
    ensures Read(raw) == Some(cfg) <==>
      && raw.version == Some(1) && raw.clusters != []
      && cfg.talos == TalosSpec(raw.talos.version, raw.talos.schematic, raw.talos.extensions)
      && |cfg.clusters| == |raw.clusters|
      && (forall i :: 0 <= i < |raw.clusters| ==> Describes(cfg.talos, raw.clusters[i], cfg.clusters[i]))
      && (forall i, j :: 0 <= i < j < |cfg.clusters| ==>
            cfg.clusters[i].name != cfg.clusters[j].name && OwnDomain(cfg.clusters[i]) != OwnDomain(cfg.clusters[j]))
  {
    assert FileTalos(raw) == TalosSpec(raw.talos.version, raw.talos.schematic, raw.talos.extensions);
    assert forall c: ClusterSpec :: EffectiveDomain(c) == OwnDomain(c);
    hide FileTalos, EffectiveDomain, OwnDomain;
    if |cfg.clusters| == |raw.clusters| {
      forall i | 0 <= i < |raw.clusters|
        ensures ResolveCluster(cfg.talos, raw.clusters[i]) == Some(cfg.clusters[i]) <==>
          Describes(cfg.talos, raw.clusters[i], cfg.clusters[i])
      {
        ReadIff(cfg.talos, raw.clusters[i], cfg.clusters[i]);
      }
      hide ResolveCluster, Describes;
      if forall i :: 0 <= i < |raw.clusters| ==>
           ResolveCluster(FileTalos(raw), raw.clusters[i]) == Some(cfg.clusters[i])
      {
        assert EachResolves(raw) && Specs(raw) == cfg.clusters;
      }
    }
  }

  /** The clusters read so far, with what is known to be taken. */
  ghost predicate ReadSoFar(raw: RawConfig, clusters: seq<ClusterSpec>, names: set<string>, domains: set<string>)
  {
    && |clusters| <= |raw.clusters|
    && (forall j :: 0 <= j < |clusters| ==> Some(clusters[j]) == ResolveCluster(FileTalos(raw), raw.clusters[j]))
    && DistinctClusters(clusters)
    && names == (set j | 0 <= j < |clusters| :: clusters[j].name)
    && domains == (set j | 0 <= j < |clusters| :: EffectiveDomain(clusters[j]))
  }

  lemma ReadOneMore(raw: RawConfig, clusters: seq<ClusterSpec>, names: set<string>, domains: set<string>,
                    spec: ClusterSpec)
    requires ReadSoFar(raw, clusters, names, domains) && |clusters| < |raw.clusters|
    requires Some(spec) == ResolveCluster(FileTalos(raw), raw.clusters[|clusters|])
    requires spec.name !in names && EffectiveDomain(spec) !in domains
    ensures ReadSoFar(raw, clusters + [spec], names + {spec.name}, domains + {EffectiveDomain(spec)})
  {
    hide ResolveCluster, EffectiveDomain, FileTalos;
    var more := clusters + [spec];
    assert more[|clusters|] == spec;
    assert forall j :: 0 <= j < |clusters| ==> more[j] == clusters[j];
    assert names + {spec.name} == (set j | 0 <= j < |more| :: more[j].name) by {
      forall n | n in names
        ensures n in (set j | 0 <= j < |more| :: more[j].name)
      {
        var j :| 0 <= j < |clusters| && clusters[j].name == n;
        assert more[j].name == n;
      }
    }
    assert domains + {EffectiveDomain(spec)} == (set j | 0 <= j < |more| :: EffectiveDomain(more[j])) by {
      forall d | d in domains
        ensures d in (set j | 0 <= j < |more| :: EffectiveDomain(more[j]))
      {
        var j :| 0 <= j < |clusters| && EffectiveDomain(clusters[j]) == d;
        assert EffectiveDomain(more[j]) == d;
      }
    }
  }

  lemma Refused(raw: RawConfig, clusters: seq<ClusterSpec>, names: set<string>, domains: set<string>)
    requires ReadSoFar(raw, clusters, names, domains) && |clusters| < |raw.clusters|
    requires
      var spec := ResolveCluster(FileTalos(raw), raw.clusters[|clusters|]);
      raw.clusters[|clusters|].name in names || spec.None? || EffectiveDomain(spec.value) in domains
    ensures Read(raw) == None
  {
    var i := |clusters|;
    SameName(FileTalos(raw), raw.clusters[i]);
    hide ResolveCluster, EffectiveDomain, FileTalos;
    if EachResolves(raw) {
      var specs := Specs(raw);
      assert forall j :: 0 <= j < i ==> clusters[j] == specs[j];
    }
  }

  lemma ReadAll(raw: RawConfig, clusters: seq<ClusterSpec>, names: set<string>, domains: set<string>)
    requires ReadSoFar(raw, clusters, names, domains) && |clusters| == |raw.clusters| > 0 && raw.version == Some(1)
    ensures Read(raw) == Some(Config(FileTalos(raw), clusters))
  {
    hide ResolveCluster, EffectiveDomain, FileTalos;
    assert clusters == Specs(raw);
  }

  method Parse(raw: RawConfig) returns (cfg: Option<Config>)
    ensures cfg == Read(raw)
  {
    if raw.version.None? {
      return None;
    }
    if raw.version.value != 1 {
      return None;
    }
    if |raw.clusters| == 0 {
      return None;
    }
    var talos := ResolveTalos(NO_TALOS, raw.talos);
    var clusters: seq<ClusterSpec> := [];
    var seen: set<string> := {};
    var seenDomains: map<string, string> := map[];
    for i := 0 to |raw.clusters|
      invariant |clusters| == i && ReadSoFar(raw, clusters, seen, seenDomains.Keys)
    {
      hide ResolveCluster, EffectiveDomain, ReadSoFar, Read;
      var rc := raw.clusters[i];
      if rc.name in seen {
        Refused(raw, clusters, seen, seenDomains.Keys);
        return None;
      }
      var spec := ResolveCluster(talos, rc);
      if spec.None? {
        Refused(raw, clusters, seen, seenDomains.Keys);
        return None;
      }
      SameName(talos, rc);
      var effective := EffectiveDomain(spec.value);
      if effective in seenDomains {
        Refused(raw, clusters, seen, seenDomains.Keys);
        return None;
      }
      ReadOneMore(raw, clusters, seen, seenDomains.Keys, spec.value);
      seen := seen + {rc.name};
      seenDomains := seenDomains[effective := rc.name];
      clusters := clusters + [spec.value];
    }
    hide ReadSoFar, Read;
    ReadAll(raw, clusters, seen, seenDomains.Keys);
    return Some(Config(talos, clusters));
  }

  method Marshal(cfg: Config) returns (raw: RawConfig)
    ensures raw == Printed(cfg)
  {
    var talos := NO_RAW_TALOS;
    if cfg.talos != NO_TALOS {
      talos := PrintTalos(cfg.talos);
    }
    var clusters: seq<RawCluster> := [];
    hide PrintCluster;
    for i := 0 to |cfg.clusters|
      invariant |clusters| == i
      invariant forall j :: 0 <= j < i ==> clusters[j] == PrintCluster(cfg.talos, cfg.clusters[j])
    {
      clusters := clusters + [PrintCluster(cfg.talos, cfg.clusters[i])];
    }
    raw := RawConfig(Some(1), talos, clusters);
  }

  // ----- A document whose printed form is refused

  lemma ShortNameFormsDomain()
    ensures FormsDomain("a")
  {
    hide Domains.Validate, Domains.Labels;
    Domains.CanonicalThree("a", "k8s", "test");
    assert DefaultDomain("a") == "a" + "." + ("k8s" + "." + "test");
  }

  function WrappingCluster(): RawCluster
  {
    RawCluster("a", "", None, None, NO_INPUT, "", false, RawNode(Itoa(0x40_0000_0000_0000) + "GiB", 0, ""), None, None,
      None)
  }

  /** One cluster asking for 2^54 GiB of memory is accepted; what is printed for it is not. */
  lemma WrappedDocument()
    ensures Read(RawConfig(Some(1), NO_RAW_TALOS, [WrappingCluster()])).Some?
    ensures Read(Printed(Read(RawConfig(Some(1), NO_RAW_TALOS, [WrappingCluster()])).value)) == None
  {
    var raw := RawConfig(Some(1), NO_RAW_TALOS, [WrappingCluster()]);
    var c := WrappedCluster();
    hide ResolveCluster, WrappingCluster;
    assert FileTalos(raw) == NO_TALOS && Specs(raw) == [c];
    var cfg := Read(raw).value;
    assert Parseable(cfg) && !AllPositive(cfg.clusters[0]);
    RoundTripIff(cfg);
  }

  lemma WrappedCluster() returns (c: ClusterSpec)
    ensures ResolveCluster(NO_TALOS, WrappingCluster()) == Some(c) && c.node.memoryMiB == 0
  {
    hide ParseSizeMiB, Itoa, FormsDomain;
    ShortNameFormsDomain();
    SizeWrapsToZero();
    assert |Itoa(0x40_0000_0000_0000) + "GiB"| >= 3;
    c := ClusterSpec("a", "", 1, 2, NO_INTENT, "", false, Sizing(0, 2, 20), None, None, NO_TALOS);
  }
}
