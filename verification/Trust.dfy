/** Installing and removing one cluster's ingress CA in a Linux trust store, with a receipt
    written ahead of the store mutation: cmd/tbx/trust.go and cmd/tbx/trust_platform.go.
    Every file operation is a step that may succeed, fail, or be the last one before a crash. */
module Trust {
  import opened Options

  /** What is at a path: nothing, the certificate with that fingerprint, or a torn write. */
  datatype File = Absent | Cert(fingerprint: string) | Torn

  /** Which CA went where. The path is the cluster's anchor file in the store of whichever
      distribution the host was taken for; the temporary file sits beside it. */
  datatype Receipt = Receipt(fingerprint: string, path: string, pending: bool)

  datatype Disk = Disk(receipt: Option<Receipt>, anchors: map<string, File>, temps: map<string, File>)

  function FileAt(files: map<string, File>, d: string): File
  {
    if d in files then files[d] else Absent
  }

  /** Where a running command stands: the operation it performs next. */
  datatype Pc =
    | Idle
    | WriteReceipt(planned: Receipt)  // install: publish the pending receipt
    | OpenTemp(r: Receipt)            // privileged half: validate, then open the temporary file
    | FillTemp(r: Receipt)            //   write the certificate into it
    | Publish(r: Receipt)             //   rename it over the anchor path
    | DiscardTemp(r: Receipt)         //   the write failed: remove it, ignoring errors
    | Refresh(r: Receipt)             //   run the store's refresh command
    | Recover(r: Receipt)             // the mutation failed: probe the store
    | Rollback(r: Receipt)            //   it holds nothing: remove the receipt
    | Finalize(r: Receipt)            // rewrite the receipt as no longer pending
    | Verify(r: Receipt)              // remove: refuse an anchor that is another certificate
    | DropAnchor(r: Receipt)
    | SweepTemp(r: Receipt)
    | RefreshAfter(r: Receipt)
    | DropReceipt(r: Receipt)

  datatype State = State(disk: Disk, pc: Pc)

  /** One command starts, or the running one gets on with its next operation. */
  datatype Choice =
    | Install(fingerprint: string, path: Option<string>, receiptReadable: bool, probeAnswers: bool)
    | Remove(receiptReadable: bool)
    | Go
    | Fail
    | Crash

  datatype EntryState = EntryAbsent | EntryPresent | EntryForeign

  function Probe(disk: Disk, r: Receipt): EntryState
  {
    match FileAt(disk.anchors, r.path)
    case Absent => EntryAbsent
    case Torn => EntryForeign
    case Cert(f) => if f == r.fingerprint then EntryPresent else EntryForeign
  }

  /** Install up to its first write. A host managed declaratively has no path to write to. */
  function StartInstall(disk: Disk, fingerprint: string, path: Option<string>, receiptReadable: bool,
                        probeAnswers: bool): Pc
  {
    var planned := if path.None? then Idle else WriteReceipt(Receipt(fingerprint, path.value, true));
    if disk.receipt.None? then planned
    else if !receiptReadable then Idle
    else
      var r := disk.receipt.value;
      if r.fingerprint != fingerprint then Idle
      else if !probeAnswers then Idle
      else if Probe(disk, r) == EntryPresent then (if r.pending then Finalize(r) else Idle)
      else planned
  }

  function StartRemove(disk: Disk, receiptReadable: bool): Pc
  {
    if disk.receipt.None? || !receiptReadable then Idle else Verify(disk.receipt.value)
  }

  /** The next operation of a running command succeeds. */
  function Proceed(disk: Disk, pc: Pc): State
  {
    match pc
    case Idle => State(disk, Idle)
    case WriteReceipt(r) => State(disk.(receipt := Some(r)), OpenTemp(r))
    case OpenTemp(r) => State(disk.(temps := disk.temps[r.path := Torn]), FillTemp(r))
    case FillTemp(r) => State(disk.(temps := disk.temps[r.path := Cert(r.fingerprint)]), Publish(r))
    case Publish(r) =>
      State(disk.(anchors := disk.anchors[r.path := FileAt(disk.temps, r.path)],
        temps := disk.temps[r.path := Absent]), Refresh(r))
    case DiscardTemp(r) => State(disk.(temps := disk.temps[r.path := Absent]), Recover(r))
    case Refresh(r) => State(disk, Finalize(r))
    case Recover(r) => State(disk, if Probe(disk, r) == EntryAbsent then Rollback(r) else Idle)
    case Rollback(_) => State(disk.(receipt := None), Idle)
    case Finalize(r) => State(disk.(receipt := Some(r.(pending := false))), Idle)
    case Verify(r) =>
      var at := FileAt(disk.anchors, r.path);
      State(disk, if at.Cert? && at.fingerprint != r.fingerprint then Idle else DropAnchor(r))
    case DropAnchor(r) => State(disk.(anchors := disk.anchors[r.path := Absent]), SweepTemp(r))
    case SweepTemp(r) => State(disk.(temps := disk.temps[r.path := Absent]), RefreshAfter(r))
    case RefreshAfter(r) => State(disk, DropReceipt(r))
    case DropReceipt(_) => State(disk.(receipt := None), Idle)
  }

  /** The next operation fails without effect: the privileged half goes to recovery, every
      other failure ends the command. */
  function Failed(pc: Pc): Pc
  {
    match pc
    case OpenTemp(r) => Recover(r)
    case FillTemp(r) => DiscardTemp(r)
    case Publish(r) => DiscardTemp(r)
    case DiscardTemp(r) => Recover(r)
    case Refresh(r) => Recover(r)
    case _ => Idle
  }

  /** A command can start only when none is running. */
  function Next(s: State, c: Choice): State
  {
    match c
    case Install(f, d, readable, answers) =>
      if s.pc == Idle then s.(pc := StartInstall(s.disk, f, d, readable, answers)) else s
    case Remove(readable) => if s.pc == Idle then s.(pc := StartRemove(s.disk, readable)) else s
    case Go => Proceed(s.disk, s.pc)
    case Fail => s.(pc := Failed(s.pc))
    case Crash => s.(pc := Idle)
  }

  const FRESH := State(Disk(None, map[], map[]), Idle)

  /** The state after the given choices, from where the host stands. */
  function From(s: State, choices: seq<Choice>): State
  {
    if choices == [] then s else Next(From(s, choices[..|choices| - 1]), choices[|choices| - 1])
  }

  /** A history of commands on a fresh host. */
  function Run(choices: seq<Choice>): State { From(FRESH, choices) }

  // ----- The receipt is always ahead of the anchor

  /** Every anchor has a receipt with its path and fingerprint. */
  ghost predicate Receipted(disk: Disk)
  {
    forall d :: FileAt(disk.anchors, d) != Absent ==>
      && disk.receipt.Some? && disk.receipt.value.path == d
      && FileAt(disk.anchors, d) == Cert(disk.receipt.value.fingerprint)
  }

  ghost predicate NoAnchors(disk: Disk)
  {
    forall d :: FileAt(disk.anchors, d) == Absent
  }

  /** What each point of a command relies on. */
  ghost predicate Poised(disk: Disk, pc: Pc)
  {
    match pc
    case Idle => true
    case WriteReceipt(_) => NoAnchors(disk)
    case Publish(r) => disk.receipt == Some(r) && FileAt(disk.temps, r.path) == Cert(r.fingerprint)
    case Rollback(r) => disk.receipt == Some(r) && NoAnchors(disk)
    case SweepTemp(r) => disk.receipt == Some(r) && NoAnchors(disk)
    case RefreshAfter(r) => disk.receipt == Some(r) && NoAnchors(disk)
    case DropReceipt(r) => disk.receipt == Some(r) && NoAnchors(disk)
    case _ => disk.receipt == Some(pc.r)
  }

  ghost predicate Inv(s: State) { Receipted(s.disk) && Poised(s.disk, s.pc) }

  lemma StartKeeps(s: State, c: Choice)
    requires Inv(s) && (c.Install? || c.Remove?)
    ensures Inv(Next(s, c))
  {
  }

  lemma Updated(files: map<string, File>, d: string, f: File, e: string)
    ensures FileAt(files[d := f], e) == if e == d then f else FileAt(files, e)
  {
  }

  lemma PublishKeeps(s: State)
    requires Inv(s) && s.pc.Publish?
    ensures Inv(Proceed(s.disk, s.pc))
  {
    var r, t := s.pc.r, Proceed(s.disk, s.pc);
    forall e | FileAt(t.disk.anchors, e) != Absent
      ensures r.path == e && FileAt(t.disk.anchors, e) == Cert(r.fingerprint)
    {
      Updated(s.disk.anchors, r.path, Cert(r.fingerprint), e);
    }
  }

  lemma DropKeeps(s: State)
    requires Inv(s) && s.pc.DropAnchor?
    ensures Inv(Proceed(s.disk, s.pc)) && NoAnchors(Proceed(s.disk, s.pc).disk)
  {
    var r, t := s.pc.r, Proceed(s.disk, s.pc);
    forall e
      ensures FileAt(t.disk.anchors, e) == Absent
    {
      Updated(s.disk.anchors, r.path, Absent, e);
    }
  }

  lemma GoKeeps(s: State)
    requires Inv(s)
    ensures Inv(Proceed(s.disk, s.pc))
  {
    match s.pc
    case Publish(_) => PublishKeeps(s);
    case DropAnchor(_) => DropKeeps(s);
    case _ =>
  }

  lemma StepKeepsReceipt(s: State, c: Choice)
    requires Inv(s)
    ensures Inv(Next(s, c))
  {
    match c
    case Install(_, _, _, _) => StartKeeps(s, c);
    case Remove(_) => StartKeeps(s, c);
    case Go => GoKeeps(s);
    case Fail =>
    case Crash =>
  }

  /** Over every sequence of installs and removes, failing or crashing anywhere, with any CA
      and any store each time, an anchor is never without its receipt. */
  lemma {:induction false} RunKeepsReceipt(choices: seq<Choice>)
    ensures Inv(Run(choices)) && Receipted(Run(choices).disk)
    decreases |choices|
  {
    if choices != [] {
      RunKeepsReceipt(choices[..|choices| - 1]);
      StepKeepsReceipt(Run(choices[..|choices| - 1]), choices[|choices| - 1]);
    }
  }

  // ----- Undisturbed commands

  function Undisturbed(s: State, steps: nat): State
    decreases steps
  {
    if steps == 0 then s else Undisturbed(Proceed(s.disk, s.pc), steps - 1)
  }

  function RemoveAll(disk: Disk): State
  {
    Undisturbed(State(disk, StartRemove(disk, true)), 5)
  }

  /** The temporary files a receipt still points at. */
  ghost predicate Reachable(disk: Disk, d: string)
  {
    disk.receipt.Some? && disk.receipt.value.path == d
  }

  /** One undisturbed remove, after anything at all, leaves neither anchor nor receipt, and
      of the temporary files exactly those at another path than the receipt's. */
  lemma RemoveLeavesNothing(choices: seq<Choice>)
    requires Run(choices).pc == Idle
    ensures var disk := Run(choices).disk;
      var after := RemoveAll(disk);
      && after.pc == Idle && after.disk.receipt == None && NoAnchors(after.disk)
      && forall d :: FileAt(after.disk.temps, d) == if Reachable(disk, d) then Absent else FileAt(disk.temps, d)
  {
    RunKeepsReceipt(choices);
    RemoveFrom(Run(choices).disk);
  }

  lemma RemoveFrom(disk: Disk)
    requires Receipted(disk)
    ensures var after := RemoveAll(disk);
      && after.pc == Idle && after.disk.receipt == None && NoAnchors(after.disk)
      && forall d :: FileAt(after.disk.temps, d) == if Reachable(disk, d) then Absent else FileAt(disk.temps, d)
  {
    if disk.receipt.None? {
      assert Undisturbed(State(disk, Idle), 5) == State(disk, Idle);
    } else {
      var r := disk.receipt.value;
      var s1 := Proceed(disk, Verify(r));
      assert s1 == State(disk, DropAnchor(r));
      DropKeeps(s1);
      var s2 := Proceed(s1.disk, s1.pc);
      var s3 := Proceed(s2.disk, s2.pc);
      var s4 := Proceed(s3.disk, s3.pc);
      var s5 := Proceed(s4.disk, s4.pc);
      assert Undisturbed(State(disk, Verify(r)), 5) == s5;
      forall d
        ensures FileAt(s5.disk.temps, d) == if Reachable(disk, d) then Absent else FileAt(disk.temps, d)
      {
        Updated(disk.temps, r.path, Absent, d);
      }
    }
  }

  /** A remove drops the anchor at the receipt's path, torn or not, exactly when it is not another
      certificate, and no anchor anywhere else. If it is another one, the receipt stays too. */
  lemma RemoveDropsIff(disk: Disk, d: string)
    requires disk.receipt.Some?
    ensures var r, after := disk.receipt.value, RemoveAll(disk).disk;
      var foreign := exists f :: f != r.fingerprint && FileAt(disk.anchors, r.path) == Cert(f);
      && FileAt(after.anchors, d) == (if d == r.path && !foreign then Absent else FileAt(disk.anchors, d))
      && (foreign ==> after == disk) && (!foreign ==> after.receipt == None)
  {
    var r, at := disk.receipt.value, FileAt(disk.anchors, disk.receipt.value.path);
    if at.Cert? && at.fingerprint != r.fingerprint {
      assert RemoveAll(disk) == Undisturbed(State(disk, Idle), 4);
      IdleStays(disk, 4);
    } else {
      var s2 := Proceed(disk, DropAnchor(r));
      var s3 := Proceed(s2.disk, s2.pc);
      var s4 := Proceed(s3.disk, s3.pc);
      assert RemoveAll(disk) == Undisturbed(s2, 3) == Proceed(s4.disk, s4.pc);
      Updated(disk.anchors, r.path, Absent, d);
    }
  }

  /** Whatever happens during it, a remove leaves an anchor that is another certificate, and all else
      on the disk, as it is. */
  lemma {:induction false} RemoveSparesForeign(disk: Disk, readable: bool, choices: seq<Choice>)
    requires disk.receipt.Some? && FileAt(disk.anchors, disk.receipt.value.path).Cert?
    requires FileAt(disk.anchors, disk.receipt.value.path).fingerprint != disk.receipt.value.fingerprint
    requires forall i :: 0 <= i < |choices| ==> choices[i] in {Go, Fail, Crash}
    ensures var s := From(State(disk, StartRemove(disk, readable)), choices);
      s.disk == disk && (s.pc == Idle || s.pc == Verify(disk.receipt.value))
    decreases |choices|
  {
    if choices != [] {
      RemoveSparesForeign(disk, readable, choices[..|choices| - 1]);
    }
  }

  /** The temporary files are all gone after that exactly when each was the receipt's own. */
  lemma RemoveSweepsIff(disk: Disk)
    requires Receipted(disk)
    ensures (forall d :: FileAt(RemoveAll(disk).disk.temps, d) == Absent)
       <==> (forall d :: FileAt(disk.temps, d) != Absent ==> Reachable(disk, d))
  {
    RemoveFrom(disk);
    hide RemoveAll;
  }

  /** It can happen otherwise: a write that fails, whose clean-up fails too, is rolled back
      to no receipt at all, and the torn temporary file outlives every later remove. */
  lemma StrandedTemp(fingerprint: string, d: string)
    ensures var s := Run([Install(fingerprint, Some(d), true, true), Go, Go, Fail, Fail, Go, Go]);
      && s.pc == Idle && s.disk.receipt == None
      && FileAt(s.disk.temps, d) == Torn && FileAt(RemoveAll(s.disk).disk.temps, d) == Torn
  {
    var c := [Install(fingerprint, Some(d), true, true), Go, Go, Fail, Fail, Go, Go];
    var r := Receipt(fingerprint, d, true);
    assert c[..0] == [] && c[..1][..0] == [] && Run([]) == FRESH;
    assert Run(c[..1]) == State(Disk(None, map[], map[]), WriteReceipt(r));
    assert c[..2][..1] == c[..1] && c[..3][..2] == c[..2] && c[..4][..3] == c[..3];
    assert Run(c[..2]) == State(Disk(Some(r), map[], map[]), OpenTemp(r));
    assert Run(c[..3]) == State(Disk(Some(r), map[], map[d := Torn]), FillTemp(r));
    assert Run(c[..4]) == State(Disk(Some(r), map[], map[d := Torn]), DiscardTemp(r));
    assert c[..5][..4] == c[..4] && c[..6][..5] == c[..5] && c[..7] == c && c[..7][..6] == c[..6];
    assert Run(c[..5]) == State(Disk(Some(r), map[], map[d := Torn]), Recover(r));
    assert Run(c[..6]) == State(Disk(Some(r), map[], map[d := Torn]), Rollback(r));
    var disk := Disk(None, map[], map[d := Torn]);
    assert Run(c) == State(disk, Idle);
    RemoveFrom(disk);
  }

  /** What an undisturbed install comes to on any disk. With a receipt that cannot be read, is for
      another CA or whose store does not answer, nothing changes. If the store holds this CA where the
      receipt says, the receipt is settled, and there is nothing to do when it already was. Otherwise
      the CA is published at this host's path, whatever stood there, with a settled receipt, unless the
      host has no such path. */
  lemma InstallPublishes(disk: Disk, fingerprint: string, path: Option<string>, readable: bool, answers: bool)
    ensures var pc := StartInstall(disk, fingerprint, path, readable, answers);
      var after, r := Undisturbed(State(disk, pc), 6), disk.receipt;
      if r.Some? && !(readable && answers && r.value.fingerprint == fingerprint) then
        pc == Idle && after == State(disk, Idle)
      else if r.Some? && FileAt(disk.anchors, r.value.path) == Cert(fingerprint) then
        && after == State(disk.(receipt := Some(Receipt(fingerprint, r.value.path, false))), Idle)
        && (!r.value.pending ==> pc == Idle)
      else if path.None? then pc == Idle && after == State(disk, Idle)
      else after == State(Disk(Some(Receipt(fingerprint, path.value, false)),
                               disk.anchors[path.value := Cert(fingerprint)],
                               disk.temps[path.value := Absent]), Idle)
  {
    var pc := StartInstall(disk, fingerprint, path, readable, answers);
    if pc == Idle {
      IdleStays(disk, 6);
    } else if pc.Finalize? {
      IdleStays(Proceed(disk, pc).disk, 5);
    } else {
      InstallRuns(disk, Receipt(fingerprint, path.value, true));
    }
  }

  lemma InstallRuns(disk: Disk, r: Receipt)
    ensures Undisturbed(State(disk, WriteReceipt(r)), 6) ==
      State(Disk(Some(r.(pending := false)), disk.anchors[r.path := Cert(r.fingerprint)], disk.temps[r.path := Absent]),
            Idle)
  {
    hide *;
    var written := Disk(Some(r), disk.anchors, disk.temps);
    var torn := Disk(Some(r), disk.anchors, disk.temps[r.path := Torn]);
    var filled := Disk(Some(r), disk.anchors, disk.temps[r.path := Torn][r.path := Cert(r.fingerprint)]);
    FirstSteps(disk, r);
    OneStep(State(disk, WriteReceipt(r)), 6);
    OneStep(State(written, OpenTemp(r)), 5);
    OneStep(State(torn, FillTemp(r)), 4);
    Updated(torn.temps, r.path, Cert(r.fingerprint), r.path);
    PublishRuns(filled, r);
    LastUpdate(disk.temps, r.path, Torn, Cert(r.fingerprint));
    LastUpdate(disk.temps, r.path, Cert(r.fingerprint), Absent);
  }

  lemma FirstSteps(disk: Disk, r: Receipt)
    ensures var written := Disk(Some(r), disk.anchors, disk.temps);
      var torn := Disk(Some(r), disk.anchors, disk.temps[r.path := Torn]);
      && Proceed(disk, WriteReceipt(r)) == State(written, OpenTemp(r))
      && Proceed(written, OpenTemp(r)) == State(torn, FillTemp(r))
      && Proceed(torn, FillTemp(r)) ==
           State(Disk(Some(r), disk.anchors, torn.temps[r.path := Cert(r.fingerprint)]), Publish(r))
  {
  }

  lemma LastUpdate(files: map<string, File>, d: string, f: File, g: File)
    ensures files[d := f][d := g] == files[d := g]
  {
  }

  lemma OneStep(s: State, steps: nat)
    requires steps > 0
    ensures Undisturbed(s, steps) == Undisturbed(Proceed(s.disk, s.pc), steps - 1)
  {
  }

  lemma PublishRuns(disk: Disk, r: Receipt)
    requires FileAt(disk.temps, r.path) == Cert(r.fingerprint)
    ensures Undisturbed(State(disk, Publish(r)), 3) ==
      State(Disk(Some(r.(pending := false)), disk.anchors[r.path := Cert(r.fingerprint)], disk.temps[r.path := Absent]),
            Idle)
  {
    var s1 := Proceed(disk, Publish(r));
    var s2 := Proceed(s1.disk, s1.pc);
    var s3 := Proceed(s2.disk, s2.pc);
    assert Undisturbed(s1, 2) == Undisturbed(s2, 1) == Undisturbed(s3, 0);
  }

  // ----- The commands as they are written

  lemma Then(s: State, choices: seq<Choice>, c: Choice)
    ensures From(s, choices + [c]) == Next(From(s, choices), c)
  {
    assert (choices + [c])[..|choices|] == choices;
  }

  /** The choices go on with file operations of the running command, all of which work if the host
      is one on which nothing goes wrong. */
  ghost predicate Continues(before: seq<Choice>, after: seq<Choice>, smooth: bool)
  {
    && before <= after
    && forall i :: |before| <= i < |after| ==> if smooth then after[i] == Go else after[i] in {Go, Fail, Crash}
  }

  lemma IdleStays(disk: Disk, steps: nat)
    ensures Undisturbed(State(disk, Idle), steps) == State(disk, Idle)
    decreases steps
  {
    if steps > 0 {
      IdleStays(disk, steps - 1);
    }
  }

  lemma {:induction false} UndisturbedOn(s: State, j: nat, k: nat)
    ensures Undisturbed(s, j + k) == Undisturbed(Undisturbed(s, j), k)
    decreases j
  {
    if j > 0 {
      UndisturbedOn(Proceed(s.disk, s.pc), j - 1, k);
    }
  }

  /** A command on which nothing goes wrong is undisturbed. */
  lemma {:induction false} SmoothIsUndisturbed(s: State, trace: seq<Choice>)
    requires trace != [] && Continues([trace[0]], trace, true)
    ensures From(s, trace) == Undisturbed(Next(s, trace[0]), |trace| - 1)
    decreases |trace|
  {
    var n := |trace| - 1;
    hide Next;
    if n == 0 {
      assert trace[..0] == [] && From(s, []) == s;
    } else {
      assert trace[..n][0] == trace[0] && [trace[0]] <= trace[..n];
      SmoothIsUndisturbed(s, trace[..n]);
      OneMoreGo(Next(s, trace[0]), n - 1);
      GoProceeds(From(s, trace[..n]), trace[n]);
    }
  }

  lemma GoProceeds(s: State, c: Choice)
    requires c == Go
    ensures Next(s, c) == Proceed(s.disk, s.pc)
  {
  }

  lemma OneMoreGo(s: State, k: nat)
    ensures Undisturbed(s, k + 1) == Proceed(Undisturbed(s, k).disk, Undisturbed(s, k).pc)
  {
    UndisturbedOn(s, k, 1);
    var t := Undisturbed(s, k);
    assert Undisturbed(t, 1) == Undisturbed(Proceed(t.disk, t.pc), 0);
  }

  /** Two undisturbed stretches that both end the command end it alike. */
  lemma SameEnd(s: State, j: nat, k: nat)
    requires Undisturbed(s, j).pc == Idle && Undisturbed(s, k).pc == Idle
    ensures Undisturbed(s, j) == Undisturbed(s, k)
  {
    if j <= k {
      UndisturbedOn(s, j, k - j);
      IdleStays(Undisturbed(s, j).disk, k - j);
    } else {
      UndisturbedOn(s, k, j - k);
      IdleStays(Undisturbed(s, k).disk, j - k);
    }
  }

  lemma InstallEnds(disk: Disk, r: Receipt)
    ensures Undisturbed(State(disk, WriteReceipt(r)), 6).pc == Idle
    ensures Undisturbed(State(disk, Finalize(r)), 6).pc == Idle
  {
    InstallRuns(disk, r);
    var t := Proceed(disk, Finalize(r));
    IdleStays(t.disk, 5);
  }

  lemma RemoveEnds(disk: Disk, r: Receipt)
    ensures Undisturbed(State(disk, Verify(r)), 5).pc == Idle
  {
    var s1 := Proceed(disk, Verify(r));
    var s2 := Proceed(s1.disk, s1.pc);
    var s3 := Proceed(s2.disk, s2.pc);
    var s4 := Proceed(s3.disk, s3.pc);
    var s5 := Proceed(s4.disk, s4.pc);
    assert Undisturbed(s2, 3) == s5;
  }

  /** A smooth command ends where the undisturbed one does. */
  lemma SmoothEnd(s: State, trace: seq<Choice>, end: Disk, steps: nat)
    requires trace != [] && Continues([trace[0]], trace, true) && From(s, trace) == State(end, Idle)
    requires Undisturbed(Next(s, trace[0]), steps).pc == Idle
    ensures State(end, Idle) == Undisturbed(Next(s, trace[0]), steps)
  {
    hide Next, From;
    SmoothIsUndisturbed(s, trace);
    SameEnd(Next(s, trace[0]), |trace| - 1, steps);
  }

  datatype Luck = Works | Breaks | Dies

  /** The two commands over the files they change. Whatever happens to them, what they leave
      behind is a run of the step machine that ends with no command running. */
  class Store {
    var disk: Disk
    const smooth: bool  // nothing goes wrong on this host

    /** One file operation: it works, it reports an error, or the process dies before it. */
    method Try(ghost start: State, ghost trace: seq<Choice>, ghost pc: Pc)
      returns (luck: Luck, ghost longer: seq<Choice>)
      requires From(start, trace) == State(disk, pc)
      ensures From(start, longer) ==
        match luck { case Works => Proceed(disk, pc) case Breaks => State(disk, Failed(pc))
          case Dies => State(disk, Idle) }
      ensures Continues(trace, longer, smooth) && (smooth ==> luck == Works)
    {
      hide From, Proceed, Failed;
      luck := *;
      if smooth {
        luck := Works;
      }
      longer := trace + [match luck { case Works => Go case Breaks => Fail case Dies => Crash }];
      Then(start, trace, longer[|trace|]);
    }

    method FinalizeReceipt(ghost start: State, ghost trace: seq<Choice>, r: Receipt) returns (ghost longer: seq<Choice>)
      requires From(start, trace) == State(disk, Finalize(r))
      modifies this`disk
      ensures From(start, longer) == State(disk, Idle) && Continues(trace, longer, smooth)
    {
      var luck;
      luck, longer := Try(start, trace, Finalize(r));
      if luck == Works {
        disk := disk.(receipt := Some(r.(pending := false)));
      }
    }

    method RecoverFailedInstall(ghost start: State, ghost trace: seq<Choice>, r: Receipt)
      returns (ghost longer: seq<Choice>)
      requires From(start, trace) == State(disk, Recover(r))
      modifies this`disk
      ensures From(start, longer) == State(disk, Idle) && Continues(trace, longer, smooth)
    {
      var luck;
      luck, longer := Try(start, trace, Recover(r));
      if luck == Works && Probe(disk, r) == EntryAbsent {
        luck, longer := Try(start, longer, Rollback(r));
        if luck == Works {
          disk := disk.(receipt := None);
        }
      }
    }

    /** The privileged half of an install: the temporary file, the rename, the refresh. */
    method PerformLinuxTrust(ghost start: State, ghost trace: seq<Choice>, r: Receipt)
      returns (luck: Luck, ghost longer: seq<Choice>)
      requires From(start, trace) == State(disk, OpenTemp(r))
      modifies this`disk
      ensures From(start, longer) ==
        State(disk, match luck { case Works => Finalize(r) case Breaks => Recover(r) case Dies => Idle })
      ensures Continues(trace, longer, smooth)
    {
      hide From;
      luck, longer := Try(start, trace, OpenTemp(r));
      if luck != Works {
        return;
      }
      disk := disk.(temps := disk.temps[r.path := Torn]);
      luck, longer := Try(start, longer, FillTemp(r));
      if luck == Works {
        disk := disk.(temps := disk.temps[r.path := Cert(r.fingerprint)]);
        luck, longer := Try(start, longer, Publish(r));
        if luck == Works {
          disk := disk.(anchors := disk.anchors[r.path := FileAt(disk.temps, r.path)],
            temps := disk.temps[r.path := Absent]);
          luck, longer := Try(start, longer, Refresh(r));
          return;
        }
      }
      if luck == Breaks {
        luck, longer := Try(start, longer, DiscardTemp(r));
        if luck == Works {
          disk := disk.(temps := disk.temps[r.path := Absent]);
          luck := Breaks;
        }
      }
    }

    /** One install. Whether the receipt can be read and the probe answers is up to the host. On a
        smooth host the command does exactly what the undisturbed one does. */
    method InstallTrust(fingerprint: string, path: Option<string>, readable: bool, answers: bool)
      returns (ghost trace: seq<Choice>)
      modifies this`disk
      ensures From(State(old(disk), Idle), trace) == State(disk, Idle)
      ensures trace != [] && trace[0] == Install(fingerprint, path, readable, answers)
      ensures Continues([trace[0]], trace, smooth)
      ensures smooth ==>
        State(disk, Idle) == Undisturbed(State(old(disk), StartInstall(old(disk), fingerprint, path, readable,
          answers)), 6)
    {
      trace := InstallSteps(fingerprint, path, readable, answers);
      ghost var start := State(old(disk), Idle);
      if smooth {
        ghost var pc := StartInstall(old(disk), fingerprint, path, readable, answers);
        assert Next(start, trace[0]) == State(old(disk), pc);
        hide From, Undisturbed, StartInstall, Continues;
        if pc == Idle {
          IdleStays(old(disk), 6);
        } else {
          InstallEnds(old(disk), if pc.WriteReceipt? then pc.planned else pc.r);
        }
        SmoothEnd(start, trace, disk, 6);
      }
    }

    method InstallSteps(fingerprint: string, path: Option<string>, readable: bool, answers: bool)
      returns (ghost trace: seq<Choice>)
      modifies this`disk
      ensures From(State(old(disk), Idle), trace) == State(disk, Idle)
      ensures trace != [] && trace[0] == Install(fingerprint, path, readable, answers)
      ensures Continues([trace[0]], trace, smooth)
    {
      ghost var start := State(disk, Idle);
      ghost var c := Install(fingerprint, path, readable, answers);
      trace := [c];
      assert [] + [c] == [c];
      Then(start, [], c);
      hide From;
      if disk.receipt.Some? {
        if !readable {
          return;
        }
        var r := disk.receipt.value;
        if r.fingerprint != fingerprint || !answers {
          return;
        }
        if Probe(disk, r) == EntryPresent {
          if r.pending {
            trace := FinalizeReceipt(start, trace, r);
          }
          return;
        }
      }
      if path.None? {
        return;
      }
      var r := Receipt(fingerprint, path.value, true);
      var luck;
      luck, trace := Try(start, trace, WriteReceipt(r));
      if luck != Works {
        return;
      }
      disk := disk.(receipt := Some(r));
      luck, trace := PerformLinuxTrust(start, trace, r);
      if luck == Breaks {
        trace := RecoverFailedInstall(start, trace, r);
      } else if luck == Works {
        trace := FinalizeReceipt(start, trace, r);
      }
    }

    /** The privileged half of a remove: the anchor, its temporary file, the refresh. */
    method RemoveLinuxTrust(ghost start: State, ghost trace: seq<Choice>, r: Receipt)
      returns (done: bool, ghost longer: seq<Choice>)
      requires From(start, trace) == State(disk, Verify(r))
      modifies this`disk
      ensures From(start, longer) == State(disk, if done then DropReceipt(r) else Idle)
      ensures Continues(trace, longer, smooth)
    {
      hide From;
      done := false;
      var luck;
      luck, longer := Try(start, trace, Verify(r));
      var at := FileAt(disk.anchors, r.path);
      if luck != Works || (at.Cert? && at.fingerprint != r.fingerprint) {
        return;
      }
      luck, longer := Try(start, longer, DropAnchor(r));
      if luck != Works {
        return;
      }
      disk := disk.(anchors := disk.anchors[r.path := Absent]);
      luck, longer := Try(start, longer, SweepTemp(r));
      if luck != Works {
        return;
      }
      disk := disk.(temps := disk.temps[r.path := Absent]);
      luck, longer := Try(start, longer, RefreshAfter(r));
      done := luck == Works;
    }

    /** One remove, with the receipt readable or not. On a smooth host the command does exactly what
        the undisturbed one does. */
    method RemoveTrust(readable: bool) returns (ghost trace: seq<Choice>)
      modifies this`disk
      ensures From(State(old(disk), Idle), trace) == State(disk, Idle)
      ensures trace != [] && trace[0] == Remove(readable) && Continues([trace[0]], trace, smooth)
      ensures smooth ==> State(disk, Idle) == Undisturbed(State(old(disk), StartRemove(old(disk), readable)), 5)
    {
      trace := RemoveSteps(readable);
      ghost var start := State(old(disk), Idle);
      if smooth {
        ghost var pc := StartRemove(old(disk), readable);
        assert Next(start, trace[0]) == State(old(disk), pc);
        hide From, Undisturbed, Continues;
        if pc == Idle {
          IdleStays(old(disk), 5);
        } else {
          RemoveEnds(old(disk), pc.r);
        }
        SmoothEnd(start, trace, disk, 5);
      }
    }

    method RemoveSteps(readable: bool) returns (ghost trace: seq<Choice>)
      modifies this`disk
      ensures From(State(old(disk), Idle), trace) == State(disk, Idle)
      ensures trace != [] && trace[0] == Remove(readable) && Continues([trace[0]], trace, smooth)
    {
      ghost var start := State(disk, Idle);
      ghost var c := Remove(readable);
      trace := [c];
      assert [] + [c] == [c];
      Then(start, [], c);
      hide From;
      if disk.receipt.None? || !readable {
        return;
      }
      var r := disk.receipt.value;
      var done;
      done, trace := RemoveLinuxTrust(start, trace, r);
      if !done {
        return;
      }
      var luck;
      luck, trace := Try(start, trace, DropReceipt(r));
      if luck == Works {
        disk := disk.(receipt := None);
      }
    }
  }
}
