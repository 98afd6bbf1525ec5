/** The timed ledger of pre-balloon holds: internal/daemon/balloon.go, holdBalloonReclaim
    to BalloonHoldMiB. Times are nanoseconds. */
module Holds {
  datatype Hold = Hold(reclaimMiB: int, until: int)

  const TTL := 300_000_000_000

  // ----- The ledger as it is edited

  /** Holds whose window is still open, in order. */
  function Live(holds: seq<Hold>, now: int): seq<Hold>
  {
    if holds == [] then []
    else
      var last := holds[|holds| - 1];
      Live(holds[..|holds| - 1], now) + if now < last.until then [last] else []
  }

  /** The second ledger is the first one without the holds whose window is over: kept lists the
      places of the others, in order and once each. */
  ghost predicate Unexpired(holds: seq<Hold>, now: int, live: seq<Hold>, kept: seq<nat>)
  {
    && |kept| == |live|
    && (forall i :: 0 <= i < |kept| ==> kept[i] < |holds| && live[i] == holds[kept[i]])
    && (forall i, j :: 0 <= i < j < |kept| ==> kept[i] < kept[j])
    && (forall j :: 0 <= j < |holds| ==> (now < holds[j].until <==> j in kept))
  }

  lemma {:induction false} LiveIsUnexpired(holds: seq<Hold>, now: int) returns (kept: seq<nat>)
    ensures Unexpired(holds, now, Live(holds, now), kept)
    decreases |holds|
  {
    if holds == [] {
      kept := [];
    } else {
      hide Unexpired;
      var n := |holds| - 1;
      kept := LiveIsUnexpired(holds[..n], now);
      assert holds == holds[..n] + [holds[n]];
      if now < holds[n].until {
        UnexpiredAppend(holds[..n], holds[n], now, Live(holds[..n], now), kept);
        kept := kept + [n];
      } else {
        UnexpiredSkip(holds[..n], holds[n], now, Live(holds[..n], now), kept);
        assert Live(holds[..n], now) + [] == Live(holds[..n], now);
      }
    }
  }

  lemma UnexpiredAppend(holds: seq<Hold>, h: Hold, now: int, live: seq<Hold>, kept: seq<nat>)
    requires Unexpired(holds, now, live, kept) && now < h.until
    ensures Unexpired(holds + [h], now, live + [h], kept + [|holds|])
  {
    var more := kept + [|holds|];
    forall j | 0 <= j < |holds| + 1
      ensures now < (holds + [h])[j].until <==> j in more
    {
      assert j == |holds| ==> more[|kept|] == j;
    }
  }

  lemma UnexpiredSkip(holds: seq<Hold>, h: Hold, now: int, live: seq<Hold>, kept: seq<nat>)
    requires Unexpired(holds, now, live, kept) && now >= h.until
    ensures Unexpired(holds + [h], now, live, kept)
  {
    forall j | 0 <= j < |holds| + 1
      ensures now < (holds + [h])[j].until <==> j in kept
    {
      assert j == |holds| ==> j !in kept;
    }
  }

  /** A hold is still on the ledger exactly when it was and its window is open. */
  lemma {:induction false} LiveMeans(holds: seq<Hold>, now: int, h: Hold)
    ensures h in Live(holds, now) <==> h in holds && now < h.until
    ensures multiset(Live(holds, now))[h] == if now < h.until then multiset(holds)[h] else 0
    decreases |holds|
  {
    if holds != [] {
      var n := |holds| - 1;
      LiveMeans(holds[..n], now, h);
      assert holds == holds[..n] + [holds[n]];
    }
  }

  /** Exactly the holds whose window is open are left, in their order and as often as before. */
  ghost predicate OnlyUnexpired(holds: seq<Hold>, now: int, live: seq<Hold>)
  {
    && (forall h :: h in live <==> h in holds && now < h.until)
    && exists kept :: Unexpired(holds, now, live, kept)
  }

  lemma LiveKeeps(holds: seq<Hold>, now: int)
    ensures OnlyUnexpired(holds, now, Live(holds, now))
  {
    var kept := LiveIsUnexpired(holds, now);
    forall h
      ensures h in Live(holds, now) <==> h in holds && now < h.until
    {
      LiveMeans(holds, now, h);
    }
  }

  /** Searches from the newest entry back for one of that size; the length of the
      ledger when there is none. */
  function Newest(holds: seq<Hold>, size: int): (k: nat)
    ensures k <= |holds| && (k < |holds| ==> holds[k].reclaimMiB == size)
    ensures forall j :: k < j < |holds| ==> holds[j].reclaimMiB != size
    ensures k == |holds| ==> forall h :: h in holds ==> h.reclaimMiB != size
  {
    NewestBelow(holds, size, |holds|)
  }

  function NewestBelow(holds: seq<Hold>, size: int, i: nat): (k: nat)
    requires i <= |holds|
    ensures k < i || k == |holds|
    ensures k < i ==> holds[k].reclaimMiB == size && forall j :: k < j < i ==> holds[j].reclaimMiB != size
    ensures k == |holds| ==> forall j :: 0 <= j < i ==> holds[j].reclaimMiB != size
  {
    if i == 0 then |holds| else if holds[i - 1].reclaimMiB == size then i - 1 else NewestBelow(holds, size, i - 1)
  }

  function Armed(holds: seq<Hold>, size: int, now: int): seq<Hold>
  {
    if size <= 0 then holds else Live(holds, now) + [Hold(size, now + TTL)]
  }

  function Rearmed(holds: seq<Hold>, size: int, now: int): seq<Hold>
  {
    if size <= 0 then holds
    else
      var live := Live(holds, now);
      var k := Newest(live, size);
      if k < |live| then live[k := Hold(size, now + TTL)] else live + [Hold(size, now + TTL)]
  }

  function Released(holds: seq<Hold>, size: int, now: int): seq<Hold>
  {
    if size <= 0 then holds
    else
      var live := Live(holds, now);
      var k := Newest(live, size);
      if k < |live| then live[..k] + live[k + 1..] else live
  }

  /** One critical section of another start or reading. */
  datatype Edit = ArmEdit(size: int, now: int) | RearmEdit(size: int, now: int) | ReleaseEdit(size: int, now: int)
    | ReadEdit(now: int)

  function EditedOnce(holds: seq<Hold>, edit: Edit): seq<Hold>
  {
    match edit
    case ArmEdit(size, now) => Armed(holds, size, now)
    case RearmEdit(size, now) => Rearmed(holds, size, now)
    case ReleaseEdit(size, now) => Released(holds, size, now)
    case ReadEdit(now) => Live(holds, now)
  }

  function Edited(holds: seq<Hold>, edits: seq<Edit>): seq<Hold>
  {
    if edits == [] then holds else EditedOnce(Edited(holds, edits[..|edits| - 1]), edits[|edits| - 1])
  }

  /** What others do is done in turn. */
  lemma EditedInTurn(holds: seq<Hold>, edits: seq<Edit>, edit: Edit)
    ensures Edited(holds, []) == holds
    ensures Edited(holds, edits + [edit]) == EditedOnce(Edited(holds, edits), edit)
  {
    assert (edits + [edit])[..|edits|] == edits;
  }

  /** The largest amount held, zero when nothing is. */
  function Largest(holds: seq<Hold>): (m: int)
    ensures m >= 0 && forall i :: 0 <= i < |holds| ==> holds[i].reclaimMiB <= m
    ensures m > 0 ==> exists i :: 0 <= i < |holds| && holds[i].reclaimMiB == m
  {
    if holds == [] then 0
    else
      var before, last := Largest(holds[..|holds| - 1]), holds[|holds| - 1].reclaimMiB;
      if last > before then last else before
  }

  lemma LargestMeans(holds: seq<Hold>)
    ensures Largest(holds) >= 0 && forall h :: h in holds ==> h.reclaimMiB <= Largest(holds)
    ensures Largest(holds) == 0 || exists h :: h in holds && h.reclaimMiB == Largest(holds)
  {
    if Largest(holds) > 0 {
      var i :| 0 <= i < |holds| && holds[i].reclaimMiB == Largest(holds);
      assert holds[i] in holds;
    }
  }

  class Ledger {
    var holds: seq<Hold>

    constructor ()
      ensures holds == []
    {
      holds := [];
    }

    method DropExpired(now: int)
      modifies this
      ensures holds == Live(old(holds), now)
      ensures OnlyUnexpired(old(holds), now, holds)
    {
      var live: seq<Hold> := [];
      hide OnlyUnexpired;
      for i := 0 to |holds|
        invariant holds == old(holds) && live == Live(holds[..i], now)
      {
        assert holds[..i + 1][..i] == holds[..i];
        if now < holds[i].until {
          live := live + [holds[i]];
        }
      }
      assert holds[..|holds|] == holds;
      LiveKeeps(holds, now);
      holds := live;
    }

    method Arm(reclaimMiB: int, now: int)
      modifies this
      ensures holds == Armed(old(holds), reclaimMiB, now)
    {
      hide OnlyUnexpired, Live;
      if reclaimMiB <= 0 {
        return;
      }
      DropExpired(now);
      holds := holds + [Hold(reclaimMiB, now + TTL)];
    }

    method Rearm(reclaimMiB: int, now: int)
      modifies this
      ensures holds == Rearmed(old(holds), reclaimMiB, now)
    {
      hide OnlyUnexpired, Live;
      if reclaimMiB <= 0 {
        return;
      }
      DropExpired(now);
      var i := |holds|;
      while i > 0
        invariant 0 <= i <= |holds| && holds == Live(old(holds), now)
        invariant Newest(holds, reclaimMiB) == NewestBelow(holds, reclaimMiB, i)
      {
        i := i - 1;
        if holds[i].reclaimMiB == reclaimMiB {
          holds := holds[i := Hold(reclaimMiB, now + TTL)];
          return;
        }
      }
      holds := holds + [Hold(reclaimMiB, now + TTL)];
    }

    method Release(reclaimMiB: int, now: int)
      modifies this
      ensures holds == Released(old(holds), reclaimMiB, now)
    {
      hide OnlyUnexpired, Live;
      if reclaimMiB <= 0 {
        return;
      }
      DropExpired(now);
      var i := |holds|;
      while i > 0
        invariant 0 <= i <= |holds| && holds == Live(old(holds), now)
        invariant Newest(holds, reclaimMiB) == NewestBelow(holds, reclaimMiB, i)
      {
        i := i - 1;
        if holds[i].reclaimMiB == reclaimMiB {
          holds := holds[..i] + holds[i + 1..];
          return;
        }
      }
    }

    /** What others do to the ledger while nobody here holds its lock. */
    method Interfere(edits: seq<Edit>)
      modifies this
      ensures holds == Edited(old(holds), edits)
    {
      hide OnlyUnexpired;
      for i := 0 to |edits|
        invariant holds == Edited(old(holds), edits[..i])
      {
        assert edits[..i + 1][..i] == edits[..i];
        match edits[i] {
          case ArmEdit(size, now) => Arm(size, now);
          case RearmEdit(size, now) => Rearm(size, now);
          case ReleaseEdit(size, now) => Release(size, now);
          case ReadEdit(now) => DropExpired(now);
        }
      }
      assert edits[..|edits|] == edits;
    }

    /** The first critical section of a reading: whether the ceiling is worth measuring at all. */
    method HoldArmed(now: int) returns (armed: bool)
      modifies this
      ensures holds == Live(old(holds), now)
      ensures armed <==> holds != []
    {
      hide OnlyUnexpired;
      DropExpired(now);
      armed := |holds| > 0;
    }

    /** What the manager must not hand back yet: the largest hold still open, capped by what the
        running guests could give back. Other starts may edit the ledger between the two critical
        sections; the answer is right for the ledger of the section that gave it. */
    method HoldMiB(armedAt: int, meanwhile: seq<Edit>, ceilingMiB: int, now: int) returns (held: int)
      requires ceilingMiB >= 0
      modifies this
      ensures 0 <= held <= ceilingMiB
      ensures forall h :: h in holds ==> h.reclaimMiB <= held || held == ceilingMiB
      ensures held == 0 || held == ceilingMiB || exists h :: h in holds && h.reclaimMiB == held
      ensures holds == [] ==> held == 0
      ensures holds == if Live(old(holds), armedAt) == [] then []
        else Live(Edited(Live(old(holds), armedAt), meanwhile), now)
    {
      hide OnlyUnexpired, Edited, Live;
      held := 0;
      var armed := HoldArmed(armedAt);
      if !armed {
        return;
      }
      Interfere(meanwhile);
      DropExpired(now);
      for i := 0 to |holds|
        invariant held == Largest(holds[..i])
        invariant holds == Live(Edited(Live(old(holds), armedAt), meanwhile), now)
      {
        assert holds[..i + 1][..i] == holds[..i];
        if holds[i].reclaimMiB > held {
          held := holds[i].reclaimMiB;
        }
      }
      assert holds[..|holds|] == holds;
      LargestMeans(holds);
      if held > ceilingMiB {
        held := ceilingMiB;
      }
    }
  }

  lemma {:induction false} LiveAgain(holds: seq<Hold>, before: int, now: int)
    requires before <= now
    ensures Live(Live(holds, before), now) == Live(holds, now)
  {
    if holds != [] {
      var last := holds[|holds| - 1];
      var rest := Live(holds[..|holds| - 1], before);
      LiveAgain(holds[..|holds| - 1], before, now);
      if before < last.until {
        assert (rest + [last])[..|rest|] == rest;
      } else {
        assert rest + [] == rest;
      }
    }
  }

  // ----- Whose hold is whose

  /** A ledger entry together with the start that armed it. The code never sees owners. */
  datatype Entry = Entry(owner: nat, hold: Hold)

  function Erase(entries: seq<Entry>): (holds: seq<Hold>)
    ensures |holds| == |entries| && forall i :: 0 <= i < |entries| ==> holds[i] == entries[i].hold
  {
    seq(|entries|, i requires 0 <= i < |entries| => entries[i].hold)
  }

  function LiveEntries(entries: seq<Entry>, now: int): seq<Entry>
  {
    if entries == [] then []
    else
      var last := entries[|entries| - 1];
      LiveEntries(entries[..|entries| - 1], now) + if now < last.hold.until then [last] else []
  }

  /** A start that has been admitted and neither launched nor failed yet. */
  datatype Start = Idle | Running(id: nat, size: int)

  datatype State = State(entries: seq<Entry>, start: Start, next: nat, clock: int)

  /** Starts are serialized: one is admitted, may re-arm its hold, and then either fails
      and releases it or finishes and leaves it to run out. Readings come at any time. */
  datatype Step =
    | Admit(size: int, now: int)
    | Relaunch(now: int)
    | Fail(now: int)
    | Finish(now: int)
    | Read(now: int)

  ghost predicate Enabled(s: State, step: Step)
  {
    && s.clock <= step.now
    && (step.Admit? ==> s.start == Idle)
    && (step.Relaunch? || step.Fail? || step.Finish? ==> s.start.Running?)
  }

  ghost function Next(s: State, step: Step): State
    requires Enabled(s, step)
  {
    var live := LiveEntries(s.entries, step.now);
    match step
    case Admit(size, now) =>
      State(if size <= 0 then s.entries else live + [Entry(s.next, Hold(size, now + TTL))],
            Running(s.next, size), s.next + 1, now)
    case Relaunch(now) =>
      if s.start.size <= 0 then s.(clock := now)
      else
        var renewed := Hold(s.start.size, now + TTL);
        var k := Newest(Erase(live), s.start.size);
        s.(entries := if k < |live| then live[k := live[k].(hold := renewed)] else live + [Entry(s.start.id, renewed)],
          clock := now)
    case Fail(now) =>
      if s.start.size <= 0 then s.(start := Idle, clock := now)
      else
        var k := Newest(Erase(live), s.start.size);
        s.(entries := if k < |live| then live[..k] + live[k + 1..] else live, start := Idle, clock := now)
    case Finish(now) => s.(start := Idle, clock := now)
    case Read(now) => s.(entries := live, clock := now)
  }

  /** Sorted by deadline and by owner, one entry per owner, below the given bounds. */
  ghost predicate Tidy(entries: seq<Entry>, owners: nat, latest: int)
  {
    && (forall i, j :: 0 <= i < j < |entries| ==> entries[i].hold.until <= entries[j].hold.until)
    && (forall i, j :: 0 <= i < j < |entries| ==> entries[i].owner < entries[j].owner)
    && (forall i :: 0 <= i < |entries| ==> entries[i].owner < owners && entries[i].hold.until <= latest)
  }

  /** While a start is running its own entry, if it has one, is the newest; once that
      entry has run out so has every other. */
  ghost predicate OwnLast(entries: seq<Entry>, start: Start)
  {
    match start
    case Idle => true
    case Running(id, size) =>
      if size <= 0 then forall i :: 0 <= i < |entries| ==> entries[i].owner < id
      else entries != [] ==>
        var last := entries[|entries| - 1];
        last.owner == id && last.hold.reclaimMiB == size
  }

  ghost predicate Inv(s: State)
  {
    && Tidy(s.entries, s.next, s.clock + TTL)
    && OwnLast(s.entries, s.start)
    && (s.start.Running? ==> s.next == s.start.id + 1)
  }

  lemma LastIsLatest(entries: seq<Entry>, owners: nat, latest: int, i: nat)
    requires Tidy(entries, owners, latest) && i < |entries|
    ensures entries[i].hold.until <= entries[|entries| - 1].hold.until
  {
  }

  /** In a ledger sorted by deadline the holds still open are a suffix. */
  lemma {:induction false} LiveSuffix(entries: seq<Entry>, owners: nat, latest: int, now: int) returns (k: nat)
    requires Tidy(entries, owners, latest)
    ensures k <= |entries| && LiveEntries(entries, now) == entries[k..]
    ensures k < |entries| ==> now < entries[k].hold.until
    decreases |entries|
  {
    hide Tidy;
    if entries == [] {
      k := 0;
    } else {
      var n := |entries| - 1;
      TidySlice(entries, owners, latest, 0, n);
      assert entries[0..n] == entries[..n];
      k := LiveSuffix(entries[..n], owners, latest, now);
      if now < entries[n].hold.until {
        assert entries[..n][k..] + [entries[n]] == entries[k..];
      } else {
        LastIsLatest(entries, owners, latest, k);
        assert entries[..n][k..] == [] && entries[n + 1..] == [];
        k := n + 1;
      }
    }
  }

  lemma TidySlice(entries: seq<Entry>, owners: nat, latest: int, i: nat, j: nat)
    requires Tidy(entries, owners, latest) && i <= j <= |entries|
    ensures Tidy(entries[i..j], owners, latest)
  {
  }

  lemma TidyButLast(entries: seq<Entry>, owners: nat, latest: int)
    requires Tidy(entries, owners, latest) && entries != []
    ensures var n := |entries| - 1; Tidy(entries[..n], entries[n].owner, latest)
  {
  }

  lemma TidyAppend(entries: seq<Entry>, e: Entry, latest: int)
    requires Tidy(entries, e.owner, latest) && latest <= e.hold.until
    ensures Tidy(entries + [e], e.owner + 1, e.hold.until)
  {
  }

  lemma TidyWeaken(entries: seq<Entry>, owners: nat, latest: int, owners': nat, latest': int)
    requires Tidy(entries, owners, latest) && owners <= owners' && latest <= latest'
    ensures Tidy(entries, owners', latest')
  {
  }

  /** The entries of everyone but the given start. */
  ghost function Without(entries: seq<Entry>, id: nat): seq<Entry>
  {
    if entries == [] then []
    else
      var last := entries[|entries| - 1];
      Without(entries[..|entries| - 1], id) + if last.owner != id then [last] else []
  }

  lemma {:induction false} WithoutAbsent(entries: seq<Entry>, id: nat, owners: nat, latest: int)
    requires Tidy(entries, owners, latest) && owners <= id
    ensures Without(entries, id) == entries
    decreases |entries|
  {
    if entries != [] {
      var n := |entries| - 1;
      TidySlice(entries, owners, latest, 0, n);
      WithoutAbsent(entries[..n], id, owners, latest);
      assert entries[..n] + [entries[n]] == entries;
    }
  }

  /** What each step does to the ledger, told by owner. Re-arming and releasing match
      an entry by size alone, yet they touch the start's own entry and no other, even
      when that entry has expired or another start holds the same amount. */
  ghost predicate Effect(s: State, step: Step, t: State)
    requires Enabled(s, step)
  {
    var live := LiveEntries(s.entries, step.now);
    match step
    case Admit(size, now) =>
      t.entries == if size <= 0 then s.entries else live + [Entry(s.next, Hold(size, now + TTL))]
    case Relaunch(now) =>
      t.entries == if s.start.size <= 0 then s.entries
                   else Without(live, s.start.id) + [Entry(s.start.id, Hold(s.start.size, now + TTL))]
    case Fail(now) =>
      t.entries == if s.start.size <= 0 then s.entries else Without(live, s.start.id)
    case Finish(_) => t.entries == s.entries
    case Read(now) => t.entries == live
  }

  lemma LiveIsTidy(s: State, now: int)
    requires Inv(s) && s.clock <= now
    ensures var live := LiveEntries(s.entries, now);
      Tidy(live, s.next, s.clock + TTL) && OwnLast(live, s.start)
  {
    var k := LiveSuffix(s.entries, s.next, s.clock + TTL, now);
    TidySlice(s.entries, s.next, s.clock + TTL, k, |s.entries|);
    assert s.entries[k..|s.entries|] == s.entries[k..];
  }

  /** How many of the live entries of a running start belong to others. */
  ghost function OthersBefore(live: seq<Entry>): nat
  {
    if live == [] then 0 else |live| - 1
  }

  lemma OwnIsNewest(live: seq<Entry>, id: nat, size: int)
    requires size > 0 && OwnLast(live, Running(id, size))
    ensures Newest(Erase(live), size) == OthersBefore(live)
  {
  }

  lemma OthersAreBefore(live: seq<Entry>, id: nat, size: int, owners: nat, latest: int)
    requires size > 0 && OwnLast(live, Running(id, size)) && Tidy(live, owners, latest)
    ensures Tidy(live[..OthersBefore(live)], id, latest)
    ensures Without(live, id) == live[..OthersBefore(live)]
  {
    if live == [] {
      assert live[..0] == [];
    } else {
      var n := |live| - 1;
      TidyButLast(live, owners, latest);
      WithoutAbsent(live[..n], id, id, latest);
      assert live[..n] + [] == live[..n];
    }
  }

  lemma AdmitStep(s: State, step: Step)
    requires Inv(s) && Enabled(s, step) && step.Admit?
    ensures Inv(Next(s, step)) && Effect(s, step, Next(s, step))
  {
    if step.size <= 0 {
      TidyWeaken(s.entries, s.next, s.clock + TTL, s.next + 1, step.now + TTL);
    } else {
      LiveIsTidy(s, step.now);
      TidyAppend(LiveEntries(s.entries, step.now), Entry(s.next, Hold(step.size, step.now + TTL)), s.clock + TTL);
    }
  }

  lemma RelaunchStep(s: State, step: Step)
    requires Inv(s) && Enabled(s, step) && step.Relaunch?
    ensures Inv(Next(s, step)) && Effect(s, step, Next(s, step))
  {
    hide Tidy, Newest, LiveEntries, Without, Erase;
    if s.start.size <= 0 {
      TidyWeaken(s.entries, s.next, s.clock + TTL, s.next, step.now + TTL);
    } else {
      var live := LiveEntries(s.entries, step.now);
      var own := Entry(s.start.id, Hold(s.start.size, step.now + TTL));
      LiveIsTidy(s, step.now);
      OwnIsNewest(live, s.start.id, s.start.size);
      OthersAreBefore(live, s.start.id, s.start.size, s.next, s.clock + TTL);
      var n := OthersBefore(live);
      TidyAppend(live[..n], own, s.clock + TTL);
      assert Next(s, step).entries == live[..n] + [own];
    }
  }

  lemma FailStep(s: State, step: Step)
    requires Inv(s) && Enabled(s, step) && step.Fail?
    ensures Inv(Next(s, step)) && Effect(s, step, Next(s, step))
  {
    hide Tidy, Newest, LiveEntries, Without, Erase;
    if s.start.size <= 0 {
      TidyWeaken(s.entries, s.next, s.clock + TTL, s.next, step.now + TTL);
    } else {
      var live := LiveEntries(s.entries, step.now);
      LiveIsTidy(s, step.now);
      OwnIsNewest(live, s.start.id, s.start.size);
      OthersAreBefore(live, s.start.id, s.start.size, s.next, s.clock + TTL);
      var n := OthersBefore(live);
      TidyWeaken(live[..n], s.start.id, s.clock + TTL, s.next, step.now + TTL);
      assert Next(s, step).entries == live[..n];
    }
  }

  lemma ReadStep(s: State, step: Step)
    requires Inv(s) && Enabled(s, step) && (step.Read? || step.Finish?)
    ensures Inv(Next(s, step)) && Effect(s, step, Next(s, step))
  {
    LiveIsTidy(s, step.now);
    TidyWeaken(LiveEntries(s.entries, step.now), s.next, s.clock + TTL, s.next, step.now + TTL);
    TidyWeaken(s.entries, s.next, s.clock + TTL, s.next, step.now + TTL);
  }

  /** Every step keeps the ledger sorted by deadline with at most one entry per start. */
  lemma StepKeepsOwnership(s: State, step: Step)
    requires Inv(s) && Enabled(s, step)
    ensures Inv(Next(s, step)) && Effect(s, step, Next(s, step))
  {
    hide Inv, Effect, Next;
    match step
    case Admit(_, _) => AdmitStep(s, step);
    case Relaunch(_) => RelaunchStep(s, step);
    case Fail(_) => FailStep(s, step);
    case Finish(_) => ReadStep(s, step);
    case Read(_) => ReadStep(s, step);
  }

  ghost predicate Run(steps: seq<Step>, states: seq<State>)
  {
    && |states| == |steps| + 1
    && states[0].entries == [] && states[0].start == Idle
    && forall i :: 0 <= i < |steps| ==> Enabled(states[i], steps[i]) && states[i + 1] == Next(states[i], steps[i])
  }

  /** The same over whole runs of serialized starts under a monotone clock. */
  lemma {:induction false} RunKeepsOwnership(steps: seq<Step>, states: seq<State>)
    requires Run(steps, states)
    ensures forall i :: 0 <= i < |states| ==> Inv(states[i])
    ensures forall i :: 0 <= i < |steps| ==> Effect(states[i], steps[i], states[i + 1])
    decreases |steps|
  {
    if |steps| > 0 {
      var n := |steps| - 1;
      RunKeepsOwnership(steps[..n], states[..n + 1]);
      assert states[..n + 1][n] == states[n];
      StepKeepsOwnership(states[n], steps[n]);
      forall i | 0 <= i < n
        ensures Effect(states[i], steps[i], states[i + 1])
      {
        assert states[..n + 1][i] == states[i] && states[..n + 1][i + 1] == states[i + 1];
      }
    }
  }

  // ----- How long a hold stands

  lemma {:induction false} LiveEntriesMean(entries: seq<Entry>, now: int, e: Entry)
    ensures e in LiveEntries(entries, now) <==> e in entries && now < e.hold.until
    decreases |entries|
  {
    if entries != [] {
      var n := |entries| - 1;
      LiveEntriesMean(entries[..n], now, e);
      assert entries == entries[..n] + [entries[n]];
    }
  }

  lemma {:induction false} WithoutMeans(entries: seq<Entry>, id: nat, e: Entry)
    ensures e in Without(entries, id) <==> e in entries && e.owner != id
    decreases |entries|
  {
    if entries != [] {
      var n := |entries| - 1;
      WithoutMeans(entries[..n], id, e);
      assert entries == entries[..n] + [entries[n]];
    }
  }

  /** The step puts the start's hold on the ledger, for the first time or again. */
  ghost predicate Arms(s: State, step: Step, id: nat, size: int)
  {
    (step.Admit? && step.size == size && s.next == id) || (step.Relaunch? && s.start == Running(id, size))
  }

  /** The step is the start's own and takes its hold back or renews it. */
  ghost predicate Touches(s: State, step: Step, id: nat)
  {
    (step.Fail? || step.Relaunch?) && s.start.Running? && s.start.id == id
  }

  /** The start has this hold and no other, for as long as its window is open. */
  ghost predicate Stands(s: State, id: nat, h: Hold)
  {
    && id < s.next
    && (forall e :: e in s.entries && e.owner == id ==> e.hold == h)
    && (s.clock < h.until ==> Entry(id, h) in s.entries)
  }

  lemma ArmedStands(s: State, step: Step, id: nat, size: int)
    requires Inv(s) && Enabled(s, step) && size > 0 && Arms(s, step, id, size)
    ensures Stands(Next(s, step), id, Hold(size, step.now + TTL))
  {
    StepKeepsOwnership(s, step);
    var t, own := Next(s, step), Entry(id, Hold(size, step.now + TTL));
    var live := LiveEntries(s.entries, step.now);
    hide LiveEntries, Without, Newest, Erase;
    assert t.entries[|t.entries| - 1] == own;
    forall e | e in t.entries && e.owner == id
      ensures e == own
    {
      LiveEntriesMean(s.entries, step.now, e);
      WithoutMeans(live, id, e);
    }
  }

  lemma StillStands(s: State, step: Step, id: nat, h: Hold)
    requires Inv(s) && Enabled(s, step) && Stands(s, id, h) && !Touches(s, step, id)
    ensures Stands(Next(s, step), id, h)
    ensures step.Read? && h.until <= step.now ==> forall e :: e in Next(s, step).entries ==> e.owner != id
  {
    StepKeepsOwnership(s, step);
    var t := Next(s, step);
    var live := LiveEntries(s.entries, step.now);
    forall e: Entry
      ensures e in live <==> e in s.entries && step.now < e.hold.until
    {
      LiveEntriesMean(s.entries, step.now, e);
    }
    hide LiveEntries, Newest, Erase, Inv;
    if s.start.Running? {
      forall e: Entry
        ensures e in Without(live, s.start.id) <==> e in live && e.owner != s.start.id
      {
        WithoutMeans(live, s.start.id, e);
      }
    }
    hide Without;
  }

  lemma {:induction false} HoldStandsAt(steps: seq<Step>, states: seq<State>, i: nat, k: nat, id: nat, size: int)
    requires Run(steps, states) && i < k <= |steps| && size > 0 && Arms(states[i], steps[i], id, size)
    requires forall j :: i < j < k ==> !Touches(states[j], steps[j], id)
    ensures Stands(states[k], id, Hold(size, steps[i].now + TTL))
    ensures steps[k - 1].Read? && steps[i].now + TTL <= steps[k - 1].now ==>
      forall e :: e in states[k].entries ==> e.owner != id
    decreases k
  {
    RunKeepsOwnership(steps, states);
    hide Inv, Effect, Next, Stands;
    if k == i + 1 {
      ArmedStands(states[i], steps[i], id, size);
    } else {
      HoldStandsAt(steps, states, i, k - 1, id, size);
      StillStands(states[k - 1], steps[k - 1], id, Hold(size, steps[i].now + TTL));
    }
  }

  /** A start's hold stays on the ledger, unchanged, until it is taken back or renewed by that start
      or until five minutes have passed since it was last put there; the first reading after that
      drops it. */
  lemma HoldStands(steps: seq<Step>, states: seq<State>, i: nat, k: nat, id: nat, size: int)
    requires Run(steps, states) && i < k <= |steps| && size > 0 && Arms(states[i], steps[i], id, size)
    requires forall j :: i < j < k ==> !Touches(states[j], steps[j], id)
    ensures var own := Entry(id, Hold(size, steps[i].now + 300_000_000_000));
      && (forall e :: e in states[k].entries && e.owner == id ==> e == own)
      && (states[k].clock < own.hold.until ==> own in states[k].entries)
      && (steps[k - 1].Read? && own.hold.until <= steps[k - 1].now ==> own !in states[k].entries)
  {
    HoldStandsAt(steps, states, i, k, id, size);
  }

  /** While it stands every reading holds back at least that much, up to the ceiling. */
  lemma ReadingSeesHold(steps: seq<Step>, states: seq<State>, i: nat, k: nat, id: nat, size: int, now: int)
    requires Run(steps, states) && i < k <= |steps| && size > 0 && Arms(states[i], steps[i], id, size)
    requires forall j :: i < j < k ==> !Touches(states[j], steps[j], id)
    requires states[k].clock <= now < steps[i].now + 300_000_000_000
    ensures Largest(Live(Erase(states[k].entries), now)) >= size
  {
    HoldStands(steps, states, i, k, id, size);
    var entries, own := states[k].entries, Entry(id, Hold(size, steps[i].now + TTL));
    hide Run, Live, Largest;
    var j :| 0 <= j < |entries| && entries[j] == own;
    assert Erase(entries)[j] == own.hold;
    LiveMeans(Erase(entries), now, own.hold);
    LargestMeans(Live(Erase(entries), now));
  }

  // ----- The owners are invisible to the code

  lemma {:induction false} EraseLive(entries: seq<Entry>, now: int)
    ensures Erase(LiveEntries(entries, now)) == Live(Erase(entries), now)
  {
    if entries != [] {
      var n := |entries| - 1;
      EraseLive(entries[..n], now);
      assert Erase(entries)[..n] == Erase(entries[..n]);
      var rest := LiveEntries(entries[..n], now);
      assert Erase(rest + [entries[n]]) == Erase(rest) + [entries[n].hold];
      assert rest + [] == rest;
    }
  }

  lemma EraseEdits(entries: seq<Entry>, e: Entry, k: nat)
    ensures Erase(entries + [e]) == Erase(entries) + [e.hold]
    ensures k < |entries| ==> Erase(entries[k := e]) == Erase(entries)[k := e.hold]
    ensures k < |entries| ==> Erase(entries[..k] + entries[k + 1..]) == Erase(entries)[..k] + Erase(entries)[k + 1..]
  {
  }

  /** Forgetting owners, every step of a run is the ledger operation the code performs. */
  lemma ErasedStep(s: State, step: Step)
    requires Enabled(s, step)
    ensures Erase(Next(s, step).entries) ==
      match step {
        case Admit(size, now) => Armed(Erase(s.entries), size, now)
        case Relaunch(now) => Rearmed(Erase(s.entries), s.start.size, now)
        case Fail(now) => Released(Erase(s.entries), s.start.size, now)
        case Finish(_) => Erase(s.entries)
        case Read(now) => Live(Erase(s.entries), now)
      }
  {
    hide Live, LiveEntries, Erase, Newest;
    EraseLive(s.entries, step.now);
    var live := LiveEntries(s.entries, step.now);
    match step
    case Admit(size, now) =>
      EraseEdits(live, Entry(s.next, Hold(size, now + TTL)), 0);
    case Relaunch(now) =>
      var k := Newest(Erase(live), s.start.size);
      var renewed := Hold(s.start.size, now + TTL);
      EraseEdits(live, Entry(s.start.id, renewed), k);
      if k < |live| {
        EraseEdits(live, live[k].(hold := renewed), k);
      }
    case Fail(_) =>
      EraseEdits(live, Entry(0, Hold(0, 0)), Newest(Erase(live), s.start.size));
    case Finish(_) =>
    case Read(_) =>
  }
}
