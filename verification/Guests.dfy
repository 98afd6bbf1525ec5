/** A running guest as the two balloon controllers see it. */
module Guests {
  import opened Options

  /** What a guest answers when it is asked for a memory target: it took it, the
      daemon is tearing machines down, its balloon device is not up yet, or it failed. */
  datatype Answer = Accepted | Quiesced | DevicePending | Refused

  /** A guest in a controller's snapshot. The current target, when the guest reports
      one at all, is the value the snapshot was taken with, however old it is. */
  datatype Vm = Vm(configuredMiB: int, reported: Option<int>)

  function CurrentTargetMiB(vm: Vm): int
  {
    if vm.reported.Some? && vm.reported.value > 0 then vm.reported.value else vm.configuredMiB
  }

  /** A machine snapshotted with the daemon's ledger entry for it, zero for none. */
  function Snapshot(configuredMiB: int, recordedMiB: int): Vm
  {
    Vm(configuredMiB, Some(if recordedMiB > 0 then recordedMiB else configuredMiB))
  }

  /** What a snapshot was taken with is what is read from it: the ledger entry when there is one, the
      configured size otherwise. A guest that reports nothing above zero is at its configured size. */
  lemma SnapshotReads(configuredMiB: int, recordedMiB: int)
    ensures recordedMiB > 0 ==> CurrentTargetMiB(Snapshot(configuredMiB, recordedMiB)) == recordedMiB
    ensures recordedMiB <= 0 ==> CurrentTargetMiB(Snapshot(configuredMiB, recordedMiB)) == configuredMiB
    ensures Snapshot(configuredMiB, recordedMiB).configuredMiB == configuredMiB
    ensures CurrentTargetMiB(Vm(configuredMiB, None)) == configuredMiB
    ensures recordedMiB <= 0 ==> CurrentTargetMiB(Vm(configuredMiB, Some(recordedMiB))) == configuredMiB
  {
  }
}
