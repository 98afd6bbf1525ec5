/** Networking and storage knobs: internal/cluster/provisioning.go. */
module Provisioning {
  import opened Options

  datatype Intent = Intent(
    cni: string, csi: string, lb: bool, bgp: bool, hubble: bool, disableKubeletMemoryProtection: bool)

  /** The knobs as they were supplied; None is a knob left out, which differs from an explicit false. */
  datatype Input = Input(cni: string, csi: string, lb: Option<bool>, bgp: Option<bool>, hubble: Option<bool>,
                         kubeletMemoryProtection: Option<bool>)

  const NO_INTENT := Intent("", "", false, false, false, false)
  const NO_INPUT := Input("", "", None, None, None, None)

  function GetOr(knob: Option<bool>, default: bool): bool { if knob.Some? then knob.value else default }

  function ParseIntent(input: Input): Option<Intent>
  {
    if input.cni == "" then
      if input.csi != "" then None
      else if input.lb.Some? then None
      else if input.bgp.Some? then None
      else if input.hubble.Some? then None
      else if input.kubeletMemoryProtection.Some? then None
      else Some(NO_INTENT)
    else if input.cni != "cilium" && input.cni != "flannel" then None
    else if input.csi != "" && input.csi != "longhorn" && input.csi != "local-path" then None
    else
      var intent := Intent(input.cni, input.csi, GetOr(input.lb, true), GetOr(input.bgp, false),
                           GetOr(input.hubble, false),
                           !GetOr(input.kubeletMemoryProtection, true));
      if intent.bgp && !intent.lb then None
      else if intent.bgp && intent.cni != "cilium" then None
      else if intent.hubble && intent.cni != "cilium" then None
      else Some(intent)
  }

  function InputOf(intent: Intent): Input
  {
    if intent.cni == "" then NO_INPUT
    else Input(intent.cni, intent.csi, Some(intent.lb), Some(intent.bgp), Some(intent.hubble),
               if intent.disableKubeletMemoryProtection then Some(false) else None)
  }

  /** What a stored intent may look like. */
  predicate Valid(intent: Intent)
  {
    if intent.cni == "" then intent == NO_INTENT
    else
      && intent.cni in {"cilium", "flannel"}
      && intent.csi in {"", "longhorn", "local-path"}
      && (intent.bgp ==> intent.lb)
      && (intent.bgp || intent.hubble ==> intent.cni == "cilium")
  }

  /** Parsing yields exactly the valid intents, and each of them survives being sent as input. */
  lemma IntentRoundTrip(intent: Intent)
    ensures Valid(intent) <==> ParseIntent(InputOf(intent)) == Some(intent)
    ensures Valid(intent) <==> exists input :: ParseIntent(input) == Some(intent)
  {
    if input :| ParseIntent(input) == Some(intent) {
      assert Valid(intent);
    }
  }

  /** A knob that was supplied is taken as it is; one that was not is off, except that load balancing
      and the kubelet's memory protection are on. Without a network plugin no other knob may be set. */
  lemma IntentMeans(input: Input, intent: Intent)
    ensures ParseIntent(input) == Some(intent) <==>
      && intent.cni == input.cni && intent.csi == input.csi && Valid(intent)
      && if input.cni == "" then
           input == Input("", "", None, None, None, None)
         else
           && (if input.lb.Some? then intent.lb == input.lb.value else intent.lb)
           && (if input.bgp.Some? then intent.bgp == input.bgp.value else !intent.bgp)
           && (if input.hubble.Some? then intent.hubble == input.hubble.value else !intent.hubble)
           && (if input.kubeletMemoryProtection.Some?
               then intent.disableKubeletMemoryProtection == !input.kubeletMemoryProtection.value
               else !intent.disableKubeletMemoryProtection)
  {
  }
}
