/** A node's answer to a job offer (`network::discovery`,
    `handle_job_offer`): the offer's requirements are matched against the
    node's capabilities, and the first mismatch is the reason given. */
module Discovery {
  import opened Numbers
  import opened Strings
  import opened Protocol

  /** What a node offers (`PeerCapabilities`). */
  datatype PeerCapabilities = PeerCapabilities(arch: string, cpuCores: u32, memoryMb: u64, wasmRuntime: string)

  /** The runtime name a requirement asks for: its text before the first
      `-`, so that a versioned name such as `wasmtime-14` asks for any
      `wasmtime`. */
  function RuntimePrefix(runtime: string): (name: string)
    ensures '-' !in name
    ensures StartsWith(runtime, name)
  {
    var parts := Split(runtime, '-');
    if '-' in runtime then parts[0] else runtime
  }

  /** The runtime check passes when the node's runtime text contains the
      requested name. */
  predicate RuntimeSupported(available: string, required: string) {
    ContainsStr(available, RuntimePrefix(required))
  }

  /** The four checks, as one predicate. */
  predicate CanRun(caps: PeerCapabilities, q: JobRequirements) {
    && q.arch == caps.arch
    && RuntimeSupported(caps.wasmRuntime, q.wasmRuntime)
    && q.cpuCores <= caps.cpuCores
    && q.memoryMb <= caps.memoryMb
  }

  function CpuShortfall(need: u32, have: u32): string {
    "CPU: need " + NatToDecimal(need) + ", have " + NatToDecimal(have)
  }

  function MemoryShortfall(need: u64, have: u64): string {
    "Memory: need " + NatToDecimal(need) + " MB, have " + NatToDecimal(have) + " MB"
  }

  /** A running node: its capabilities and its peer id. */
  datatype Node = Node(capabilities: PeerCapabilities, localPeerId: string)
  {
    /** `handle_job_offer`, with the clock's seconds as `now`. The checks
        run in the order architecture, runtime, CPU, memory. */
    function HandleJobOffer(offer: JobOffer, now: u64): (r: JobResponse)
      ensures r.jobId == offer.jobId
      ensures offer.requirements.arch != capabilities.arch ==>
                r.Rejected? && r.reason == ArchMismatch(offer.requirements.arch, capabilities.arch)
      ensures && offer.requirements.arch == capabilities.arch
              && !RuntimeSupported(capabilities.wasmRuntime, offer.requirements.wasmRuntime) ==>
                r.Rejected? && r.reason == RuntimeNotSupported(offer.requirements.wasmRuntime)
      ensures && offer.requirements.arch == capabilities.arch
              && RuntimeSupported(capabilities.wasmRuntime, offer.requirements.wasmRuntime)
              && offer.requirements.cpuCores > capabilities.cpuCores ==>
                r.Rejected? &&
                r.reason == InsufficientResources(CpuShortfall(offer.requirements.cpuCores, capabilities.cpuCores))
      ensures && offer.requirements.arch == capabilities.arch
              && RuntimeSupported(capabilities.wasmRuntime, offer.requirements.wasmRuntime)
              && offer.requirements.cpuCores <= capabilities.cpuCores
              && offer.requirements.memoryMb > capabilities.memoryMb ==>
                r.Rejected? &&
                r.reason == InsufficientResources(MemoryShortfall(offer.requirements.memoryMb, capabilities.memoryMb))
      ensures r.Accepted? ==> r == Accepted(offer.jobId, now, localPeerId)
    {
      var q := offer.requirements;
      if q.arch != capabilities.arch then
        Rejected(offer.jobId, ArchMismatch(q.arch, capabilities.arch))
      else if !RuntimeSupported(capabilities.wasmRuntime, q.wasmRuntime) then
        Rejected(offer.jobId, RuntimeNotSupported(q.wasmRuntime))
      else if q.cpuCores > capabilities.cpuCores then
        Rejected(offer.jobId, InsufficientResources(CpuShortfall(q.cpuCores, capabilities.cpuCores)))
      else if q.memoryMb > capabilities.memoryMb then
        Rejected(offer.jobId, InsufficientResources(MemoryShortfall(q.memoryMb, capabilities.memoryMb)))
      else
        Accepted(offer.jobId, now, localPeerId)
    }
  }

  /** An offer is accepted exactly when all four checks pass. */
  lemma AcceptedIffCanRun(node: Node, offer: JobOffer, now: u64)
    ensures node.HandleJobOffer(offer, now).Accepted? <==> CanRun(node.capabilities, offer.requirements)
  {
  }

  /** A node with the same architecture and runtime and at least as many
      cores and as much memory accepts every offer the first one accepts. */
  lemma AcceptanceMonotone(node: Node, offer: JobOffer, now: u64, bigger: PeerCapabilities)
    requires node.HandleJobOffer(offer, now).Accepted?
    requires bigger.arch == node.capabilities.arch && bigger.wasmRuntime == node.capabilities.wasmRuntime
    requires bigger.cpuCores >= node.capabilities.cpuCores && bigger.memoryMb >= node.capabilities.memoryMb
    ensures Node(bigger, node.localPeerId).HandleJobOffer(offer, now).Accepted?
  {
    AcceptedIffCanRun(node, offer, now);
    AcceptedIffCanRun(Node(bigger, node.localPeerId), offer, now);
  }

  /** A requirement with nothing before its first `-` (the empty string,
      say) passes the runtime check on every node. */
  lemma EmptyRuntimePrefixPasses(available: string, required: string)
    requires required == "" || required[0] == '-'
    ensures RuntimeSupported(available, required)
  {
    assert RuntimePrefix(required) == "";
    assert OccursAt(available, "", 0);
  }

  /** A versioned requirement asks for its name only. */
  lemma {:induction false} RuntimePrefixOfVersioned(name: string, version: string)
    requires '-' !in name
    ensures RuntimePrefix(name + "-" + version) == name
  {
    var s := name + "-" + version;
    assert s[|name|] == '-';
    assert '-' in s;
    assert s[..|name|] == name;
    assert IndexOf(s, '-') == |name|;
  }

  /** A node running `wasmtime` accepts a `wasmtime-14` requirement. */
  lemma VersionedRuntimeSupported(available: string, name: string, version: string)
    requires '-' !in name
    requires ContainsStr(available, name)
    ensures RuntimeSupported(available, name + "-" + version)
  {
    RuntimePrefixOfVersioned(name, version);
  }
}
