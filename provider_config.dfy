/** The artifact provider's settings (`provider::config`): the defaults,
    the listening address, and the architecture names that mean the same
    machine. */
module ProviderConfig {
  import opened Wrappers
  import opened Numbers

  const DEFAULT_BIND_ADDR := "0.0.0.0"
  const DEFAULT_PORT := 8080
  const DEFAULT_CHANNEL := "stable"

  datatype Config = Config(
    enabled: bool,
    bindAddr: string,
    port: u16,
    artifactsDir: string,
    channel: string,
    arch: string)

  /** `Default`, with the platform's artifact directory and the build's
      architecture as parameters. */
  function Default(platformArtifactsDir: string, buildArch: string): (c: Config)
    ensures !c.enabled && c.bindAddr == "0.0.0.0" && c.port == 8080 && c.channel == "stable"
    ensures c.artifactsDir == platformArtifactsDir && c.arch == buildArch
  {
    Config(false, DEFAULT_BIND_ADDR, DEFAULT_PORT, platformArtifactsDir, DEFAULT_CHANNEL, buildArch)
  }

  /** `bind_address`: `{bind_addr}:{port}`. */
  function BindAddress(c: Config): (addr: string)
    ensures |addr| > |c.bindAddr| && addr[..|c.bindAddr|] == c.bindAddr && addr[|c.bindAddr|] == ':'
    ensures addr[|c.bindAddr| + 1..] == NatToDecimal(c.port)
  {
    c.bindAddr + ":" + NatToDecimal(c.port)
  }

  /** The address names the host and the port: the text after the last
      `:` is the port's decimal. */
  lemma BindAddressParts(c: Config)
    ensures BindAddress(c)[..|c.bindAddr|] == c.bindAddr
    ensures BindAddress(c)[|c.bindAddr|] == ':'
    ensures BindAddress(c)[|c.bindAddr| + 1..] == NatToDecimal(c.port)
    ensures ParseU64(BindAddress(c)[|c.bindAddr| + 1..]) == Some(c.port as nat)
  {
    ParseU64OfDecimal(c.port);
  }

  /** The address the source's test expects. */
  lemma BindAddressExample(c: Config)
    requires c.bindAddr == "127.0.0.1" && c.port == 9090
    ensures BindAddress(c) == "127.0.0.1:9090"
  {
    assert NatToDecimal(9090) == "9090" by {
      assert NatToDecimal(9) == "9";
      assert NatToDecimal(90) == "90";
      assert NatToDecimal(909) == "909";
    }
  }

  /** `normalize_arch`: the Linux names for the two machines that have two
      names; every other name unchanged. */
  function NormalizeArch(arch: string): (n: string)
    ensures arch != "arm64" && arch != "amd64" ==> n == arch
    ensures n != "arm64" && n != "amd64"
  {
    if arch == "arm64" then "aarch64"
    else if arch == "amd64" then "x86_64"
    else arch
  }

  lemma NormalizeArchIdempotent(arch: string)
    ensures NormalizeArch(NormalizeArch(arch)) == NormalizeArch(arch)
  {
  }

  /** `arch_aliases`: the name itself first, then its other name if it
      has one. */
  function ArchAliases(arch: string): (names: seq<string>)
    ensures |names| >= 1 && names[0] == arch
    ensures |names| <= 2
  {
    if arch == "aarch64" then ["aarch64", "arm64"]
    else if arch == "arm64" then ["arm64", "aarch64"]
    else if arch == "x86_64" then ["x86_64", "amd64"]
    else if arch == "amd64" then ["amd64", "x86_64"]
    else [arch]
  }

  /** Every alias names the same machine: it normalizes as the name does;
      and a name without a partner has no other alias. */
  lemma {:induction false} AliasesNormalizeAlike(arch: string)
    ensures forall k :: 0 <= k < |ArchAliases(arch)| ==> NormalizeArch(ArchAliases(arch)[k]) == NormalizeArch(arch)
    ensures arch !in {"aarch64", "arm64", "x86_64", "amd64"} ==> ArchAliases(arch) == [arch]
  {
    var names := ArchAliases(arch);
    if arch == "aarch64" || arch == "arm64" {
      assert NormalizeArch("aarch64") == "aarch64" && NormalizeArch("arm64") == "aarch64";
    } else if arch == "x86_64" || arch == "amd64" {
      assert NormalizeArch("x86_64") == "x86_64" && NormalizeArch("amd64") == "x86_64";
    }
  }
}
