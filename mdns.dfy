/** The DNS-SD advertisement of a boot provider on the local network
    (`provider::mdns`): its configuration and the TXT records clients filter
    on. The `hostname` command's output is a parameter, and so is the
    crate's version. */
module Mdns {
  import opened Wrappers
  import opened Numbers
  import opened Strings

  const MDNS_SERVICE_TYPE := "_phase-image._tcp.local."
  const TXT_CHANNEL := "channel"
  const TXT_ARCH := "arch"
  const TXT_VERSION := "version"
  const TXT_HTTP_PORT := "http_port"
  const SERVICE_PREFIX := "plasmd-"
  const UNKNOWN_HOST := "unknown"

  datatype MdnsConfig = MdnsConfig(serviceName: string, httpPort: u16, channel: string, arch: string,
                                   version: string)

  /** `hostname`: the trimmed output of the `hostname` command when it ran
      and printed UTF-8 (`Some`), otherwise "unknown". */
  function Hostname(output: Option<string>): (name: string)
    ensures output.None? ==> name == UNKNOWN_HOST
    ensures output.Some? ==> name == RustTrim(output.value)
  {
    match output
    case Some(text) => RustTrim(text)
    case None => UNKNOWN_HOST
  }

  /** `MdnsConfig::new`: port, channel and architecture verbatim, the
      crate's version, and a service name made from the host name. */
  function New(httpPort: u16, channel: string, arch: string, hostnameOutput: Option<string>, crateVersion: string)
    : (c: MdnsConfig)
    ensures c.httpPort == httpPort && c.channel == channel && c.arch == arch && c.version == crateVersion
    ensures c.serviceName == SERVICE_PREFIX + Hostname(hostnameOutput)
  {
    MdnsConfig(SERVICE_PREFIX + Hostname(hostnameOutput), httpPort, channel, arch, crateVersion)
  }

  /** The service name is never empty and always names the host after the
      prefix, even when the host name could not be read. */
  lemma ServiceNameNamesHost(httpPort: u16, channel: string, arch: string, hostnameOutput: Option<string>,
                             crateVersion: string)
    ensures var c := New(httpPort, channel, arch, hostnameOutput, crateVersion);
            && |c.serviceName| > 0
            && StartsWith(c.serviceName, SERVICE_PREFIX)
            && c.serviceName[|SERVICE_PREFIX|..] == Hostname(hostnameOutput)
  {
    var c := New(httpPort, channel, arch, hostnameOutput, crateVersion);
    assert c.serviceName[..|SERVICE_PREFIX|] == SERVICE_PREFIX;
  }

  /** `txt_records`: a fresh map filled by four inserts. The four keys are
      distinct, so no insert overwrites another. */
  method TxtRecords(c: MdnsConfig) returns (records: map<string, string>)
    ensures records.Keys == {TXT_CHANNEL, TXT_ARCH, TXT_VERSION, TXT_HTTP_PORT}
    ensures records[TXT_CHANNEL] == c.channel && records[TXT_ARCH] == c.arch
    ensures records[TXT_VERSION] == c.version
    ensures records[TXT_HTTP_PORT] == NatToDecimal(c.httpPort)
    ensures AllDigits(records[TXT_HTTP_PORT]) && DecimalValue(records[TXT_HTTP_PORT]) == c.httpPort
  {
    records := map[];
    records := records[TXT_CHANNEL := c.channel];
    records := records[TXT_ARCH := c.arch];
    records := records[TXT_VERSION := c.version];
    records := records[TXT_HTTP_PORT := NatToDecimal(c.httpPort)];
    DecimalValueOfNatToDecimal(c.httpPort);
  }

  /** The source's example: a provider for `testing`/`arm64` on port 8080. */
  method TxtRecordsExample(hostnameOutput: Option<string>, crateVersion: string) returns (records: map<string, string>)
    ensures records == map[TXT_CHANNEL := "testing", TXT_ARCH := "arm64", TXT_VERSION := crateVersion,
                           TXT_HTTP_PORT := "8080"]
  {
    records := TxtRecords(New(8080, "testing", "arm64", hostnameOutput, crateVersion));
    assert NatToDecimal(8080) == "8080" by {
      assert NatToDecimal(80) == "80";
      assert NatToDecimal(808) == "808";
    }
  }
}
