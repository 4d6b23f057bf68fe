/** The provider's counters and health rule (`provider::metrics`). The
    counters are atomics updated with relaxed ordering; here they are the
    fields of one object updated by one caller at a time, with `fetch_add`'s
    wrap-around modulo 2^64. */
module Metrics {
  import opened Numbers
  import opened FileSystems

  const HEALTHY := "healthy"
  const UNHEALTHY := "unhealthy"

  datatype MetricsSnapshot = MetricsSnapshot(requestsTotal: u64, bytesServedTotal: u64)

  /** `ProviderMetrics`; the start instant and `uptime_secs` are not
      modelled. */
  class ProviderMetrics {
    var requestsTotal: u64
    var bytesServedTotal: u64

    constructor ()
      ensures requestsTotal == 0 && bytesServedTotal == 0
    {
      requestsTotal := 0;
      bytesServedTotal := 0;
    }

    /** `increment_requests`. */
    method IncrementRequests()
      modifies this
      ensures requestsTotal == WrapU64(old(requestsTotal) + 1)
      ensures bytesServedTotal == old(bytesServedTotal)
    {
      requestsTotal := WrapU64(requestsTotal + 1);
    }

    /** `add_bytes_served`. */
    method AddBytesServed(bytes: u64)
      modifies this
      ensures bytesServedTotal == WrapU64(old(bytesServedTotal) + bytes)
      ensures requestsTotal == old(requestsTotal)
    {
      bytesServedTotal := WrapU64(bytesServedTotal + bytes);
    }

    /** `snapshot`: the current values; nothing changes. */
    method Snapshot() returns (s: MetricsSnapshot)
      ensures s.requestsTotal == requestsTotal && s.bytesServedTotal == bytesServedTotal
    {
      s := MetricsSnapshot(requestsTotal, bytesServedTotal);
    }
  }

  /** Two additions to a wrapping counter add their sum: serving `a` bytes
      and then `b` counts as serving `a + b` at once. */
  lemma AddsCompose(total: u64, a: u64, b: u64)
    ensures WrapU64(WrapU64(total + a) + b) == WrapU64(total + a + b)
  {
    var x := total + a;
    assert WrapU64(x) == x % TWO_64;
    assert x == (x / TWO_64) * TWO_64 + x % TWO_64;
    assert (x % TWO_64 + b) % TWO_64 == (x + b) % TWO_64 by {
      var q := x / TWO_64;
      assert x % TWO_64 + b == (x + b) - q * TWO_64;
    }
  }

  /** The counters of one new metrics object after one request of 1024
      bytes. */
  method FirstRequestCounted() returns (s: MetricsSnapshot)
    ensures s == MetricsSnapshot(1, 1024)
  {
    var metrics := new ProviderMetrics();
    metrics.IncrementRequests();
    metrics.AddBytesServed(1024);
    s := metrics.Snapshot();
  }

  datatype HealthChecks = HealthChecks(artifactsReadable: bool, diskSpaceOk: bool)

  datatype HealthCheck = HealthCheck(status: string, checks: HealthChecks)
  {
    /** `is_healthy`. */
    predicate IsHealthy() {
      checks.artifactsReadable && checks.diskSpaceOk
    }
  }

  /** `check_directory_readable`: the path exists and can be listed. */
  predicate CheckDirectoryReadable(fs: FileSystem, path: Path)
    ensures CheckDirectoryReadable(fs, path) <==> path in fs.dirs
  {
    fs.Exists(path) && path in fs.dirs
  }

  /** `perform_health_check`: free disk space is approximated by the
      directory's existence. */
  function PerformHealthCheck(fs: FileSystem, artifactsDir: Path): (h: HealthCheck)
    ensures h.checks.artifactsReadable <==> artifactsDir in fs.dirs
    ensures h.checks.diskSpaceOk <==> fs.Exists(artifactsDir)
  {
    var artifactsReadable := CheckDirectoryReadable(fs, artifactsDir);
    var diskSpaceOk := fs.Exists(artifactsDir);
    HealthCheck(if artifactsReadable && diskSpaceOk then HEALTHY else UNHEALTHY,
                HealthChecks(artifactsReadable, diskSpaceOk))
  }

  /** The reported status says "healthy" exactly when `is_healthy` holds,
      which is exactly when the artifact directory is a readable directory;
      a plain file in its place is unhealthy. */
  lemma HealthStatusAgrees(fs: FileSystem, artifactsDir: Path)
    ensures var h := PerformHealthCheck(fs, artifactsDir);
            && (h.status == HEALTHY <==> h.IsHealthy())
            && (h.IsHealthy() <==> artifactsDir in fs.dirs)
            && (h.status == HEALTHY || h.status == UNHEALTHY)
  {
    assert HEALTHY != UNHEALTHY by {
      assert HEALTHY[0] != UNHEALTHY[0];
    }
  }
}
