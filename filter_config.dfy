/**
 * ClientCertificateRestrictionConfig: the per-listener settings every
 * connection's filter reads, built once from the filter's protobuf config.
 */
module FilterConfig {
  import opened Wrappers

  /** A protobuf Duration: whole seconds and nanoseconds (both of the same sign in a valid one). */
  datatype Duration = Duration(seconds: int, nanos: int)

  /** The protobuf config as received; `requestTimeout` is None when the field is unset. */
  datatype ConfigProto = ConfigProto(
    target: string,
    authorizeHostname: string,
    authorizeClusterName: string,
    requestTimeout: Option<Duration>)

  datatype Config = Config(
    target: string,
    authorizeHostname: string,
    authorizeClusterName: string,
    requestTimeoutMs: int)

  const DefaultRequestTimeoutMs := 1000

  /** C++ integer division of `a` by a positive `b`: the quotient truncated toward zero. */
  function TruncatingDiv(a: int, b: nat): int
    requires b > 0
  {
    if a >= 0 then a / b else -((-a) / b)
  }

  /** The duration in whole milliseconds, the sub-millisecond part dropped toward zero. */
  function DurationToMilliseconds(d: Duration): int
  {
    d.seconds * 1000 + TruncatingDiv(d.nanos, 1_000_000)
  }

  /**
   * The config constructor: the three strings are copied unchanged and the
   * timeout is the configured duration in milliseconds, or 1000 ms when the
   * field is unset (an explicit zero stays zero).
   */
  function MakeConfig(proto: ConfigProto): (c: Config)
    ensures c.target == proto.target
    ensures c.authorizeHostname == proto.authorizeHostname
    ensures c.authorizeClusterName == proto.authorizeClusterName
    ensures proto.requestTimeout.None? ==> c.requestTimeoutMs == DefaultRequestTimeoutMs
    ensures proto.requestTimeout.Some? ==> c.requestTimeoutMs == DurationToMilliseconds(proto.requestTimeout.value)
  {
    Config(
      proto.target,
      proto.authorizeHostname,
      proto.authorizeClusterName,
      match proto.requestTimeout
      case None => DefaultRequestTimeoutMs
      case Some(d) => DurationToMilliseconds(d))
  }

  /**
   * For a nonnegative duration the conversion is the floor of its length in
   * milliseconds: never more than the duration, less by under a millisecond.
   */
  lemma MillisecondsOfNonnegativeDuration(d: Duration)
    requires d.seconds >= 0 && 0 <= d.nanos < 1_000_000_000
    ensures DurationToMilliseconds(d) >= 0
    ensures DurationToMilliseconds(d) * 1_000_000 <= d.seconds * 1_000_000_000 + d.nanos
    ensures d.seconds * 1_000_000_000 + d.nanos < (DurationToMilliseconds(d) + 1) * 1_000_000
  {
    var q := d.nanos / 1_000_000;
    assert q * 1_000_000 <= d.nanos < (q + 1) * 1_000_000;
  }

  /** A negative duration converts to the negation of its magnitude's conversion. */
  lemma MillisecondsOfNegatedDuration(d: Duration)
    ensures DurationToMilliseconds(Duration(-d.seconds, -d.nanos)) == -DurationToMilliseconds(d)
  {
  }

  lemma ConfigExamples()
    ensures MakeConfig(ConfigProto("svc-a", "authz.internal", "authz", None)).requestTimeoutMs == 1000
    ensures MakeConfig(ConfigProto("svc-a", "authz.internal", "authz", Some(Duration(0, 500_000_000)))).requestTimeoutMs == 500
    ensures MakeConfig(ConfigProto("svc-a", "authz.internal", "authz", Some(Duration(0, 0)))).requestTimeoutMs == 0
  {
  }
}
