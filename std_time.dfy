/** The parts of Rust's `std::time` that the timestamp code relies on. */
module StdTime {
  import opened Wrappers

  const NANOS_PER_SEC: nat := 1_000_000_000

  /** A `SystemTime`: an instant with nanosecond precision, counted from the
      Unix epoch (negative before it). */
  datatype SystemTime = SystemTime(unixNanos: int)

  /** A `Duration`: whole seconds and the sub-second nanoseconds. */
  datatype Duration = Duration(secs: nat, subsecNanos: nat)

  /** `SystemTime::UNIX_EPOCH`, 1970-01-01T00:00:00Z. */
  const UNIX_EPOCH: SystemTime := SystemTime(0)

  /** `t.duration_since(earlier)`: the time elapsed from `earlier` to `t`,
      split into seconds and nanoseconds, or an error (here `None`) when
      `earlier` is later than `t`. */
  function DurationSince(t: SystemTime, earlier: SystemTime): (d: Option<Duration>)
    ensures d.Some? <==> earlier.unixNanos <= t.unixNanos
    ensures d.Some? ==> d.value.subsecNanos < NANOS_PER_SEC
    ensures d.Some? ==>
      d.value.secs * NANOS_PER_SEC + d.value.subsecNanos == t.unixNanos - earlier.unixNanos
  {
    if t.unixNanos < earlier.unixNanos then None
    else
      var elapsed := t.unixNanos - earlier.unixNanos;
      Some(Duration(elapsed / NANOS_PER_SEC, elapsed % NANOS_PER_SEC))
  }
}
