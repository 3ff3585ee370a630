/** The Windows encoding `to_filetime`: an instant as a count of 100-ns
    intervals since 1601-01-01, split into the two 32-bit halves of a
    `FILETIME`. */
module WinFileTime {
  import opened Wrappers
  import opened StdTime
  import opened Io

  /** Seconds from 1601-01-01 to the Unix epoch. */
  const UNIX_EPOCH_OFFSET_SECS: nat := 11_644_473_600
  const NANOS_PER_INTERVAL: nat := 100
  /** `1_000_000_000 / 100` */
  const INTERVALS_PER_SEC: nat := 10_000_000
  const U32_LIMIT: nat := 0x1_0000_0000
  const U64_MAX: nat := 0xFFFF_FFFF_FFFF_FFFF
  /** The Win32 code `ERROR_NOT_SUPPORTED`. */
  const ERROR_NOT_SUPPORTED: int := 50

  /** `UNIX_EPOCH - Duration::from_secs(11644473600)`: 1601-01-01T00:00:00Z. */
  const WINDOWS_EPOCH: SystemTime := SystemTime(-(UNIX_EPOCH_OFFSET_SECS * NANOS_PER_SEC))

  /** A `FILETIME`: `dwLowDateTime` and `dwHighDateTime`. */
  datatype FileTime = FileTime(lowDateTime: int, highDateTime: int)

  function NanosSinceWindowsEpoch(t: SystemTime): int {
    t.unixNanos - WINDOWS_EPOCH.unixNanos
  }

  /** The 64-bit value a `FILETIME` stands for. */
  function FileTimeValue(f: FileTime): int {
    f.highDateTime * U32_LIMIT + f.lowDateTime
  }

  /** Both halves are 32-bit values. */
  predicate WellFormed(f: FileTime) {
    0 <= f.lowDateTime < U32_LIMIT && 0 <= f.highDateTime < U32_LIMIT
  }

  /** The interval count of `t` fits a `u64`, so the `u64` arithmetic of
      `to_filetime` cannot overflow. */
  predicate InFileTimeRange(t: SystemTime) {
    NanosSinceWindowsEpoch(t) / NANOS_PER_INTERVAL <= U64_MAX
  }

  /** The truncating cast `x as u32`. */
  function U32(x: int): int {
    x % U32_LIMIT
  }

  /** Whole seconds times 10^7 plus the sub-second hundreds of nanoseconds is
      the number of whole 100-ns intervals in the duration. */
  lemma IntervalsOfDuration(d: Duration)
    requires d.subsecNanos < NANOS_PER_SEC
    ensures d.secs * INTERVALS_PER_SEC + d.subsecNanos / NANOS_PER_INTERVAL
            == (d.secs * NANOS_PER_SEC + d.subsecNanos) / NANOS_PER_INTERVAL
  {
    var n := d.secs * NANOS_PER_SEC + d.subsecNanos;
    var q := d.subsecNanos / NANOS_PER_INTERVAL;
    assert d.subsecNanos == q * NANOS_PER_INTERVAL + d.subsecNanos % NANOS_PER_INTERVAL;
    assert n == (d.secs * INTERVALS_PER_SEC + q) * NANOS_PER_INTERVAL + d.subsecNanos % NANOS_PER_INTERVAL;
  }

  /** Splitting a 64-bit value into its low and high words loses nothing. */
  lemma SplitWords(x: int)
    requires 0 <= x <= U64_MAX
    ensures WellFormed(FileTime(U32(x), U32(x / U32_LIMIT)))
    ensures FileTimeValue(FileTime(U32(x), U32(x / U32_LIMIT))) == x
  {
    assert x / U32_LIMIT < U32_LIMIT;
    assert U32(x / U32_LIMIT) == x / U32_LIMIT;
  }

  /** `to_filetime`: instants before 1601 are an error of kind Other; a zero
      interval count (the first 100 ns after 1601), which Windows would
      silently ignore, is `ERROR_NOT_SUPPORTED`; any other instant becomes
      its interval count split into 32-bit halves. */
  function ToFiletime(ft: SystemTime): (r: Result<FileTime, IoError>)
    requires InFileTimeRange(ft)
    ensures r == Err(Other) <==> NanosSinceWindowsEpoch(ft) < 0
    ensures r == Err(Os(ERROR_NOT_SUPPORTED)) <==> 0 <= NanosSinceWindowsEpoch(ft) < NANOS_PER_INTERVAL
    ensures r.Ok? <==> NanosSinceWindowsEpoch(ft) >= NANOS_PER_INTERVAL
    ensures r.Ok? ==> WellFormed(r.value)
    ensures r.Ok? ==> FileTimeValue(r.value) == NanosSinceWindowsEpoch(ft) / NANOS_PER_INTERVAL
  {
    match DurationSince(ft, WINDOWS_EPOCH)
    case None => Err(Other)
    case Some(d) =>
      var intervals := d.secs * INTERVALS_PER_SEC + d.subsecNanos / NANOS_PER_INTERVAL;
      IntervalsOfDuration(d);
      if intervals == 0 then Err(Os(ERROR_NOT_SUPPORTED))
      else
        SplitWords(intervals);
        Ok(FileTime(U32(intervals), U32(intervals / U32_LIMIT)))
  }

  /** `to_filetime` is characterised by what its result means: it succeeds
      with `f` exactly when at least one whole interval has passed since
      1601 and `f` is the well-formed `FILETIME` holding the interval count. */
  lemma ToFiletimeIsTheEncoding(t: SystemTime, f: FileTime)
    requires InFileTimeRange(t)
    ensures ToFiletime(t) == Ok(f)
            <==> NanosSinceWindowsEpoch(t) >= NANOS_PER_INTERVAL && WellFormed(f)
                 && FileTimeValue(f) == NanosSinceWindowsEpoch(t) / NANOS_PER_INTERVAL
  {
  }

  /** A `FILETIME` that `to_filetime` produced is never all zero. */
  lemma FiletimeNeverZero(t: SystemTime)
    requires InFileTimeRange(t)
    requires ToFiletime(t).Ok?
    ensures ToFiletime(t).value != FileTime(0, 0)
  {
  }

  /** The instant Windows reads from a `FILETIME`. */
  function FromFiletime(f: FileTime): SystemTime {
    SystemTime(WINDOWS_EPOCH.unixNanos + FileTimeValue(f) * NANOS_PER_INTERVAL)
  }

  /** Encoding keeps the instant up to the 100-ns resolution of `FILETIME`:
      what Windows reads back is at most 99 ns earlier. */
  lemma FiletimeTruncatesTo100ns(t: SystemTime)
    requires InFileTimeRange(t)
    requires ToFiletime(t).Ok?
    ensures var back := FromFiletime(ToFiletime(t).value);
            back.unixNanos <= t.unixNanos < back.unixNanos + NANOS_PER_INTERVAL
  {
    var n := NanosSinceWindowsEpoch(t);
    assert FileTimeValue(ToFiletime(t).value) == n / NANOS_PER_INTERVAL;
    assert n == n / NANOS_PER_INTERVAL * NANOS_PER_INTERVAL + n % NANOS_PER_INTERVAL;
  }

  /** Every non-zero, well-formed `FILETIME` is exactly what `to_filetime`
      gives for the instant it stands for. */
  lemma FiletimeRoundTrip(f: FileTime)
    requires WellFormed(f) && FileTimeValue(f) != 0
    ensures InFileTimeRange(FromFiletime(f))
    ensures ToFiletime(FromFiletime(f)) == Ok(f)
  {
    var v := FileTimeValue(f);
    var t := FromFiletime(f);
    assert NanosSinceWindowsEpoch(t) == v * NANOS_PER_INTERVAL;
    assert NanosSinceWindowsEpoch(t) / NANOS_PER_INTERVAL == v;
    assert v <= U64_MAX;
    var g := ToFiletime(t).value;
    assert FileTimeValue(g) == v;
    WordsUnique(f, g);
  }

  /** Two well-formed `FILETIME`s with the same value are the same. */
  lemma WordsUnique(f: FileTime, g: FileTime)
    requires WellFormed(f) && WellFormed(g)
    requires FileTimeValue(f) == FileTimeValue(g)
    ensures f == g
  {
    var v := FileTimeValue(f);
    assert f.highDateTime == v / U32_LIMIT && f.lowDateTime == v % U32_LIMIT;
    assert g.highDateTime == v / U32_LIMIT && g.lowDateTime == v % U32_LIMIT;
  }
}
