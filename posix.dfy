/** The POSIX side: `to_timespec` and the `utimensat`/`futimens` requests
    built by `_set_times`, `_set_symlink_times` and `_set_file_times`.
    The system calls themselves are not modelled; each operation yields the
    call it would issue, or the error that stops it before any call. */
module Posix {
  import opened Wrappers
  import opened StdTime
  import opened TimeSpec
  import opened Io
  import opened SetTimesApi

  const I64_MAX: int := 0x7FFF_FFFF_FFFF_FFFF

  /** The platform's `UTIME_OMIT` and `UTIME_NOW`: the `tv_nsec` values that
      tell futimens() and utimensat() (POSIX.1-2008) to leave a timestamp
      alone or to set it to the current time. */
  datatype Sentinels = Sentinels(omit: int, now: int)

  predicate OutsideNanos(x: int) {
    x < 0 || x >= NANOS_PER_SEC
  }

  /** Neither sentinel is a possible sub-second nanosecond count, as on Linux
      (2^30 - 2 and 2^30 - 1) and on the BSDs (negative values). */
  predicate SentinelsOutsideNanos(s: Sentinels) {
    OutsideNanos(s.omit) && OutsideNanos(s.now)
  }

  /** A `struct timespec`. */
  datatype Timespec = Timespec(tvSec: int, tvNsec: int)

  /** rustix's `Timestamps`, the two-element array handed to the kernel. */
  datatype Timestamps = Timestamps(lastAccess: Timespec, lastModification: Timespec)

  datatype AtFlags = Empty | SymlinkNoFollow

  type Fd = int

  /** A system call, recorded with its arguments; `utimensat` always resolves
      the path against the current working directory. */
  datatype Syscall =
    | Utimensat(path: Path, times: Timestamps, flags: AtFlags)
    | Futimens(fd: Fd, times: Timestamps)

  /** An absolute instant is not before the Unix epoch (`to_timespec` panics
      on one that is). */
  predicate NotBeforeUnixEpoch(ft: Option<SystemTimeSpec>) {
    ft.Some? && ft.value.Absolute? ==> ft.value.time.unixNanos >= 0
  }

  /** The whole seconds of an absolute instant fit a signed 64-bit field. */
  predicate Representable(ft: Option<SystemTimeSpec>) {
    ft.Some? && ft.value.Absolute? ==> ft.value.time.unixNanos / NANOS_PER_SEC <= I64_MAX
  }

  /** What a `timespec` asks of futimens()/utimensat(): the omit sentinel
      leaves the timestamp alone, the now sentinel sets the current time, and
      any other value names the instant `tv_sec` seconds plus `tv_nsec`
      nanoseconds (`tv_nsec` in [0, 10^9)) after the Unix epoch. */
  predicate Encodes(ts: Timespec, ft: Option<SystemTimeSpec>, s: Sentinels) {
    match ft
    case None => ts.tvNsec == s.omit
    case Some(SymbolicNow) => ts.tvNsec == s.now
    case Some(Absolute(t)) =>
      0 <= ts.tvNsec < NANOS_PER_SEC && ts.tvSec * NANOS_PER_SEC + ts.tvNsec == t.unixNanos
  }

  /** `to_timespec`: encode one optional timestamp for the kernel. */
  function ToTimespec(ft: Option<SystemTimeSpec>, s: Sentinels): (r: Result<Timespec, IoError>)
    requires SentinelsOutsideNanos(s)
    requires NotBeforeUnixEpoch(ft)
    ensures r.Ok? <==> Representable(ft)
    ensures r.Err? ==> r.error == Other
    ensures r.Ok? ==> Encodes(r.value, ft, s)
    ensures r.Ok? && (ft.None? || ft.value.SymbolicNow?) ==> r.value.tvSec == 0
    ensures r.Ok? && ft.Some? && ft.value.Absolute? ==> r.value.tvNsec != s.omit && r.value.tvNsec != s.now
  {
    match ft
    case None => Ok(Timespec(0, s.omit))
    case Some(SymbolicNow) => Ok(Timespec(0, s.now))
    case Some(Absolute(t)) =>
      var duration := DurationSince(t, UNIX_EPOCH).value;
      var nanoseconds := duration.subsecNanos;
      // the two `assert_ne!`s: never reached under the sentinel assumption
      assert nanoseconds != s.omit;
      assert nanoseconds != s.now;
      if duration.secs > I64_MAX then Err(Other)
      else Ok(Timespec(duration.secs, nanoseconds))
  }

  /** With distinct sentinels outside [0, 10^9), a `timespec` encodes at most
      one request: the kernel cannot mistake an instant for "omit" or "now". */
  lemma EncodingUnambiguous(ts: Timespec, ft1: Option<SystemTimeSpec>, ft2: Option<SystemTimeSpec>, s: Sentinels)
    requires SentinelsOutsideNanos(s) && s.omit != s.now
    requires Encodes(ts, ft1, s) && Encodes(ts, ft2, s)
    ensures ft1 == ft2
  {
    if ft1.Some? && ft1.value.Absolute? && ft2.Some? && ft2.value.Absolute? {
      assert ft1.value.time.unixNanos == ft2.value.time.unixNanos;
    }
  }

  /** `to_timespec` is characterised by what its result means: it succeeds
      with `ts` exactly when the field is representable, `ts` encodes it, and
      `tv_sec` is 0 for the two sentinels. */
  lemma ToTimespecIsTheEncoding(ft: Option<SystemTimeSpec>, ts: Timespec, s: Sentinels)
    requires SentinelsOutsideNanos(s)
    requires NotBeforeUnixEpoch(ft)
    ensures ToTimespec(ft, s) == Ok(ts)
            <==> Representable(ft) && Encodes(ts, ft, s) && (ft.None? || ft.value.SymbolicNow? ==> ts.tvSec == 0)
  {
  }

  /** Nothing in the kernel's range is out of reach: every `timespec` with
      `tv_sec` in [0, i64::MAX] and `tv_nsec` in [0, 10^9) is what
      `to_timespec` gives for some absolute instant. */
  lemma EveryTimespecIsReachable(ts: Timespec, s: Sentinels)
    requires SentinelsOutsideNanos(s)
    requires 0 <= ts.tvSec <= I64_MAX && 0 <= ts.tvNsec < NANOS_PER_SEC
    ensures exists t: SystemTime :: t.unixNanos >= 0 && ToTimespec(Some(Absolute(t)), s) == Ok(ts)
  {
    var t := SystemTime(ts.tvSec * NANOS_PER_SEC + ts.tvNsec);
    ToTimespecIsTheEncoding(Some(Absolute(t)), ts, s);
  }

  /** `Timestamps { last_access: to_timespec(atime)?, last_modification: to_timespec(mtime)? }` */
  function ToTimestamps(atime: Option<SystemTimeSpec>, mtime: Option<SystemTimeSpec>, s: Sentinels): Result<Timestamps, IoError>
    requires SentinelsOutsideNanos(s)
    requires NotBeforeUnixEpoch(atime) && NotBeforeUnixEpoch(mtime)
  {
    var lastAccess :- ToTimespec(atime, s);
    var lastModification :- ToTimespec(mtime, s);
    Ok(Timestamps(lastAccess, lastModification))
  }

  function FlagsFor(follow: Follow): AtFlags {
    match follow
    case FollowSymlinks => Empty
    case NoFollow => SymlinkNoFollow
  }

  /** `_set_times` / `_set_symlink_times`: the `utimensat` call on the path,
      with `AT_SYMLINK_NOFOLLOW` exactly for the no-follow variant; a field
      that cannot be encoded stops the operation before any call. */
  function PathCall(req: PathRequest, s: Sentinels): (r: Result<Syscall, IoError>)
    requires SentinelsOutsideNanos(s)
    requires NotBeforeUnixEpoch(req.atime) && NotBeforeUnixEpoch(req.mtime)
    ensures r.Ok? <==> Representable(req.atime) && Representable(req.mtime)
    ensures r.Err? ==> r.error == Other
    ensures r.Ok? ==> r.value.Utimensat? && r.value.path == req.path
    ensures r.Ok? ==> (r.value.flags == SymlinkNoFollow <==> req.follow == NoFollow)
    ensures r.Ok? ==> Encodes(r.value.times.lastAccess, req.atime, s)
    ensures r.Ok? ==> Encodes(r.value.times.lastModification, req.mtime, s)
  {
    var times :- ToTimestamps(req.atime, req.mtime, s);
    Ok(Utimensat(req.path, times, FlagsFor(req.follow)))
  }

  /** `_set_file_times`: the `futimens` call on an open descriptor. */
  function FileCall(fd: Fd, atime: Option<SystemTimeSpec>, mtime: Option<SystemTimeSpec>, s: Sentinels): (r: Result<Syscall, IoError>)
    requires SentinelsOutsideNanos(s)
    requires NotBeforeUnixEpoch(atime) && NotBeforeUnixEpoch(mtime)
    ensures r.Ok? <==> Representable(atime) && Representable(mtime)
    ensures r.Err? ==> r.error == Other
    ensures r.Ok? ==> r.value == Futimens(fd, r.value.times)
    ensures r.Ok? ==> Encodes(r.value.times.lastAccess, atime, s)
    ensures r.Ok? ==> Encodes(r.value.times.lastModification, mtime, s)
  {
    var times :- ToTimestamps(atime, mtime, s);
    Ok(Futimens(fd, times))
  }

  /** `set_times` and `set_symlink_times` build the same timestamps and fail
      alike; they differ only in the flag passed to `utimensat`. */
  lemma SymlinkVariantDiffersOnlyInFlag(path: Path, atime: Option<SystemTimeSpec>, mtime: Option<SystemTimeSpec>, s: Sentinels)
    requires SentinelsOutsideNanos(s)
    requires NotBeforeUnixEpoch(atime) && NotBeforeUnixEpoch(mtime)
    ensures var follow := PathCall(SetTimes(path, atime, mtime), s);
            var noFollow := PathCall(SetSymlinkTimes(path, atime, mtime), s);
            && (follow.Err? ==> follow == noFollow)
            && (follow.Ok? ==>
                  && follow.value.flags == Empty
                  && noFollow == Ok(Utimensat(path, follow.value.times, SymlinkNoFollow)))
  {
  }

  /** `set_atime` leaves the modification time alone and `set_mtime` the
      access time: the other field is always the omit sentinel. */
  lemma SingleFieldSettersOmitTheOther(path: Path, t: SystemTimeSpec, s: Sentinels)
    requires SentinelsOutsideNanos(s)
    requires NotBeforeUnixEpoch(Some(t))
    ensures var a := PathCall(SetAtime(path, t), s);
            a.Ok? ==> a.value.times.lastModification == Timespec(0, s.omit)
                      && Encodes(a.value.times.lastAccess, Some(t), s)
    ensures var m := PathCall(SetMtime(path, t), s);
            m.Ok? ==> m.value.times.lastAccess == Timespec(0, s.omit)
                      && Encodes(m.value.times.lastModification, Some(t), s)
  {
  }

  /** The handle operation asks the kernel for exactly the timestamps that the
      path operation asks for. */
  lemma HandleAndPathAgree(fd: Fd, req: PathRequest, s: Sentinels)
    requires SentinelsOutsideNanos(s)
    requires NotBeforeUnixEpoch(req.atime) && NotBeforeUnixEpoch(req.mtime)
    ensures var byFd := FileCall(fd, req.atime, req.mtime, s);
            var byPath := PathCall(req, s);
            byFd.Ok? == byPath.Ok? && (byFd.Ok? ==> byFd.value.times == byPath.value.times)
  {
  }
}
