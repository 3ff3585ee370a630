# fs-set-times, modelled in Dafny

fs-set-times sets the last-access and last-modification timestamps of a
filesystem object: a path (following symlinks or not) or an open handle.
Each timestamp is left unchanged (`None`), set to the current time
(`SystemTimeSpec::SymbolicNow`) or set to a fixed instant
(`SystemTimeSpec::Absolute`). This project models how such a request is
translated into what the operating system is handed:

- on POSIX systems, `to_timespec` encodes each field as a `timespec`, with the
  `UTIME_OMIT` / `UTIME_NOW` sentinels of futimens()/utimensat() (POSIX.1-2008,
  System Interfaces), and `_set_times`, `_set_symlink_times` and
  `_set_file_times` build the `utimensat` / `futimens` call (module `Posix`);
- on Windows, `to_filetime` turns an instant into 100-ns intervals since
  1601-01-01 split into a `FILETIME` (module `WinFileTime`), `_set_file_times`
  resolves "now" with a single clock read and calls `SetFileTime`, and
  `_set_times` / `_set_symlink_times` open the path for writing, retrying
  read-only on a permission error (module `WinSetTimes`).

The operating system is abstract. On POSIX each operation yields the system
call it would issue, or the error that stops it before any call. On Windows a
class `WinOs` supplies the clock readings, the outcome of every open and of every
`SetFileTime` as oracles, and records what the code asks of it.

Files: `wrappers.dfy` (Option, Result), `io.dfy` (`io::Error`), `std_time.dfy`
(`SystemTime`, `Duration`, `duration_since`), `system_time_spec.dfy`,
`set_times_api.dfy` (the public path functions, building a `PathRequest`),
`posix.dfy`, `win_filetime.dfy`, `win_set_times.dfy`.

Instants are integers of nanoseconds from the Unix epoch. The private
`_set_times` and `_set_symlink_times`, which the source writes twice per
platform, are one function (POSIX) or one method (Windows) of a request that
carries the symlink policy; the policy chooses `AT_SYMLINK_NOFOLLOW` or
`FILE_FLAG_OPEN_REPARSE_POINT`.

A non-permission failure of the Windows read-only retry is returned as it is
(src/set_times.rs lines 88-91 and 149-152), not replaced by
`ERROR_NOT_SUPPORTED`; `ERROR_NOT_SUPPORTED` is returned only when both opens
are denied permission. The model follows the code.

## Model

| member | source | states |
|---|---|---|
| TimeSpec.From | src/system_time_spec.rs:14-17 | converting a `SystemTime` never gives `SymbolicNow` and carries the instant unchanged |
| TimeSpec.FromInjective | src/system_time_spec.rs:15-16 | distinct instants convert to distinct specifications |
| StdTime.DurationSince | src/set_times.rs:211-212 | `duration_since` fails exactly when the reference is later; otherwise seconds and sub-second nanoseconds (< 10^9) add up to the elapsed nanoseconds |
| SetTimesApi.SetTimes | src/set_times.rs:40-47 | `set_times` asks for the given path and fields with symlinks followed |
| SetTimesApi.SetSymlinkTimes | src/set_times.rs:99-106 | `set_symlink_times` is the same request as `set_times` except that symlinks are not followed |
| SetTimesApi.SetAtime | src/set_times.rs:27-29 | `set_atime(p, t)` is exactly `set_times(p, Some(t), None)`; what that means on each platform is stated by `Posix.SingleFieldSettersOmitTheOther` and `WinSetTimes.SingleFieldSettersPassNull` |
| SetTimesApi.SetMtime | src/set_times.rs:33-35 | `set_mtime(p, t)` is exactly `set_times(p, None, Some(t))`; see the same two lemmas |
| Posix.ToTimespec | src/set_times.rs:200-224 | `None` is `(0, UTIME_OMIT)`, `SymbolicNow` is `(0, UTIME_NOW)`; an absolute instant succeeds exactly when its whole seconds fit an i64, then `tv_nsec` is in [0, 10^9), differs from both sentinels, and `tv_sec * 10^9 + tv_nsec` is the instant's nanoseconds since the epoch; otherwise the error is of kind Other |
| Posix.EncodingUnambiguous | src/set_times.rs:212-214 | with distinct sentinels outside [0, 10^9) a `timespec` encodes at most one of omit / now / an instant, which is what the two `assert_ne!`s guard |
| Posix.ToTimespecIsTheEncoding | src/set_times.rs:200-224 | conversely, `to_timespec` returns exactly the `timespec` that encodes the field (seconds 0 for the sentinels) whenever the field is representable, and nothing else |
| Posix.EveryTimespecIsReachable | src/set_times.rs:215-221 | every `timespec` with `tv_sec` in [0, i64::MAX] and `tv_nsec` in [0, 10^9) is the encoding of some instant not before the epoch |
| Posix.PathCall | src/set_times.rs:50-60 | the path operation issues `utimensat` on the path with both fields encoded, flag `SYMLINK_NOFOLLOW` exactly for the no-follow variant; it fails (kind Other, no call) exactly when a field's seconds do not fit |
| Posix.FileCall | src/set_times.rs:186-196 | the handle operation issues `futimens` on the descriptor with both fields encoded, or fails with kind Other and no call exactly when a field does not fit |
| Posix.SymlinkVariantDiffersOnlyInFlag | src/set_times.rs:110-120 | `set_times` and `set_symlink_times` fail alike, or issue the same path and timestamps with flags empty vs `SYMLINK_NOFOLLOW` |
| Posix.SingleFieldSettersOmitTheOther | src/set_times.rs:27-35 | `set_atime` sends `(0, UTIME_OMIT)` as modification time and `set_mtime` as access time, and the given field is encoded |
| Posix.HandleAndPathAgree | src/set_times.rs:174-196 | the handle operation and the path operation succeed alike and ask for the same timestamps |
| WinFileTime.IntervalsOfDuration | src/set_times.rs:284 | `secs * 10^7 + nanos / 100` is the number of whole 100-ns intervals in the duration |
| WinFileTime.SplitWords | src/set_times.rs:291-294 | the low word and the shifted high word of a u64 are both < 2^32 and `high * 2^32 + low` gives the value back |
| WinFileTime.ToFiletime | src/set_times.rs:273-295 | before 1601-01-01 the error is kind Other; within the first 100 ns after it, `ERROR_NOT_SUPPORTED`; otherwise both halves are < 2^32 and `high * 2^32 + low` is the count of 100-ns intervals since 1601 |
| WinFileTime.ToFiletimeIsTheEncoding | src/set_times.rs:279-294 | conversely, `to_filetime` succeeds with `f` exactly when at least 100 ns have passed since 1601 and `f` is the well-formed `FILETIME` holding the interval count |
| WinFileTime.FiletimeNeverZero | src/set_times.rs:286-289 | a successful `FILETIME` is never all zero |
| WinFileTime.FiletimeTruncatesTo100ns | src/set_times.rs:279-284 | the instant Windows reads back from the result is at most 99 ns earlier than the input |
| WinFileTime.FiletimeRoundTrip | src/set_times.rs:279-294 | every non-zero well-formed `FILETIME` is exactly what `to_filetime` gives for the instant it stands for |
| WinSetTimes.WinOs.Now | src/set_times.rs:237 | a clock read returns the next reading of the oracle and counts one read |
| WinSetTimes.WinOs.Open | src/set_times.rs:70-73 | an open returns the oracle's outcome for that path, access and flags, and is recorded |
| WinSetTimes.WinOs.SetFileTime | src/set_times.rs:257-264 | the call is recorded with its arguments and returns the oracle's outcome |
| WinSetTimes.Resolve | src/set_times.rs:234-253 | a field resolves to nothing exactly when it is `None`, to the one clock reading when it is `SymbolicNow`, and to its own instant when absolute |
| WinSetTimes.ConvertField | src/set_times.rs:255-256 | `map(to_filetime).transpose()`: succeeds exactly when the field is absent or converts, keeps absence, carries the `to_filetime` result, and otherwise returns its error |
| WinSetTimes.FileTimesCall | src/set_times.rs:255-263 | the call is built exactly when every present field, resolved against one reading of "now", converts; otherwise the access-time error if there is one, else the modification-time error; the call has null creation time, null exactly for `None` fields, each present field the `to_filetime` of its resolved instant |
| WinSetTimes.SetFileTimes | src/set_times.rs:227-270 | the clock is read once if either field is `SymbolicNow` and never otherwise; exactly the call `FileTimesCall` gives for that one reading is made, or none with the conversion error; the result is success on a non-zero return, else the last OS error |
| WinSetTimes.BothNowShareOneInstant | src/set_times.rs:232-253 | when both fields are `SymbolicNow`, access and write are set to the same `FILETIME` |
| WinSetTimes.AccessErrorComesFirst | src/set_times.rs:255-256 | an access-time conversion error is returned whatever the modification time, before any call |
| WinSetTimes.SingleFieldSettersPassNull | src/set_times.rs:27-35 | for `set_atime` the write-time pointer is null, for `set_mtime` the access-time pointer |
| WinSetTimes.OpenFallback | src/set_times.rs:70-94 | a write open that succeeds is used; a non-permission write failure is returned; after a permission denial the handle of a successful read open is used and a non-permission read failure is returned; two denials give `ERROR_NOT_SUPPORTED`; permission denied is never surfaced |
| WinSetTimes.SetPathTimes | src/set_times.rs:63-95 | opens for writing, then read-only only after a permission denial, with backup semantics (plus the reparse-point flag for `set_symlink_times`, lines 124-156); on a handle it does what `SetFileTimes` does, otherwise returns the `OpenFallback` error without reading the clock or calling `SetFileTime` |

## Left out

- The system calls `utimensat`, `futimens`, `SetFileTime` and `OpenOptions::open`: operating-system I/O. POSIX operations stop at the call they issue (its result is passed through unchanged); on Windows their outcomes are oracles.
- `SystemTime::now()`: a clock oracle `clock(i)` with no ordering, so the bound "between a reading taken before and one taken after the call" is not modelled.
- The effect on filesystem metadata (reading timestamps back, which object a symlink operation touches, resolution of the filesystem): there is no filesystem in the model.
- The `SetTimes` extension trait and `as_filelike_view` (src/set_times.rs:158-183): delegation to `_set_file_times` through a borrowed-handle wrapper.
- Closing the Windows handle on every exit path: dropping the file is not modelled.
- The actual values of `UTIME_OMIT` and `UTIME_NOW`: foreign constants, taken as parameters (`Posix.Sentinels`).
- Platform selection by `#[cfg]` and the re-exports of src/lib.rs: build configuration.
- Error messages and `io::Error` construction: errors are `PermissionDenied`, `Other` or a raw OS code.
- Exhaustiveness of `SystemTimeSpec`: no lemma, because Dafny rejects any non-exhaustive `match`, so every case split of the model covers both variants.
- Posix.ToTimespec: an instant before the Unix epoch, on which the source panics at the `unwrap`, is excluded by a precondition rather than modelled as a panic.
- Posix.ToTimespec: the precondition that both sentinels lie outside [0, 10^9) is assumed, as on Linux and the BSDs; under it the `assert_ne!` panics are unreachable and are not modelled.
- WinFileTime.ToFiletime: requires the interval count to fit a u64, so the overflow of the u64 arithmetic (a panic or wrap-around depending on the build) is not modelled.
- WinSetTimes.SetFileTimes: requires every clock reading to be in the `FILETIME` range (`WinOs.Valid`, which the constructor establishes from the same condition on the clock), and absolute instants likewise.
- Windows `SystemTime` has 100-ns resolution; the model gives every platform nanosecond instants.
