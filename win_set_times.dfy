/** The Windows side: `_set_file_times`, which resolves "now" with at most
    one clock read and calls `SetFileTime`, and `_set_times` /
    `_set_symlink_times`, which first open the path, falling back from write
    to read access on a permission error. */
module WinSetTimes {
  import opened Wrappers
  import opened StdTime
  import opened Io
  import opened TimeSpec
  import opened SetTimesApi
  import opened WinFileTime

  datatype Handle = Handle(raw: int)

  /** A `SetFileTime` call, recorded with its three time arguments; `None`
      is a null pointer, which leaves that timestamp unchanged. */
  datatype SetFileTimeCall = SetFileTimeCall(
    handle: Handle,
    creation: Option<FileTime>,
    lastAccess: Option<FileTime>,
    lastWrite: Option<FileTime>)

  const FILE_FLAG_BACKUP_SEMANTICS: bv32 := 0x0200_0000
  const FILE_FLAG_OPEN_REPARSE_POINT: bv32 := 0x0020_0000

  datatype Access = WriteAccess | ReadAccess

  /** An `OpenOptions::open` of a path, with its access and custom flags. */
  datatype OpenRequest = OpenRequest(path: Path, access: Access, customFlags: bv32)

  datatype OpenOutcome = Opened(handle: Handle) | OpenFailed(error: IoError)

  /** The operating system as the Windows code sees it. The clock, the
      outcome of each open and the outcome of each `SetFileTime` are supplied
      from outside; what the code asks of it is recorded. */
  class WinOs {
    /** the reading `SystemTime::now()` returns the i-th time it is called */
    const clock: nat -> SystemTime
    /** what opening a path with given access and flags yields */
    const openFile: OpenRequest -> OpenOutcome
    /** `None` when `SetFileTime` returns non-zero, else `Some(GetLastError())` */
    const setFileTime: SetFileTimeCall -> Option<int>

    var clockReads: nat
    var opens: seq<OpenRequest>
    var calls: seq<SetFileTimeCall>

    /** Every clock reading lies in the range `FILETIME` arithmetic handles,
        as every Windows `SystemTime` does. */
    ghost predicate Valid() {
      forall i: nat :: InFileTimeRange(clock(i))
    }

    constructor (clock: nat -> SystemTime, openFile: OpenRequest -> OpenOutcome, setFileTime: SetFileTimeCall -> Option<int>)
      requires forall i: nat :: InFileTimeRange(clock(i))
      ensures Valid()
      ensures this.clock == clock && this.openFile == openFile && this.setFileTime == setFileTime
      ensures clockReads == 0 && opens == [] && calls == []
    {
      this.clock := clock;
      this.openFile := openFile;
      this.setFileTime := setFileTime;
      clockReads := 0;
      opens := [];
      calls := [];
    }

    /** `SystemTime::now()` */
    method Now() returns (t: SystemTime)
      modifies this`clockReads
      ensures t == clock(old(clockReads)) && clockReads == old(clockReads) + 1
    {
      t := clock(clockReads);
      clockReads := clockReads + 1;
    }

    /** `OpenOptions::open` */
    method Open(req: OpenRequest) returns (outcome: OpenOutcome)
      modifies this`opens
      ensures outcome == openFile(req) && opens == old(opens) + [req]
    {
      outcome := openFile(req);
      opens := opens + [req];
    }

    /** `SetFileTime` followed, on failure, by `GetLastError` */
    method SetFileTime(call: SetFileTimeCall) returns (failure: Option<int>)
      modifies this`calls
      ensures failure == setFileTime(call) && calls == old(calls) + [call]
    {
      failure := setFileTime(call);
      calls := calls + [call];
    }
  }

  /** An absolute instant lies in the `FILETIME` range. */
  predicate AbsoluteInRange(spec: Option<SystemTimeSpec>) {
    spec.Some? && spec.value.Absolute? ==> InFileTimeRange(spec.value.time)
  }

  /** Whether resolving the pair needs the current time at all. */
  predicate UsesNow(atime: Option<SystemTimeSpec>, mtime: Option<SystemTimeSpec>) {
    atime == Some(SymbolicNow) || mtime == Some(SymbolicNow)
  }

  /** One field resolved against the one reading `now`. */
  function Resolve(spec: Option<SystemTimeSpec>, now: SystemTime): (r: Option<SystemTime>)
    ensures r.None? <==> spec.None?
    ensures spec == Some(SymbolicNow) ==> r == Some(now)
    ensures spec.Some? && spec.value.Absolute? ==> r == Some(spec.value.time)
  {
    match spec
    case None => None
    case Some(SymbolicNow) => Some(now)
    case Some(Absolute(t)) => Some(t)
  }

  /** `t.map(to_filetime).transpose()` */
  function ConvertField(t: Option<SystemTime>): (r: Result<Option<FileTime>, IoError>)
    requires t.Some? ==> InFileTimeRange(t.value)
    ensures r.Ok? <==> (t.Some? ==> ToFiletime(t.value).Ok?)
    ensures r.Ok? ==> (r.value.None? <==> t.None?)
    ensures r.Ok? && t.Some? ==> ToFiletime(t.value) == Ok(r.value.value)
    ensures r.Err? ==> t.Some? && r.error == ToFiletime(t.value).error
  {
    match t
    case None => Ok(None)
    case Some(instant) =>
      var f :- ToFiletime(instant);
      Ok(Some(f))
  }

  /** The `SetFileTime` call `_set_file_times` makes when "now" reads as
      `now`, or the conversion error that stops it first. */
  function FileTimesCall(handle: Handle, atime: Option<SystemTimeSpec>, mtime: Option<SystemTimeSpec>, now: SystemTime): (r: Result<SetFileTimeCall, IoError>)
    requires AbsoluteInRange(atime) && AbsoluteInRange(mtime) && InFileTimeRange(now)
    ensures r.Ok? <==> (atime.Some? ==> ToFiletime(Resolve(atime, now).value).Ok?)
                       && (mtime.Some? ==> ToFiletime(Resolve(mtime, now).value).Ok?)
    ensures r.Err? ==> r.error == (if atime.Some? && ToFiletime(Resolve(atime, now).value).Err?
                                   then ToFiletime(Resolve(atime, now).value).error
                                   else ToFiletime(Resolve(mtime, now).value).error)
    ensures r.Ok? ==> r.value.handle == handle && r.value.creation == None
    ensures r.Ok? ==> (r.value.lastAccess.None? <==> atime.None?)
    ensures r.Ok? ==> (r.value.lastWrite.None? <==> mtime.None?)
    ensures r.Ok? && atime.Some? ==> ToFiletime(Resolve(atime, now).value) == Ok(r.value.lastAccess.value)
    ensures r.Ok? && mtime.Some? ==> ToFiletime(Resolve(mtime, now).value) == Ok(r.value.lastWrite.value)
  {
    var lastAccess :- ConvertField(Resolve(atime, now));
    var lastWrite :- ConvertField(Resolve(mtime, now));
    Ok(SetFileTimeCall(handle, None, lastAccess, lastWrite))
  }

  /** `SetFileTime(..) != 0` is success; otherwise the last OS error. */
  function SetFileTimeResult(failure: Option<int>): Result<(), IoError> {
    match failure
    case None => Ok(())
    case Some(code) => Err(Os(code))
  }

  /** What `_set_file_times` has done to `os`, which stood at `reads0`
      clock readings and `calls0` calls before: the clock was read once if
      either field is `SymbolicNow` and never otherwise, the `SetFileTime`
      call built from that one reading was made (or nothing, if a
      conversion failed), and `r` reports its outcome. */
  ghost predicate FileTimesDone(os: WinOs, handle: Handle, atime: Option<SystemTimeSpec>, mtime: Option<SystemTimeSpec>,
                                reads0: nat, calls0: seq<SetFileTimeCall>, r: Result<(), IoError>)
    requires AbsoluteInRange(atime) && AbsoluteInRange(mtime) && InFileTimeRange(os.clock(reads0))
    reads os
  {
    var call := FileTimesCall(handle, atime, mtime, os.clock(reads0));
    && os.clockReads == reads0 + (if UsesNow(atime, mtime) then 1 else 0)
    && (call.Err? ==> r == Err(call.error) && os.calls == calls0)
    && (call.Ok? ==> os.calls == calls0 + [call.value] && r == SetFileTimeResult(os.setFileTime(call.value)))
  }

  /** `_set_file_times` on Windows. */
  method SetFileTimes(os: WinOs, handle: Handle, atime: Option<SystemTimeSpec>, mtime: Option<SystemTimeSpec>)
    returns (r: Result<(), IoError>)
    requires os.Valid()
    requires AbsoluteInRange(atime) && AbsoluteInRange(mtime)
    modifies os
    ensures FileTimesDone(os, handle, atime, mtime, old(os.clockReads), old(os.calls), r)
    ensures os.opens == old(os.opens)
  {
    ghost var reading := os.clock(os.clockReads);
    var now: Option<SystemTime> := None;

    var a: Option<SystemTime>;
    match atime {
      case None => a := None;
      case Some(SymbolicNow) =>
        var rightNow := os.Now();
        now := Some(rightNow);
        a := Some(rightNow);
      case Some(Absolute(time)) => a := Some(time);
    }
    assert a == Resolve(atime, reading);
    assert now.Some? ==> now == Some(reading);
    assert os.clockReads == old(os.clockReads) + (if now.Some? then 1 else 0);

    var m: Option<SystemTime>;
    match mtime {
      case None => m := None;
      case Some(SymbolicNow) =>
        if now.Some? {
          m := now;
        } else {
          var rightNow := os.Now();
          m := Some(rightNow);
        }
      case Some(Absolute(time)) => m := Some(time);
    }
    assert m == Resolve(mtime, reading);

    var lastAccess :- ConvertField(a);
    var lastWrite :- ConvertField(m);
    var failure := os.SetFileTime(SetFileTimeCall(handle, None, lastAccess, lastWrite));
    if failure.None? {
      r := Ok(());
    } else {
      r := Err(Os(failure.value));
    }
  }

  /** When both fields are `SymbolicNow`, access and write are set to the
      very same `FILETIME`. */
  lemma BothNowShareOneInstant(handle: Handle, now: SystemTime)
    requires InFileTimeRange(now)
    ensures var r := FileTimesCall(handle, Some(SymbolicNow), Some(SymbolicNow), now);
            r.Ok? ==> r.value.lastAccess.Some? && r.value.lastAccess == r.value.lastWrite
  {
  }

  /** A failure to convert the access time is returned as it is, whatever
      the modification time, and no call is made. */
  lemma AccessErrorComesFirst(handle: Handle, atime: Option<SystemTimeSpec>, mtime: Option<SystemTimeSpec>, now: SystemTime)
    requires AbsoluteInRange(atime) && AbsoluteInRange(mtime) && InFileTimeRange(now)
    requires atime.Some? && ToFiletime(Resolve(atime, now).value).Err?
    ensures FileTimesCall(handle, atime, mtime, now) == Err(ToFiletime(Resolve(atime, now).value).error)
  {
  }

  /** `set_atime` passes a null write time and `set_mtime` a null access
      time, so Windows leaves the other timestamp alone. */
  lemma SingleFieldSettersPassNull(path: Path, t: SystemTimeSpec, handle: Handle, now: SystemTime)
    requires AbsoluteInRange(Some(t)) && InFileTimeRange(now)
    ensures var req := SetAtime(path, t);
            var r := FileTimesCall(handle, req.atime, req.mtime, now);
            r.Ok? ==> r.value.lastAccess.Some? && r.value.lastWrite == None
    ensures var req := SetMtime(path, t);
            var r := FileTimesCall(handle, req.atime, req.mtime, now);
            r.Ok? ==> r.value.lastWrite.Some? && r.value.lastAccess == None
  {
  }

  /** What the open-and-retry step decides. */
  datatype OpenDecision = UseHandle(handle: Handle) | Fail(error: IoError)

  /** A read-only open is tried only after a write open denied permission. */
  predicate RetriesRead(write: OpenOutcome) {
    write == OpenFailed(PermissionDenied)
  }

  /** The open-and-retry rule of `_set_times` / `_set_symlink_times`, given
      what the write open and the (possible) read open yield. */
  function OpenFallback(write: OpenOutcome, read: OpenOutcome): (d: OpenDecision)
    ensures d.UseHandle? <==> write.Opened? || (RetriesRead(write) && read.Opened?)
    ensures write.Opened? ==> d == UseHandle(write.handle)
    ensures write.OpenFailed? && !RetriesRead(write) ==> d == Fail(write.error)
    ensures RetriesRead(write) && read.Opened? ==> d == UseHandle(read.handle)
    ensures RetriesRead(write) && read.OpenFailed? && read.error != PermissionDenied ==> d == Fail(read.error)
    ensures d == Fail(Os(ERROR_NOT_SUPPORTED)) <== RetriesRead(write) && read == OpenFailed(PermissionDenied)
    ensures d.Fail? ==> d.error != PermissionDenied
  {
    match write
    case Opened(file) => UseHandle(file)
    case OpenFailed(err) =>
      if err != PermissionDenied then Fail(err)
      else
        match read
        case Opened(file) => UseHandle(file)
        case OpenFailed(err) =>
          if err != PermissionDenied then Fail(err)
          else Fail(Os(ERROR_NOT_SUPPORTED))
  }

  /** `FILE_FLAG_BACKUP_SEMANTICS`, so that directories open too, plus
      `FILE_FLAG_OPEN_REPARSE_POINT` when the symlink itself is the target. */
  function CustomFlags(follow: Follow): bv32 {
    match follow
    case FollowSymlinks => FILE_FLAG_BACKUP_SEMANTICS
    case NoFollow => FILE_FLAG_BACKUP_SEMANTICS | FILE_FLAG_OPEN_REPARSE_POINT
  }

  /** `_set_times` and `_set_symlink_times` on Windows. */
  method SetPathTimes(os: WinOs, req: PathRequest) returns (r: Result<(), IoError>)
    requires os.Valid()
    requires AbsoluteInRange(req.atime) && AbsoluteInRange(req.mtime)
    modifies os
    ensures var writeOpen := OpenRequest(req.path, WriteAccess, CustomFlags(req.follow));
            var readOpen := OpenRequest(req.path, ReadAccess, CustomFlags(req.follow));
            os.opens == old(os.opens) + [writeOpen] + (if RetriesRead(os.openFile(writeOpen)) then [readOpen] else [])
    ensures var writeOpen := OpenRequest(req.path, WriteAccess, CustomFlags(req.follow));
            var readOpen := OpenRequest(req.path, ReadAccess, CustomFlags(req.follow));
            match OpenFallback(os.openFile(writeOpen), os.openFile(readOpen))
            case UseHandle(h) => FileTimesDone(os, h, req.atime, req.mtime, old(os.clockReads), old(os.calls), r)
            case Fail(e) => r == Err(e) && os.clockReads == old(os.clockReads) && os.calls == old(os.calls)
  {
    var flags := CustomFlags(req.follow);

    var write := os.Open(OpenRequest(req.path, WriteAccess, flags));
    match write {
      case Opened(file) =>
        r := SetFileTimes(os, file, req.atime, req.mtime);
        return;
      case OpenFailed(err) =>
        if err != PermissionDenied {
          return Err(err);
        }
    }

    var read := os.Open(OpenRequest(req.path, ReadAccess, flags));
    match read {
      case Opened(file) =>
        r := SetFileTimes(os, file, req.atime, req.mtime);
        return;
      case OpenFailed(err) =>
        if err != PermissionDenied {
          return Err(err);
        }
    }

    r := Err(Os(ERROR_NOT_SUPPORTED));
  }
}
