/** The public path operations: `set_atime`, `set_mtime`, `set_times` and
    `set_symlink_times`. Each one hands a request to the platform's private
    `_set_times` or `_set_symlink_times`; here the two private functions are
    one, parameterised by the symlink policy the request carries (see the
    `Posix` and `WinSetTimes` modules). */
module SetTimesApi {
  import opened Wrappers
  import opened TimeSpec

  type Path = string

  /** Whether a symlink named by the path is followed (`set_times`) or is
      itself the target (`set_symlink_times`). */
  datatype Follow = FollowSymlinks | NoFollow

  /** A request to update the timestamps of the object a path names; a
      `None` field leaves that timestamp unchanged. */
  datatype PathRequest = PathRequest(
    path: Path,
    atime: Option<SystemTimeSpec>,
    mtime: Option<SystemTimeSpec>,
    follow: Follow)

  /** `set_times(path, atime, mtime)` */
  function SetTimes(path: Path, atime: Option<SystemTimeSpec>, mtime: Option<SystemTimeSpec>): (req: PathRequest)
    ensures req.follow == FollowSymlinks
    ensures req.path == path && req.atime == atime && req.mtime == mtime
  {
    PathRequest(path, atime, mtime, FollowSymlinks)
  }

  /** `set_symlink_times(path, atime, mtime)` */
  function SetSymlinkTimes(path: Path, atime: Option<SystemTimeSpec>, mtime: Option<SystemTimeSpec>): (req: PathRequest)
    ensures req.follow == NoFollow
    ensures req == SetTimes(path, atime, mtime).(follow := NoFollow)
  {
    PathRequest(path, atime, mtime, NoFollow)
  }

  /** `set_atime(path, atime)` is `set_times(path, Some(atime), None)`. */
  function SetAtime(path: Path, atime: SystemTimeSpec): (req: PathRequest)
    ensures req == SetTimes(path, Some(atime), None)
    ensures req.mtime == None
  {
    SetTimes(path, Some(atime), None)
  }

  /** `set_mtime(path, mtime)` is `set_times(path, None, Some(mtime))`. */
  function SetMtime(path: Path, mtime: SystemTimeSpec): (req: PathRequest)
    ensures req == SetTimes(path, None, Some(mtime))
    ensures req.atime == None
  {
    SetTimes(path, None, Some(mtime))
  }
}
