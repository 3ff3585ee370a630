/** `std::io::Error`, reduced to what the timestamp code inspects or builds. */
module Io {

  datatype IoError =
    /** any error whose `kind()` is `ErrorKind::PermissionDenied` */
    | PermissionDenied
    /** an error built with `io::Error::new(ErrorKind::Other, ..)` */
    | Other
    /** an error carrying a raw OS code (`from_raw_os_error`, `last_os_error`, an errno) of any other kind */
    | Os(code: int)
}
