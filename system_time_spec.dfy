/** `SystemTimeSpec`: how a caller names the time a timestamp is to be set to. */
module TimeSpec {
  import opened StdTime

  /** Either the symbolic current time, resolved only when the timestamp is
      actually set, or a fixed instant. */
  datatype SystemTimeSpec =
    | SymbolicNow
    | Absolute(time: SystemTime)

  /** `impl From<SystemTime> for SystemTimeSpec`: a plain instant is absolute,
      never the symbolic "now", and it is carried unchanged. */
  function From(time: SystemTime): (spec: SystemTimeSpec)
    ensures spec != SymbolicNow
    ensures spec.time == time
  {
    Absolute(time)
  }

  /** Distinct instants give distinct specifications. */
  lemma FromInjective(t1: SystemTime, t2: SystemTime)
    requires t1 != t2
    ensures From(t1) != From(t2)
  {
  }
}
