/** Small types shared by several components. */
module Basics {

  datatype Option<+T> = None | Some(value: T)

  /** A duration in seconds, or the "positive infinity" used for "not reached". */
  datatype Duration = Finite(seconds: nat) | Infinite

  /** The strict order on durations; infinity is above every finite value and not below itself. */
  predicate Less(a: Duration, b: Duration) {
    a.Finite? && (b.Infinite? || a.seconds < b.seconds)
  }

  predicate AtMost(a: Duration, b: Duration) {
    !Less(b, a)
  }

  function Plus(a: Duration, seconds: nat): Duration {
    if a.Infinite? then Infinite else Finite(a.seconds + seconds)
  }

  function Min(a: Duration, b: Duration): Duration {
    if Less(b, a) then b else a
  }

  ghost predicate Distinct<T>(s: seq<T>) {
    forall i, j :: 0 <= i < j < |s| ==> s[i] != s[j]
  }
}
