/** Small value wrappers shared by the modules of the model. */
module Common {

  /** A value that may be absent: Python's `None` versus a present value. */
  datatype Option<T> = None | Some(value: T) {
    function GetOr(default: T): T {
      match this
      case Some(v) => v
      case None => default
    }
  }

  /**
   * What a Python call does: it returns a value, or it raises an exception
   * that propagates to its caller. `exception` names the Python exception class.
   */
  datatype Outcome<T> = Returned(value: T) | Raised(exception: string)

  /** A slice is its first element followed by the rest. */
  lemma SliceCons<T>(s: seq<T>, i: nat, j: nat)
    requires i < j <= |s|
    ensures s[i..j] == [s[i]] + s[i + 1..j]
  {
  }

  lemma AppendAssoc<T>(a: seq<T>, b: seq<T>, c: seq<T>)
    ensures a + (b + c) == (a + b) + c
  {
  }
}
