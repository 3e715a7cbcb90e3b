/** What several modules share: optional values, bytes and C strings. */
module Common {
  datatype Option<+T> = None | Some(value: T)

  type Byte = b: int | 0 <= b < 256

  /** The bytes of a string up to and including its terminator, and nothing after it. */
  predicate CString(s: seq<Byte>) {
    && |s| >= 1 && s[|s| - 1] == 0
    && forall i :: 0 <= i < |s| - 1 ==> s[i] != 0
  }
}
