/** Words in C strings, and what a search returns. */
module CStrings {
  import opened Common

  /** The word `x` stands at index `at` of the string `h`, before the terminator. */
  ghost predicate Match(h: seq<Byte>, x: seq<Byte>, at: int) {
    && 0 <= at && at + |x| < |h|
    && forall k, j :: 0 <= k < |x| && j == at + k ==> x[k] == h[j]
  }

  /** `r` is the first index at or after `from` where `x` stands in `h`, if there is one. */
  ghost predicate FirstMatch(h: seq<Byte>, x: seq<Byte>, from: nat, r: Option<nat>) {
    match r
    case None => forall at :: from <= at ==> !Match(h, x, at)
    case Some(i) => from <= i && Match(h, x, i) && forall at :: from <= at < i ==> !Match(h, x, at)
  }
}
