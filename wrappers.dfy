/**
 * The absent-or-present wrapper used for every nullable value of the replay decoder,
 * and two facts about sequences the loops build up element by element.
 */
module Wrappers {

  datatype Option<+T> = None | Some(value: T) {

    /** The carried value, or `default` when absent (C#'s GetValueOrDefault). */
    function GetOr(default: T): T {
      match this
      case Some(v) => v
      case None => default
    }
  }

  /** A value or the error that prevented it. */
  datatype Result<+T, +E> = Success(value: T) | Failure(error: E)

  lemma AppendAssoc<T>(a: seq<T>, b: seq<T>, c: seq<T>)
    ensures (a + b) + c == a + (b + c)
  {
  }

  lemma TakeSnoc<T>(s: seq<T>, k: nat)
    requires k < |s|
    ensures s[..k + 1] == s[..k] + [s[k]]
  {
  }
}
