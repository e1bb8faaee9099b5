/** Shared vocabulary: optional values, results of operations that may raise, and the positions
    of the elements that a filter keeps. */
module Prelude {

  datatype Option<+T> = None | Some(value: T)
  {
    function GetOr(default: T): T {
      if Some? then value else default
    }
  }

  datatype Result<+T, +E> = Ok(value: T) | Err(error: E)

  // All positions of elements to keep, ascending.
  ghost predicate Kept<T>(xs: seq<T>, keep: T -> bool, ks: seq<nat>) {
    && (forall i, j | 0 <= i < j < |ks| :: ks[i] < ks[j])
    && (forall k: nat :: k in ks <==> k < |xs| && keep(xs[k]))
  }

  lemma KeptSnoc<T>(front: seq<T>, last: T, keep: T -> bool, ks: seq<nat>)
    requires Kept(front, keep, ks)
    ensures Kept(front + [last], keep, if keep(last) then ks + [|front|] else ks)
  {
    var xs := front + [last];
    var more := if keep(last) then ks + [|front|] else ks;
    forall k: nat
      ensures k in more <==> k < |xs| && keep(xs[k])
    {
      assert k < |front| ==> xs[k] == front[k];
    }
    forall i, j | 0 <= i < j < |more|
      ensures more[i] < more[j]
    {
      assert i < |ks| && ks[i] in ks;
      assert j == |ks| || ks[j] == more[j];
    }
  }
}
