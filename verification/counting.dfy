/** Counting the true flags of a sequence: how many navigation items are
    highlighted, how many argument slots hold a fragment. */
module Counting {

  /** Number of true flags. */
  function CountTrue(flags: seq<bool>): (n: nat)
    ensures n <= |flags|
    ensures n == 0 <==> forall i :: 0 <= i < |flags| ==> !flags[i]
  {
    if flags == [] then 0
    else (if flags[0] then 1 else 0) + CountTrue(flags[1..])
  }

  /** A flag list with exactly one true flag counts one. */
  lemma {:induction false} CountSingle(flags: seq<bool>, k: nat)
    requires k < |flags| && flags[k]
    requires forall i :: 0 <= i < |flags| && i != k ==> !flags[i]
    ensures CountTrue(flags) == 1
  {
    if k > 0 {
      CountSingle(flags[1..], k - 1);
    }
  }
}
