/**
 * A NodeList whose elements each carry one CSS class flag (here `active`),
 * seen as a sequence of booleans in document order.
 */
module Flags {

  /** Every flag is off: the state after `forEach(x => x.classList.remove('active'))`. */
  function Cleared(n: nat): (r: seq<bool>)
    ensures |r| == n
    ensures forall j :: 0 <= j < n ==> !r[j]
  {
    seq(n, _ => false)
  }

  /** Every flag is off except the one at `k`. */
  function OnlyActive(n: nat, k: nat): (r: seq<bool>)
    requires k < n
    ensures ExactlyOne(r, k)
  {
    Cleared(n)[k := true]
  }

  /** At most one element carries the flag. */
  predicate AtMostOne(s: seq<bool>)
  {
    forall i, j :: 0 <= i < |s| && 0 <= j < |s| && s[i] && s[j] ==> i == j
  }

  /** Exactly one element carries the flag, and it is the one at `k`. */
  predicate ExactlyOne(s: seq<bool>, k: int)
  {
    0 <= k < |s| && s[k] && forall j :: 0 <= j < |s| && j != k ==> !s[j]
  }

  lemma ExactlyOneIsAtMostOne(s: seq<bool>, k: int)
    requires ExactlyOne(s, k)
    ensures AtMostOne(s)
    ensures forall j :: 0 <= j < |s| && s[j] ==> j == k
  {
  }

  /** The loop every handler runs to remove the class from a whole NodeList. */
  method ClearAll(flags: array<bool>)
    modifies flags
    ensures flags[..] == Cleared(flags.Length)
  {
    for j := 0 to flags.Length
      invariant forall k :: 0 <= k < j ==> !flags[k]
    {
      flags[j] := false;
    }
  }
}
