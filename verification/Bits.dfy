/** Keys as bit strings, and the proximity order of two keys. */
module Bits {

  const DEPTH: nat := 256

  /** A 32-byte key, most significant bit of the first byte first. */
  type Key = k: seq<bool> | |k| == DEPTH witness seq(DEPTH, i => false)

  /** The first position from `pos` on at which the strings differ; `|other|` if there is none. */
  function FirstDiff(one: seq<bool>, other: seq<bool>, pos: nat): (po: nat)
    ensures po == |other| || (pos <= po < |one| && po < |other| && one[po] != other[po])
    ensures forall i :: pos <= i < po && i < |one| ==> one[i] == other[i]
    decreases |one| - pos
  {
    if pos >= |one| || pos >= |other| then |other|
    else if one[pos] != other[pos] then pos
    else FirstDiff(one, other, pos + 1)
  }

  /** The keys agree on the bits below `n`. */
  ghost predicate Agree(a: Key, b: Key, n: nat)
  {
    forall i :: 0 <= i < n && i < DEPTH ==> a[i] == b[i]
  }

  /** The keys first differ at bit `p`. */
  ghost predicate Splits(a: Key, b: Key, p: nat)
  {
    p < DEPTH && Agree(a, b, p) && a[p] != b[p]
  }

  lemma SplitsBack(a: Key, b: Key, p: nat)
    requires Splits(a, b, p)
    ensures Splits(b, a, p)
  {
  }
}
