/** The header contradiction rule of LIP-0014 (pkg/consensus/contradiction). */
module Contradiction {

  /** An address is only ever compared for equality or order. */
  type Address = nat

  /** The part of a signed header the rule looks at. */
  datatype PartialHeader = PartialHeader(
    height: nat,
    generator: Address,
    maxHeightGenerated: nat,
    maxHeightPrevoted: nat)

  /** True when the two headers, read in the order (b1, b2), have to be swapped
      before they are compared. */
  predicate OutOfOrder(b1: PartialHeader, b2: PartialHeader) {
    || b1.maxHeightGenerated > b2.maxHeightGenerated
    || (b1.maxHeightGenerated == b2.maxHeightGenerated
        && b1.maxHeightPrevoted > b2.maxHeightPrevoted)
    || (b1.maxHeightGenerated == b2.maxHeightGenerated
        && b1.maxHeightPrevoted == b2.maxHeightPrevoted
        && b1.height > b2.height)
  }

  predicate AreDistinctHeadersContradicting(b1: PartialHeader, b2: PartialHeader) {
    var (earlier, later) := if OutOfOrder(b1, b2) then (b2, b1) else (b1, b2);
    if earlier.generator != later.generator then
      false
    else if earlier.maxHeightPrevoted == later.maxHeightPrevoted && earlier.height >= later.height then
      true
    else if earlier.height > later.maxHeightGenerated then
      true
    else
      earlier.maxHeightPrevoted > later.maxHeightPrevoted
  }

  /** What an honest validator's next header `b2` looks like after `b1`: it acknowledges
      the height of `b1` and never lowers what it claims to have generated or seen prevoted. */
  predicate Follows(b1: PartialHeader, b2: PartialHeader) {
    && b1.height <= b2.maxHeightGenerated
    && b1.maxHeightGenerated <= b2.maxHeightGenerated
    && b1.maxHeightPrevoted <= b2.maxHeightPrevoted
    && (b1.maxHeightPrevoted == b2.maxHeightPrevoted ==> b1.height < b2.height)
  }

  /** The order of the two arguments is irrelevant. */
  lemma ContradictionIsSymmetric(b1: PartialHeader, b2: PartialHeader)
    ensures AreDistinctHeadersContradicting(b1, b2) == AreDistinctHeadersContradicting(b2, b1)
  {
  }

  /** Two headers of one generator are compatible exactly when one of them follows the other. */
  lemma CompatibleIffOneFollows(b1: PartialHeader, b2: PartialHeader)
    requires b1.generator == b2.generator
    ensures !AreDistinctHeadersContradicting(b1, b2) <==> Follows(b1, b2) || Follows(b2, b1)
  {
  }
}
