/**
 Two devices that keep proofs quick; neither changes what a predicate means.

 A predicate P that is written as `Q(..) == true` is Q: the verifier then proves and uses Q as one
 fact instead of taking it apart wherever P is mentioned.

 A definition that is written as `forall key: Key :: Opens(key) && key == OfX ==> ..` is what stands
 behind the arrow, since Opens holds of every key: the verifier looks inside it only in those proofs
 that name Opens(OfX).
 */
module Seal {
  datatype Key =
    | OfShuffle | OfSums | OfAccount | OfBytes | OfTree | OfHolding | OfPlace | OfProp | OfRun | OfPools | OfAccess

  predicate Opens(key: Key) { true }
}
