/** How principal component operations are refused. Messages and contexts are not modelled. */
module PcaErrors {

  datatype PcaError = DimensionMismatch(expected: nat, actual: nat) | InvalidNumericState | ValidationFailure
}
