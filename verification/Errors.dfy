/** What can stop a quotation before it is published. */
module Errors {

  datatype Error =
    | InvalidOperation
    | DivisionByZero
    | PercentageError
    | VehicleSnapshotError
    | VehicleYearError
    | VehicleValueTooHigh
    | BrokerFeeTooHigh
    | BrokerFeeError
    | CurrencyMismatchError
    | DeductibleOutOfRangeError
    | GeographicRateAdjustmentError
    | GeographicProviderError

  /** The arithmetic errors are not domain errors: they surface as an internal failure. */
  predicate IsArithmetic(e: Error) {
    e.InvalidOperation? || e.DivisionByZero?
  }
}
