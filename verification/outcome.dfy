/** What an evaluator hands back: either its metrics or the reason it refused.
    The source returns a dictionary with a single error entry (or raises, in
    one evaluator); here each distinct message is one constructor. */
module Outcome {

  datatype Result<T> = Ok(value: T) | Err(error: QueueError)
  {
    predicate IsOk() { this.Ok? }
  }

  datatype QueueError =
    | Unstable                    // the offered load reaches or exceeds capacity
    | NegativeWaitingTime         // a time threshold t < 0
    | NonPositiveRates            // λ <= 0 or μ <= 0
    | NonPositiveParameters       // one of λ, μ, s, K is <= 0
    | LengthMismatch              // per-class input lists of different lengths
    | NonPositiveServiceRate      // μ <= 0
    | NonPositiveServers          // s <= 0
    | NegativeArrivalRate         // some class has λ_i < 0
    | DivisionByZero(classNo: nat)      // a zero denominator for class number classNo (1-based)
    | InvalidDenominator(classNo: nat)  // a nonpositive denominator for class number classNo (1-based)
    | WaitProbabilityUndefined(classNo: nat)  // no waiting probability for class number classNo (1-based)
}
