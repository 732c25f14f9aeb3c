/** The error conditions the bandit engine raises, and the Result/Option types that carry them. */
module Results {

  /** One constructor per exception the engine can raise. */
  datatype Error =
    | InvalidAction(action: int)        // Bandit.pull with an action outside [0, n_arms)
    | IndexOutOfRange(index: int)       // a numpy index outside [-n, n)
    | EmptyArgument                     // max, argmax, randint or choice of an empty range
    | UnknownAgentType(name: string)    // run_multiple_experiments with an unknown policy name
    | MissingParameter(name: string)    // a required agent parameter that was not given
    | NoExperiments                     // averaging over zero experiments
    | EmptyCurve                        // indexing the last entry of an empty curve
    | UnknownMetric(name: string)       // a metric name that is not a scalar statistic
    | EmptyResults                      // min or max over an empty parameter sweep
    | InvalidWindow(window: int)        // a moving-average window of no positive length

  datatype Result<+T> = Success(value: T) | Failure(error: Error)

  datatype Option<+T> = None | Some(value: T)
}
