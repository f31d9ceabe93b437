/** Failure-carrying results shared by the whole model. */
module Outcomes {

  /** The ways an operation of the quiz can fail to produce a value.
      - EmptyPool: the pool holds no country, so indexing it yields
        `undefined` and reading a field of it throws.
      - RandomnessExhausted: the operation needed more random numbers than
        the finite prefix of the random source it was given. For the
        option-collection loop, which may never finish, this is how an
        unbounded run is represented. */
  datatype Error = EmptyPool | RandomnessExhausted

  datatype Option<+T> = None | Some(value: T)

  datatype Result<+T> = Ok(value: T) | Err(error: Error)
}
