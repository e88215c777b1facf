/** The checks a call makes before it does anything, in order: the first one that fails is the answer. */
module Checks {
  import opened Domain

  datatype Checks = Passed | Failed(error: Error)
  {
    function Check(holds: bool, error: Error): Checks {
      if Passed? && !holds then Failed(error) else this
    }

    function Answer(value: nat): Result<nat> {
      if Passed? then Ok(value) else Err(error)
    }
  }
}
