/** Error results for the exceptions the modelled operations raise. */
module Wrappers {

  /** `TypeError` from `>>`/`<<` on an operand of another type, `ValueError` from
      `DAG.new_task` on an unknown task type, `RuntimeError` from `check_cycles`. */
  datatype Error = TypeError | ValueError | RuntimeError

  datatype Result<T> = Ok(value: T) | Err(error: Error)
}
