/** Results shared by every component: an optional value, and a value or a refusal. */
module Outcomes {
  datatype Option<+T> = None | Some(value: T)

  /** `Refused` stands for any exception that aborts the operation without an effect. */
  datatype Result<+T> = Ok(value: T) | Refused
}
