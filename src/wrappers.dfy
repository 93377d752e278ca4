/** Failure-compatible optional value: `None` stands for a contract read that threw,
    an environment variable that is not set, or a React query whose data is still undefined. */
module Wrappers {

  datatype Option<+T> = None | Some(value: T)

  /** An account or contract address, as the hex string the wallet library hands out. */
  type Address = string

  /** JavaScript truthiness of an optional string: `undefined` and `""` are both falsy. */
  predicate IsSet(s: Option<string>)
  {
    s.Some? && s.value != ""
  }
}
