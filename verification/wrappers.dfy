/** The option type and the addresses shared by the other modules. */
module Wrappers {
  datatype Option<+T> = None | Some(value: T)

  datatype IpAddr = V4(bits: nat) | V6(bits: nat)
}
