/** An optional value, shared by the EEPROM interpretation and the counter
    vector. */
module Wrappers {
  datatype Option<T> = None | Some(value: T)
}
