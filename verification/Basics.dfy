/** What every part of the model needs. */
module Basics {
  newtype Byte = x: int | 0 <= x < 256

  datatype Option<T> = None | Some(value: T)

  function Max(a: nat, b: nat): nat { if a < b then b else a }

  function Min(a: nat, b: nat): nat { if a < b then a else b }
}
