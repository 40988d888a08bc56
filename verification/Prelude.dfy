/** Types and limits shared by every module of the model. */
module Prelude {

  datatype Option<+T> = None | Some(value: T)

  /** The source throws; the model returns the failure as a value. */
  datatype Result<+T> = Ok(value: T) | Err(error: string)

  type byte = b: int | 0 <= b < 256

  const U64_MAX: nat := 0xFFFF_FFFF_FFFF_FFFF
  const U32_MAX: nat := 0xFFFF_FFFF

  function Max(a: nat, b: nat): nat {
    if a < b then b else a
  }

  function Min(a: nat, b: nat): nat {
    if a < b then a else b
  }
}
