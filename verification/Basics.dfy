/** Shared vocabulary: texts, optional values and results. */
module Basics {
  /** A text is its UTF-8 encoding: each `char` stands for one byte, so `|t|` is the length in bytes. */
  type Text = string

  datatype Option<+T> = None | Some(value: T)

  datatype Result<+T> = Ok(value: T) | Err(error: Text)

  function Lesser(a: nat, b: nat): nat {
    if a < b then a else b
  }
}
