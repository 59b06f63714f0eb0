/** The shapes every component of the model shares. */
module Base {
  datatype Option<+T> = None | Some(value: T)

  datatype Result<+T> = Ok(value: T) | Err

  type Bytes = seq<bv8>

  predicate HexByte(b: bv8) { 48 <= b <= 57 || 97 <= b <= 102 }

  /** 64 lower-case hexadecimal digits: a SHA-256 digest as text. */
  predicate Hex64(s: Bytes) {
    |s| == 64 && forall i :: 0 <= i < |s| ==> HexByte(s[i])
  }
}
