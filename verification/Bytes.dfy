/** Bytes, byte strings and the few operations every other module shares. */
module Bytes {
  type byte = b: int | 0 <= b < 256
  type Bytes = seq<byte>

  const TWO32: nat := 0x1_0000_0000
  const TWO63: nat := 0x8000_0000_0000_0000
  const TWO64: nat := 0x1_0000_0000_0000_0000

  datatype Option<+T> = None | Some(value: T)

  const NUL: byte := 0
  const NEWLINE: byte := 10
  const SPACE: byte := 32
  const DOT: byte := 46
  const SLASH: byte := 47
  const BACKSLASH: byte := 92

  function Zeros(n: nat): (r: Bytes)
    ensures |r| == n && forall i :: 0 <= i < n ==> r[i] == 0
  {
    seq(n, _ => 0)
  }

  lemma Assoc(a: Bytes, b: Bytes, c: Bytes)
    ensures (a + b) + c == a + (b + c)
  {
  }

  /** How many bytes are missing to a multiple of four. */
  function Pad(n: nat): (p: nat)
    ensures p < 4 && (n + p) % 4 == 0
  {
    (4 - n % 4) % 4
  }

  /** The C string at the front of `s`: everything before its first NUL. */
  function CString(s: Bytes): Bytes {
    if s == [] || s[0] == NUL then [] else [s[0]] + CString(s[1..])
  }
}
