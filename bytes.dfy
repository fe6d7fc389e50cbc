/** Go's byte slices and byte strings, as the rest of the model sees them.

    A Go `string` is an immutable sequence of bytes, so both `string` and the
    contents of a `[]byte` are `Text`. A Go slice additionally distinguishes
    `nil` from an empty slice, and the decoder's success and failure signals
    depend on that distinction, so a slice is a `Slice`: `None` is `nil`,
    `Some(s)` a non-nil slice holding `s` (possibly empty).
 */
module Bytes {

  newtype Byte = b: int | 0 <= b < 256

  type Text = seq<Byte>

  datatype Option<+T> = None | Some(value: T)

  /** A Go `[]byte`: `None` is the nil slice. */
  type Slice = Option<seq<Byte>>

  /** The elements of a slice; `nil` has none (Go's `len`, `range`, `string(b)`). */
  function Elements(s: Slice): (r: seq<Byte>)
    ensures s.Some? ==> r == s.value
    ensures s.None? ==> r == []
  {
    match s
    case None => []
    case Some(v) => v
  }

  /** The bytes of a string literal. Every literal the model uses is
      ASCII, so each character is one byte; the `% 256` only keeps the
      function total. */
  function Ascii(s: string): (r: Text)
    ensures |r| == |s|
  {
    seq(|s|, i requires 0 <= i < |s| => (s[i] as int % 256) as Byte)
  }

  /** `t` is a suffix of `s` (so it is also never longer than `s`). */
  predicate IsSuffix(t: seq<Byte>, s: seq<Byte>)
  {
    |t| <= |s| && s[|s| - |t|..] == t
  }
}
