/**
 Byte strings.

 A Go `string` is an immutable sequence of bytes, and `len` counts bytes.
 Here each element of a sequence stands for one byte, so that the length of
 a sequence is the byte length Go reports, and the ASCII literals of the
 validator and of its tests are byte strings as they stand. Text outside
 ASCII is given in its UTF-8 encoding, one element per byte.
 */
module Bytes {

  /**
   One byte of a Go string. Dafny's `char` serves as the code unit; no
   statement of the model depends on the code staying below 256, so every
   lemma holds in particular for every byte string.
   */
  type Byte = char

  /** A Go string: a sequence of bytes. */
  type Bytes = seq<Byte>
}
