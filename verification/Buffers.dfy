/** Byte buffers. */
module Buffers {
  import opened Words

  /** Copies `n` bytes between or within buffers, as if all were read before any is written. */
  method MoveBytes(dst: array<byte>, at: nat, src: array<byte>, from: nat, n: nat)
    requires at + n <= dst.Length && from + n <= src.Length
    modifies dst
    ensures dst[..] == old(dst[..at] + src[from..from + n] + dst[at + n..])
  {
    forall i | 0 <= i < n {
      dst[at + i] := src[from + i];
    }
  }
}
