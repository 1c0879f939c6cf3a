/** Bytes and samples, and a few operations on runs of bytes. */
module Bytes {

  type Byte = x: int | 0 <= x < 256

  /** A sample of 16 bits, with its sign. */
  type Sample = x: int | -32768 <= x < 32768

  /** A byte as a number to calculate with. */
  function Num(b: Byte): nat { b }

  function Repeat(b: Byte, n: nat): seq<Byte> { seq(n, i => b) }

  method CopyInto(buffer: array<Byte>, at: nat, data: seq<Byte>)
    requires at + |data| <= buffer.Length
    modifies buffer
    ensures buffer[..at + |data|] == old(buffer[..at]) + data
    ensures buffer[at + |data|..] == old(buffer[at + |data|..])
  {
    forall i | 0 <= i < |data| { buffer[at + i] := data[i]; }
  }

  method Fill(buffer: array<Byte>, at: nat, n: nat, b: Byte)
    requires at + n <= buffer.Length
    modifies buffer
    ensures buffer[..at + n] == old(buffer[..at]) + Repeat(b, n)
    ensures buffer[at + n..] == old(buffer[at + n..])
  {
    forall i | at <= i < at + n { buffer[i] := b; }
  }
}
