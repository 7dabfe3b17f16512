/** Bytes and buffers. */
module Bytes {

  type byte = x: int | 0 <= x < 256

  /** `buffer.set(part, offset)` */
  method Set(buffer: array<byte>, part: seq<byte>, offset: nat)
    requires offset + |part| <= buffer.Length
    modifies buffer
    ensures buffer[offset..offset + |part|] == part
    ensures buffer[..offset] == old(buffer[..offset])
    ensures buffer[offset + |part|..] == old(buffer[offset + |part|..])
  {
    for i := 0 to |part|
      invariant forall j :: 0 <= j < i ==> buffer[offset + j] == part[j]
      invariant forall j :: 0 <= j < buffer.Length && !(offset <= j < offset + i) ==> buffer[j] == old(buffer[j])
    {
      buffer[offset + i] := part[i];
    }
  }
}
