/** Byte buffers, and the little-endian numbers in them. */
module Octets {

  type Byte = b: int | 0 <= b < 256
  type Bytes = seq<Byte>

  // writeUInt16LE
  function Le16(v: nat): (b: Bytes)
    requires v < 0x1_0000
    ensures |b| == 2
  {
    [v % 256, v / 256]
  }

  // readUInt16LE, in bounds
  function U16At(data: Bytes, i: nat): (v: nat)
    requires i + 2 <= |data|
    ensures v < 0x1_0000
  {
    (data[i] as int) + 256 * (data[i + 1] as int)
  }

  // slice(i)
  function From(data: Bytes, i: nat): Bytes {
    if i <= |data| then data[i..] else []
  }

  function Join(pieces: seq<Bytes>): Bytes {
    if pieces == [] then [] else Join(pieces[..|pieces| - 1]) + pieces[|pieces| - 1]
  }

  lemma JoinSnoc(pieces: seq<Bytes>, piece: Bytes)
    ensures Join(pieces + [piece]) == Join(pieces) + piece
  {
    assert (pieces + [piece])[..|pieces|] == pieces;
  }
}
