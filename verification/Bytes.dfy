/** Byte strings, newline accounting, and SHA-256 as an injective function. */
module Bytes {
  newtype byte = x: int | 0 <= x < 256
  type bytes = seq<byte>

  const LF: byte := 10
  const CR: byte := 13

  /** A digest remembers its preimage: hashing is injective by construction. */
  datatype Digest = Sha256(preimage: bytes)

  datatype Option<+T> = None | Some(value: T)

  function Newlines(data: bytes): (n: nat)
    ensures n <= |data|
  {
    if data == [] then 0 else (if data[0] == LF then 1 else 0) + Newlines(data[1..])
  }

  lemma {:induction false} NewlinesConcat(a: bytes, b: bytes)
    ensures Newlines(a + b) == Newlines(a) + Newlines(b)
  {
    if a == [] {
      assert a + b == b;
    } else {
      assert (a + b)[1..] == a[1..] + b;
      NewlinesConcat(a[1..], b);
    }
  }

  /** The number of lines of a file, an unterminated last line included. */
  function RecordCount(data: bytes): nat
  {
    Newlines(data) + (if data != [] && data[|data| - 1] != LF then 1 else 0)
  }

  function Flatten(chunks: seq<bytes>): bytes
  {
    if chunks == [] then [] else Flatten(chunks[..|chunks| - 1]) + chunks[|chunks| - 1]
  }

  /** What successive reads of a file return: no read before the end is empty. */
  ghost predicate IsReading(chunks: seq<bytes>)
  {
    forall i | 0 <= i < |chunks| :: chunks[i] != []
  }

  /** Counts a file read chunk by chunk, as both the publisher and `_reusable` do. */
  method ActualRecordCount(chunks: seq<bytes>) returns (total: nat)
    requires IsReading(chunks)
    ensures total == RecordCount(Flatten(chunks))
  {
    var count: nat, last: bytes := 0, [];
    for i := 0 to |chunks|
      invariant count == Newlines(Flatten(chunks[..i]))
      invariant i == 0 ==> last == [] && Flatten(chunks[..i]) == []
      invariant i > 0 ==> Flatten(chunks[..i]) != [] && last == [Flatten(chunks[..i])[|Flatten(chunks[..i])| - 1]]
    {
      var chunk := chunks[i];
      assert chunks[..i + 1][..i] == chunks[..i];
      NewlinesConcat(Flatten(chunks[..i]), chunk);
      count := count + Newlines(chunk);
      last := [chunk[|chunk| - 1]];
    }
    assert chunks[..|chunks|] == chunks;
    total := count + (if last != [] && last != [LF] then 1 else 0);
  }
}
