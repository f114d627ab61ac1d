/** Bytes and the pieces a byte stream is read in. */
module Streams {

  newtype byte = b: int | 0 <= b < 256

  type bytes = seq<byte>

  /** The stream that a sequence of reads delivers. */
  function Concat<T>(parts: seq<seq<T>>): (whole: seq<T>)
  {
    if parts == [] then [] else Concat(parts[..|parts| - 1]) + parts[|parts| - 1]
  }

  lemma ConcatSnoc<T>(parts: seq<seq<T>>, last: seq<T>)
    ensures Concat(parts + [last]) == Concat(parts) + last
  {
    assert (parts + [last])[..|parts|] == parts;
  }
}
