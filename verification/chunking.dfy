/** Splitting an encoded value into size-bounded pieces and putting it back together. */
module Chunking {

  /** The pieces of a split, read in order and joined. */
  function Concat(pieces: seq<string>): string
  {
    if pieces == [] then [] else pieces[0] + Concat(pieces[1..])
  }

  /** The largest piece the splitter cuts for a given per-item ceiling: half the ceiling,
      and at least one character, so that a chunk leaves room for its key. */
  function PieceSize(maxItemBytes: nat): (n: nat)
    ensures 1 <= n
    ensures 0 < maxItemBytes ==> n <= maxItemBytes
  {
    if maxItemBytes >= 2 then maxItemBytes / 2 else 1
  }

  /** Cuts `text` into consecutive pieces of `size` characters; the last may be shorter. */
  function Split(text: string, size: nat): (r: seq<string>)
    requires 0 < size
    ensures Concat(r) == text
    ensures 1 <= |r|
    ensures |text| > size ==> 2 <= |r|
    ensures forall i :: 0 <= i < |r| ==> |r[i]| <= size
    ensures text != [] ==> forall i :: 0 <= i < |r| ==> r[i] != []
    decreases |text|
  {
    if |text| <= size then [text]
    else
      var rest := Split(text[size..], size);
      assert ([text[..size]] + rest)[1..] == rest;
      [text[..size]] + rest
  }
}
