/**
 * The chunking behind `_split_text`: the token sequence is cut into
 * consecutive chunks of `chunk_size` tokens (the last one may be shorter),
 * and each chunk is decoded back to text.
 */
module Segmenter {
  import opened Seqs

  /** The tokenizer for the stream's model: its encoder and decoder. */
  datatype Encoding = Encoding(encode: string -> seq<int>, decode: seq<int> -> string)

  /** `ceil(n / size)` for a positive size. */
  function CeilDiv(n: nat, size: nat): nat
    requires size > 0
  {
    (n + size - 1) / size
  }

  lemma {:induction false} MulAtLeast(k: nat, d: nat)
    requires k >= 1
    ensures k * d >= d
    decreases k
  {
    if k > 1 {
      MulAtLeast(k - 1, d);
      assert k * d == (k - 1) * d + d;
    }
  }

  lemma DivPlusOne(m: nat, d: nat)
    requires d > 0
    ensures (m + d) / d == m / d + 1
  {
    var q, r := m / d, m % d;
    assert m == q * d + r && 0 <= r < d;
    var q2, r2 := (m + d) / d, (m + d) % d;
    assert m + d == q2 * d + r2 && 0 <= r2 < d;
    if q2 > q + 1 {
      MulAtLeast(q2 - q - 1, d);
    } else if q2 < q + 1 {
      MulAtLeast(q + 1 - q2, d);
    }
  }

  lemma CeilDivStep(n: nat, size: nat)
    requires size > 0 && n > size
    ensures CeilDiv(n, size) == CeilDiv(n - size, size) + 1
  {
    var m := n - size + size - 1;
    assert n + size - 1 == m + size;
    DivPlusOne(m, size);
  }

  lemma CeilDivSmall(n: nat, size: nat)
    requires 0 < n <= size
    ensures CeilDiv(n, size) == 1
  {
    assert size <= n + size - 1 < 2 * size;
  }

  /**
   * The token chunks: slices of at most `size` tokens, taken from the front
   * until nothing is left. A non-positive size never advances, so it is only
   * meaningful on an empty token sequence.
   */
  function Chunks(tokens: seq<int>, size: int): (chunks: seq<seq<int>>)
    requires size > 0 || tokens == []
    ensures forall k :: 0 <= k < |chunks| ==> 1 <= |chunks[k]| <= size
    ensures forall k :: 0 <= k < |chunks| - 1 ==> |chunks[k]| == size
    ensures size > 0 ==> |chunks| == CeilDiv(|tokens|, size)
    decreases |tokens|
  {
    if tokens == [] then []
    else
      var n := Min(size, |tokens|);
      var rest := Chunks(tokens[n..], size);
      if |tokens| > size then CeilDivStep(|tokens|, size); [tokens[..n]] + rest
      else CeilDivSmall(|tokens|, size); [tokens[..n]] + rest
  }

  /** The chunks, put back together, are the original tokens. */
  lemma {:induction false} ChunksConcat(tokens: seq<int>, size: int)
    requires size > 0 || tokens == []
    ensures Flatten(Chunks(tokens, size)) == tokens
    decreases |tokens|
  {
    if tokens != [] {
      var n := Min(size, |tokens|);
      ChunksConcat(tokens[n..], size);
      assert tokens[..n] + tokens[n..] == tokens;
    }
  }

  /** The decoded text of each chunk, in order. */
  function DecodeAll(decode: seq<int> -> string, chunks: seq<seq<int>>): (texts: seq<string>)
    ensures |texts| == |chunks|
    ensures forall k :: 0 <= k < |chunks| ==> texts[k] == decode(chunks[k])
  {
    seq(|chunks|, k requires 0 <= k < |chunks| => decode(chunks[k]))
  }

  /** The first chunk's text comes first; the rest come from the tokens after it. */
  lemma DecodeFirstChunk(decode: seq<int> -> string, tokens: seq<int>, size: int)
    requires size > 0 && tokens != []
    ensures DecodeAll(decode, Chunks(tokens, size)) ==
            [decode(tokens[..Min(size, |tokens|)])] + DecodeAll(decode, Chunks(tokens[Min(size, |tokens|)..], size))
  {
    var n := Min(size, |tokens|);
    assert Chunks(tokens, size) == [tokens[..n]] + Chunks(tokens[n..], size);
  }

  /** The segments `_split_text` stores for a text. */
  function Segments(enc: Encoding, text: string, size: int): (segs: seq<string>)
    requires size > 0 || enc.encode(text) == []
    ensures segs == [] <==> enc.encode(text) == []
    ensures size > 0 ==> |segs| == CeilDiv(|enc.encode(text)|, size)
  {
    DecodeAll(enc.decode, Chunks(enc.encode(text), size))
  }

  /**
   * When the tokenizer re-encodes every decoded chunk to that chunk, the
   * segments' encodings, concatenated, give back the text's tokens.
   */
  lemma ReencodeSegments(enc: Encoding, text: string, size: int)
    requires size > 0 || enc.encode(text) == []
    requires forall c: seq<int> :: enc.encode(enc.decode(c)) == c
    ensures var segs := Segments(enc, text, size);
            Flatten(seq(|segs|, k requires 0 <= k < |segs| => enc.encode(segs[k]))) == enc.encode(text)
  {
    var chunks := Chunks(enc.encode(text), size);
    var segs := Segments(enc, text, size);
    assert seq(|segs|, k requires 0 <= k < |segs| => enc.encode(segs[k])) == chunks;
    ChunksConcat(enc.encode(text), size);
  }
}
