/** Small sequence helpers shared by the segmenter, the parser and the turn protocol. */
module Seqs {

  function Min(a: int, b: int): (m: int)
    ensures m <= a && m <= b
    ensures m == a || m == b
  {
    if a <= b then a else b
  }

  /** Concatenation of a sequence of sequences, in order (Python's repeated `extend`). */
  function Flatten<T>(ss: seq<seq<T>>): seq<T>
    decreases |ss|
  {
    if ss == [] then [] else ss[0] + Flatten(ss[1..])
  }

  /** The two slices of `pre + [x] + F + [y] + B` that lie after the single elements. */
  lemma PairSlices<T>(pre: seq<T>, x: T, F: seq<T>, y: T, B: seq<T>)
    ensures var s := pre + [x] + F + [y] + B;
            s[|pre| + 1..|pre| + 1 + |F|] == F && s[|pre| + 2 + |F|..] == B
  {
  }

  /** The slices of `[x1] + A + [y1] + B + [x2] + C + [y2] + D` between and after the single elements. */
  lemma TwoPairSlices<T>(x1: T, A: seq<T>, y1: T, B: seq<T>, x2: T, C: seq<T>, y2: T, D: seq<T>)
    ensures var s := [x1] + A + [y1] + B + [x2] + C + [y2] + D;
            var q1 := 1 + |A|;
            var p2 := q1 + 1 + |B|;
            var q2 := p2 + 1 + |C|;
            s[1..q1] == A && s[q1 + 1..] == B + [x2] + C + [y2] + D &&
            s[p2 + 1..q2] == C && s[q2 + 1..] == D
  {
    var s := [x1] + A + [y1] + B + [x2] + C + [y2] + D;
    var q1 := 1 + |A|;
    var tail := B + [x2] + C + [y2] + D;
    assert |s| == q1 + 1 + |tail|;
    forall i | 0 <= i < |tail| ensures s[q1 + 1 + i] == tail[i] { }
    assert s[q1 + 1..] == tail;
  }

  /** Extending the middle of `s + a + [f]` keeps everything before `f`. */
  lemma ExtendMiddle<T>(s: seq<T>, a: seq<T>, b: seq<T>, f: T)
    ensures |s + a + [f]| <= |s + (a + b) + [f]|
    ensures (s + a + [f])[..|s + a|] == (s + (a + b) + [f])[..|s + a|]
  {
    assert (s + a + [f])[..|s + a|] == s + a;
    assert s + (a + b) + [f] == (s + a) + (b + [f]);
  }

  /** A prefix of `b` is a prefix of `b + c`. */
  lemma PrefixOfAppend<T>(a: seq<T>, b: seq<T>, c: seq<T>)
    requires |a| <= |b| && a == b[..|a|]
    ensures |a| <= |b + c| && a == (b + c)[..|a|]
  {
    assert (b + c)[..|a|] == b[..|a|];
  }

  lemma AppendAssoc<T>(a: seq<T>, b: seq<T>, c: seq<T>)
    ensures (a + b) + c == a + (b + c)
  {
  }
}
