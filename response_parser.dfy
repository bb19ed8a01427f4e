/**
 * `_extract_data_from_model_response`: turning the model's free-text reply into
 * flash cards. The reply is split on whitespace, the words equal to "front:" and
 * "back:" (ignoring case) are located, the i-th front marker is paired with the
 * i-th back marker, and each pair becomes a card whose front is the words strictly
 * between the two markers and whose back is every word after the back marker, up
 * to the end of the reply.
 */
module ResponseParser {
  import opened Seqs
  import opened PyStr
  import opened FlashCards

  const FRONT_MARKER: string := "front:"
  const BACK_MARKER: string := "back:"

  /** `word.lower() == m`. */
  predicate IsMarker(w: string, m: string)
  {
    Lower(w) == m
  }

  /** A word that lower-cases to a marker holds no whitespace, so `split()` keeps it whole. */
  lemma MarkerIsWord(w: string, m: string)
    requires m == FRONT_MARKER || m == BACK_MARKER
    requires IsMarker(w, m)
    ensures IsWord(w)
  {
    assert forall j :: 0 <= j < |m| ==> '!' <= m[j] <= '~';
    forall i | 0 <= i < |w|
      ensures !IsSpace(w[i])
    {
      assert Lower(w)[i] == m[i];
      IsSpaceAscii(m[i]);
    }
  }

  /** Some word of `ws` is the marker `m`. */
  predicate HasMarker(ws: seq<string>, m: string)
  {
    exists i :: 0 <= i < |ws| && IsMarker(ws[i], m)
  }

  predicate StrictlyIncreasing(r: seq<nat>)
  {
    forall a, b :: 0 <= a < b < |r| ==> r[a] < r[b]
  }

  /**
   * `[i for i, word in enumerate(words) if word.lower() == m]`: the positions of
   * the marker words, in ascending order, each exactly once.
   */
  function MarkerIndices(ws: seq<string>, m: string): (r: seq<nat>)
    ensures StrictlyIncreasing(r)
    ensures IndicesIn(ws, r)
    decreases |ws|
  {
    if ws == [] then []
    else
      MarkerIndices(ws[..|ws| - 1], m) + (if IsMarker(ws[|ws| - 1], m) then [|ws| - 1] else [])
  }

  /** Every listed position holds a marker word. */
  lemma {:induction false} MarkerIndicesSound(ws: seq<string>, m: string)
    ensures forall k :: 0 <= k < |MarkerIndices(ws, m)| ==> IsMarker(ws[MarkerIndices(ws, m)[k]], m)
    decreases |ws|
  {
    if ws != [] {
      var init := ws[..|ws| - 1];
      MarkerIndicesSound(init, m);
      var r := MarkerIndices(ws, m);
      forall k | 0 <= k < |MarkerIndices(init, m)|
        ensures IsMarker(ws[r[k]], m)
      {
        assert r[k] == MarkerIndices(init, m)[k] && init[r[k]] == ws[r[k]];
      }
    }
  }

  /** No marker word is missed. */
  lemma {:induction false} MarkerIndicesComplete(ws: seq<string>, m: string)
    ensures forall i :: 0 <= i < |ws| && IsMarker(ws[i], m) ==> i in MarkerIndices(ws, m)
    decreases |ws|
  {
    if ws != [] {
      var init := ws[..|ws| - 1];
      MarkerIndicesComplete(init, m);
      forall i | 0 <= i < |ws| - 1 && IsMarker(ws[i], m)
        ensures i in MarkerIndices(ws, m)
      {
        assert init[i] == ws[i];
      }
    }
  }

  /** Number of marker words, counted from the front. */
  function CountMarkers(ws: seq<string>, m: string): nat
    decreases |ws|
  {
    if ws == [] then 0 else (if IsMarker(ws[0], m) then 1 else 0) + CountMarkers(ws[1..], m)
  }

  /** `words[f+1:b]`: the words strictly between the markers; Python's slice is empty when `b <= f + 1`. */
  function Between(ws: seq<string>, f: nat, b: nat): (r: seq<string>)
    requires f < |ws| && b < |ws|
    ensures |r| == if f < b then b - f - 1 else 0
    ensures forall k :: 0 <= k < |r| ==> r[k] == ws[f + 1 + k]
  {
    if f + 1 <= b then ws[f + 1..b] else []
  }

  /** `words[b+1:]`: every word after the back marker, to the end of the reply. */
  function After(ws: seq<string>, b: nat): (r: seq<string>)
    requires b < |ws|
    ensures |r| == |ws| - b - 1
    ensures forall k :: 0 <= k < |r| ==> r[k] == ws[b + 1 + k]
  {
    ws[b + 1..]
  }

  /**
   * The card built from the marker pair at word positions `f` (front) and `b`
   * (back). On the words of a reply the `strip()` changes nothing: each field
   * is exactly its words joined by single spaces.
   */
  function CardAt(ws: seq<string>, f: nat, b: nat, userId: int): (c: FlashCard)
    requires f < |ws| && b < |ws|
    ensures c.userId == userId
    ensures AllWords(ws) ==> c.front == Join(Between(ws, f, b)) && c.back == Join(After(ws, b))
  {
    var c := FlashCard(Strip(Join(Between(ws, f, b))), Strip(Join(After(ws, b))), userId);
    if AllWords(ws) then
      assert AllWords(Between(ws, f, b)) && AllWords(After(ws, b));
      StripJoin(Between(ws, f, b));
      StripJoin(After(ws, b));
      c
    else c
  }

  /** The parser: the reply's whitespace-separated words, then `ParseWords`. Every card belongs to `userId`. */
  function Parse(reply: string, userId: int): (cards: seq<FlashCard>)
    ensures forall k :: 0 <= k < |cards| ==> cards[k].userId == userId
  {
    ParseWords(Split(reply), userId)
  }

  /** The cards of the words `ws` of a reply. */
  function ParseWords(ws: seq<string>, userId: int): seq<FlashCard>
  {
    ZipCards(ws, MarkerIndices(ws, FRONT_MARKER), MarkerIndices(ws, BACK_MARKER), userId)
  }

  predicate IndicesIn(ws: seq<string>, r: seq<nat>)
  {
    forall k :: 0 <= k < |r| ==> r[k] < |ws|
  }

  /** `for front_idx, back_idx in zip(fs, bs)`: one card per pair, stopping at the shorter list. */
  function ZipCards(ws: seq<string>, fs: seq<nat>, bs: seq<nat>, userId: int): (cards: seq<FlashCard>)
    requires IndicesIn(ws, fs) && IndicesIn(ws, bs)
    ensures |cards| == Min(|fs|, |bs|)
    ensures forall k :: 0 <= k < |cards| ==> cards[k].userId == userId
    decreases |fs|
  {
    if fs == [] || bs == [] then []
    else [CardAt(ws, fs[0], bs[0], userId)] + ZipCards(ws, fs[1..], bs[1..], userId)
  }

  /** The i-th card comes from the i-th pair. */
  lemma {:induction false} ZipCardsAt(ws: seq<string>, fs: seq<nat>, bs: seq<nat>, userId: int, i: nat)
    requires IndicesIn(ws, fs) && IndicesIn(ws, bs)
    requires i < |fs| && i < |bs|
    ensures i < |ZipCards(ws, fs, bs, userId)|
    ensures ZipCards(ws, fs, bs, userId)[i] == CardAt(ws, fs[i], bs[i], userId)
    decreases i
  {
    var cards := ZipCards(ws, fs, bs, userId);
    assert cards == [CardAt(ws, fs[0], bs[0], userId)] + ZipCards(ws, fs[1..], bs[1..], userId);
    if i > 0 {
      ZipCardsAt(ws, fs[1..], bs[1..], userId, i - 1);
      assert fs[1..][i - 1] == fs[i] && bs[1..][i - 1] == bs[i];
    }
  }

  /** `cards` holds the card of each of the first `|cards|` index pairs, in order. */
  predicate PairCards(ws: seq<string>, fs: seq<nat>, bs: seq<nat>, userId: int, cards: seq<FlashCard>)
    requires IndicesIn(ws, fs) && IndicesIn(ws, bs)
  {
    |cards| <= |fs| && |cards| <= |bs| &&
    forall t :: 0 <= t < |cards| ==> cards[t] == CardAt(ws, fs[t], bs[t], userId)
  }

  /** The loop step of the zip: the next pair's card goes at the end. */
  lemma PairCardsNext(ws: seq<string>, fs: seq<nat>, bs: seq<nat>, userId: int, cards: seq<FlashCard>)
    requires IndicesIn(ws, fs) && IndicesIn(ws, bs)
    requires PairCards(ws, fs, bs, userId, cards)
    requires |cards| < |fs| && |cards| < |bs|
    ensures PairCards(ws, fs, bs, userId, cards + [CardAt(ws, fs[|cards|], bs[|cards|], userId)])
  {
    var k := |cards|;
    var next := cards + [CardAt(ws, fs[k], bs[k], userId)];
    forall t | 0 <= t < k + 1
      ensures next[t] == CardAt(ws, fs[t], bs[t], userId)
    {
      if t < k {
        assert next[t] == cards[t];
      }
    }
  }

  /** Cards for as many pairs as `zip` makes are `ZipCards`. */
  lemma ZipCardsFromPairs(ws: seq<string>, fs: seq<nat>, bs: seq<nat>, userId: int, cards: seq<FlashCard>)
    requires IndicesIn(ws, fs) && IndicesIn(ws, bs)
    requires PairCards(ws, fs, bs, userId, cards)
    requires |cards| == Min(|fs|, |bs|)
    ensures cards == ZipCards(ws, fs, bs, userId)
  {
    forall t | 0 <= t < |cards|
      ensures cards[t] == ZipCards(ws, fs, bs, userId)[t]
    {
      ZipCardsAt(ws, fs, bs, userId, t);
    }
  }

  lemma ZipOneCard(ws: seq<string>, userId: int, p: nat, q: nat)
    requires p < |ws| && q < |ws|
    ensures ZipCards(ws, [p], [q], userId) == [CardAt(ws, p, q, userId)]
  {
    assert [p][1..] == [] && [q][1..] == [];
  }

  lemma ZipTwoCards(ws: seq<string>, userId: int, p1: nat, q1: nat, p2: nat, q2: nat)
    requires p1 < |ws| && q1 < |ws| && p2 < |ws| && q2 < |ws|
    ensures ZipCards(ws, [p1, p2], [q1, q2], userId) == [CardAt(ws, p1, q1, userId), CardAt(ws, p2, q2, userId)]
  {
    assert [p1, p2][1..] == [p2] && [q1, q2][1..] == [q2];
    ZipOneCard(ws, userId, p2, q2);
  }

  lemma ParseWordsOneCard(ws: seq<string>, userId: int, p: nat, q: nat)
    requires MarkerIndices(ws, FRONT_MARKER) == [p] && MarkerIndices(ws, BACK_MARKER) == [q]
    ensures p < |ws| && q < |ws|
    ensures ParseWords(ws, userId) == [CardAt(ws, p, q, userId)]
  {
    var fs, bs := MarkerIndices(ws, FRONT_MARKER), MarkerIndices(ws, BACK_MARKER);
    assert fs[0] == p && bs[0] == q;
    ZipOneCard(ws, userId, p, q);
  }

  lemma ParseWordsTwoCards(ws: seq<string>, userId: int, p1: nat, q1: nat, p2: nat, q2: nat)
    requires MarkerIndices(ws, FRONT_MARKER) == [p1, p2] && MarkerIndices(ws, BACK_MARKER) == [q1, q2]
    ensures p1 < |ws| && q1 < |ws| && p2 < |ws| && q2 < |ws|
    ensures ParseWords(ws, userId) == [CardAt(ws, p1, q1, userId), CardAt(ws, p2, q2, userId)]
  {
    var fs, bs := MarkerIndices(ws, FRONT_MARKER), MarkerIndices(ws, BACK_MARKER);
    assert fs[0] == p1 && fs[1] == p2 && bs[0] == q1 && bs[1] == q2;
    ZipTwoCards(ws, userId, p1, q1, p2, q2);
  }

  // ---------------------------------------------------------------------------
  // The marker enumeration is determined by the set of marker positions
  // ---------------------------------------------------------------------------

  /** Two strictly increasing sequences with the same elements are equal. */
  lemma {:induction false} StrictlyIncreasingUnique(r: seq<nat>, q: seq<nat>)
    requires StrictlyIncreasing(r) && StrictlyIncreasing(q)
    requires forall x :: x in r <==> x in q
    ensures r == q
    decreases |r| + |q|
  {
    if r != [] { assert r[0] in q; }
    if q != [] { assert q[0] in r; }
    if r != [] && q != [] {
      SameLeast(r, q);
      SameTails(r, q);
      StrictlyIncreasingUnique(r[1..], q[1..]);
      assert r == [r[0]] + r[1..] && q == [q[0]] + q[1..];
    }
  }

  /** Both start with the least element. */
  lemma SameLeast(r: seq<nat>, q: seq<nat>)
    requires StrictlyIncreasing(r) && StrictlyIncreasing(q) && r != [] && q != []
    requires forall x :: x in r <==> x in q
    ensures r[0] == q[0]
  {
    assert r[0] in q && q[0] in r;
    var i :| 0 <= i < |q| && q[i] == r[0];
    var j :| 0 <= j < |r| && r[j] == q[0];
    assert r[0] <= r[j] && q[0] <= q[i];
  }

  /** With the same first element, the tails have the same elements too. */
  lemma SameTails(r: seq<nat>, q: seq<nat>)
    requires StrictlyIncreasing(r) && StrictlyIncreasing(q) && r != [] && q != [] && r[0] == q[0]
    requires forall x :: x in r <==> x in q
    ensures forall x :: x in r[1..] <==> x in q[1..]
  {
    forall x
      ensures x in r[1..] <==> x in q[1..]
    {
      if x in r[1..] {
        var i :| 1 <= i < |r| && r[i] == x;
        assert x in q && x != q[0];
      }
      if x in q[1..] {
        var i :| 1 <= i < |q| && q[i] == x;
        assert x in r && x != r[0];
      }
    }
  }

  /** Any strictly increasing enumeration of exactly the marker positions is `MarkerIndices`. */
  lemma MarkerIndicesFrom(ws: seq<string>, m: string, r: seq<nat>)
    requires StrictlyIncreasing(r) && IndicesIn(ws, r)
    requires forall i :: 0 <= i < |ws| ==> (IsMarker(ws[i], m) <==> i in r)
    ensures MarkerIndices(ws, m) == r
  {
    MarkerIndicesSound(ws, m);
    MarkerIndicesComplete(ws, m);
    StrictlyIncreasingUnique(MarkerIndices(ws, m), r);
  }

  lemma {:induction false} CountMarkersAppend(ws: seq<string>, w: string, m: string)
    ensures CountMarkers(ws + [w], m) == CountMarkers(ws, m) + (if IsMarker(w, m) then 1 else 0)
    decreases |ws|
  {
    if ws == [] {
      assert [w][1..] == [];
    } else {
      assert (ws + [w])[1..] == ws[1..] + [w];
      CountMarkersAppend(ws[1..], w, m);
    }
  }

  /** One index per marker word. */
  lemma {:induction false} MarkerIndicesCount(ws: seq<string>, m: string)
    ensures |MarkerIndices(ws, m)| == CountMarkers(ws, m)
    decreases |ws|
  {
    if ws != [] {
      var init := ws[..|ws| - 1];
      MarkerIndicesCount(init, m);
      CountMarkersAppend(init, ws[|ws| - 1], m);
      assert init + [ws[|ws| - 1]] == ws;
    }
  }

  // ---------------------------------------------------------------------------
  // What the parser promises
  // ---------------------------------------------------------------------------

  /** As many cards as the smaller of the two marker counts. */
  lemma ParseCount(reply: string, userId: int)
    ensures |Parse(reply, userId)| ==
            Min(CountMarkers(Split(reply), FRONT_MARKER), CountMarkers(Split(reply), BACK_MARKER))
  {
    MarkerIndicesCount(Split(reply), FRONT_MARKER);
    MarkerIndicesCount(Split(reply), BACK_MARKER);
  }

  /** A reply without a front marker, or without a back marker, gives no cards and no error. */
  lemma ParseWithoutMarkers(reply: string, userId: int)
    requires !HasMarker(Split(reply), FRONT_MARKER) || !HasMarker(Split(reply), BACK_MARKER)
    ensures Parse(reply, userId) == []
  {
    var ws := Split(reply);
    var fs := MarkerIndices(ws, FRONT_MARKER);
    var bs := MarkerIndices(ws, BACK_MARKER);
    MarkerIndicesSound(ws, FRONT_MARKER);
    MarkerIndicesSound(ws, BACK_MARKER);
    if fs != [] {
      assert IsMarker(ws[fs[0]], FRONT_MARKER);
    }
    if bs != [] {
      assert IsMarker(ws[bs[0]], BACK_MARKER);
    }
  }

  /**
   * What a card made from the marker pair at `f` (front) and `b` (back) holds:
   * its front is exactly the words strictly between the markers (none when the
   * back marker comes first), its back is every word after the back marker to
   * the end of the reply, both fields are single-space-joined with no
   * surrounding whitespace, and the card belongs to `userId`.
   */
  predicate CardFromPair(c: FlashCard, ws: seq<string>, f: nat, b: nat, userId: int)
    requires f < |ws| && b < |ws|
  {
    c.front == Join(Between(ws, f, b)) && c.back == Join(After(ws, b)) &&
    Split(c.front) == Between(ws, f, b) &&
    (f < b ==> Split(c.front) == ws[f + 1..b]) &&
    (b <= f ==> c.front == "") &&
    Split(c.back) == After(ws, b) &&
    Strip(c.front) == c.front && Strip(c.back) == c.back &&
    c.userId == userId
  }

  lemma CardAtFields(ws: seq<string>, f: nat, b: nat, userId: int)
    requires AllWords(ws) && f < |ws| && b < |ws|
    ensures CardFromPair(CardAt(ws, f, b, userId), ws, f, b, userId)
  {
    var frontWords := Between(ws, f, b);
    var backWords := After(ws, b);
    assert AllWords(frontWords) && AllWords(backWords);
    StripJoin(frontWords);
    StripJoin(backWords);
    SplitJoin(frontWords);
    SplitJoin(backWords);
  }

  /**
   * The i-th card comes from the i-th front marker and the i-th back marker
   * of the reply's words, as `CardFromPair` describes.
   */
  lemma ParseCard(reply: string, userId: int, i: nat)
    requires i < |Parse(reply, userId)|
    ensures var ws := Split(reply);
            var f := MarkerIndices(ws, FRONT_MARKER)[i];
            var b := MarkerIndices(ws, BACK_MARKER)[i];
            f < |ws| && b < |ws| &&
            IsMarker(ws[f], FRONT_MARKER) && IsMarker(ws[b], BACK_MARKER) &&
            CardFromPair(Parse(reply, userId)[i], ws, f, b, userId)
  {
    var ws := Split(reply);
    var fs := MarkerIndices(ws, FRONT_MARKER);
    var bs := MarkerIndices(ws, BACK_MARKER);
    assert i < |fs| && i < |bs|;
    var f, b := fs[i], bs[i];
    MarkerIndicesSound(ws, FRONT_MARKER);
    MarkerIndicesSound(ws, BACK_MARKER);
    ZipCardsAt(ws, fs, bs, userId, i);
    CardAtFields(ws, f, b, userId);
  }

  // ---------------------------------------------------------------------------
  // Replies of a known shape
  // ---------------------------------------------------------------------------

  /** No word of `ws` is a front or a back marker. */
  predicate NoMarkers(ws: seq<string>)
  {
    forall i :: 0 <= i < |ws| ==> !IsMarker(ws[i], FRONT_MARKER) && !IsMarker(ws[i], BACK_MARKER)
  }

  /** A word that is one marker is never the other. */
  lemma MarkersDistinct(w: string)
    ensures !(IsMarker(w, FRONT_MARKER) && IsMarker(w, BACK_MARKER))
  {
  }

  /** The markers in a word list of the shape `pre front: F back: B`. */
  lemma {:induction false} PairMarkers(pre: seq<string>, fm: string, F: seq<string>, bm: string, B: seq<string>)
    requires NoMarkers(pre) && NoMarkers(F) && NoMarkers(B)
    requires IsMarker(fm, FRONT_MARKER) && IsMarker(bm, BACK_MARKER)
    ensures var ws := pre + [fm] + F + [bm] + B;
            MarkerIndices(ws, FRONT_MARKER) == [|pre|] &&
            MarkerIndices(ws, BACK_MARKER) == [|pre| + 1 + |F|]
  {
    var ws := pre + [fm] + F + [bm] + B;
    var p, q := |pre|, |pre| + 1 + |F|;
    forall i | 0 <= i < |ws|
      ensures IsMarker(ws[i], FRONT_MARKER) <==> i in [p]
      ensures IsMarker(ws[i], BACK_MARKER) <==> i in [q]
    {
      if i < p {
        assert ws[i] == pre[i];
      } else if i == p {
        assert ws[i] == fm;
        MarkersDistinct(fm);
      } else if i < q {
        assert ws[i] == F[i - p - 1];
      } else if i == q {
        assert ws[i] == bm;
        MarkersDistinct(bm);
      } else {
        assert ws[i] == B[i - q - 1];
      }
    }
    MarkerIndicesFrom(ws, FRONT_MARKER, [p]);
    MarkerIndicesFrom(ws, BACK_MARKER, [q]);
  }

  lemma AllWordsSlice(ws: seq<string>, lo: nat, hi: nat)
    requires AllWords(ws) && lo <= hi <= |ws|
    ensures AllWords(ws[lo..hi])
  {
    forall i | 0 <= i < hi - lo ensures IsWord(ws[lo..hi][i]) { assert ws[lo..hi][i] == ws[lo + i]; }
  }

  /** The word-level half of `ParseSinglePair`. */
  lemma ParseWordsSinglePair(ws: seq<string>, userId: int, pre: seq<string>, fm: string, F: seq<string>, bm: string, B: seq<string>)
    requires ws == pre + [fm] + F + [bm] + B
    requires AllWords(F) && AllWords(B)
    requires NoMarkers(pre) && NoMarkers(F) && NoMarkers(B)
    requires IsMarker(fm, FRONT_MARKER) && IsMarker(bm, BACK_MARKER)
    ensures ParseWords(ws, userId) == [FlashCard(Join(F), Join(B), userId)]
  {
    var p, q := |pre|, |pre| + 1 + |F|;
    PairMarkers(pre, fm, F, bm, B);
    ParseWordsOneCard(ws, userId, p, q);
    PairSlices(pre, fm, F, bm, B);
    StripJoin(F);
    StripJoin(B);
  }

  /**
   * A reply whose words are `pre front: F back: B`, with no other marker word,
   * parses to exactly one card: front `F` and back `B`, single-space-joined.
   */
  lemma ParseSinglePair(reply: string, userId: int, pre: seq<string>, fm: string, F: seq<string>, bm: string, B: seq<string>)
    requires Split(reply) == pre + [fm] + F + [bm] + B
    requires NoMarkers(pre) && NoMarkers(F) && NoMarkers(B)
    requires IsMarker(fm, FRONT_MARKER) && IsMarker(bm, BACK_MARKER)
    ensures Parse(reply, userId) == [FlashCard(Join(F), Join(B), userId)]
  {
    var ws := Split(reply);
    var p, q := |pre|, |pre| + 1 + |F|;
    assert ws[p + 1..q] == F && ws[q + 1..] == B;
    AllWordsSlice(ws, p + 1, q);
    AllWordsSlice(ws, q + 1, |ws|);
    ParseWordsSinglePair(ws, userId, pre, fm, F, bm, B);
  }

  /** The markers in a word list of the shape `front: A back: B front: C back: D`. */
  lemma TwoPairMarkers(fm1: string, A: seq<string>, bm1: string, B: seq<string>,
                       fm2: string, C: seq<string>, bm2: string, D: seq<string>)
    requires NoMarkers(A) && NoMarkers(B) && NoMarkers(C) && NoMarkers(D)
    requires IsMarker(fm1, FRONT_MARKER) && IsMarker(bm1, BACK_MARKER)
    requires IsMarker(fm2, FRONT_MARKER) && IsMarker(bm2, BACK_MARKER)
    ensures var ws := [fm1] + A + [bm1] + B + [fm2] + C + [bm2] + D;
            var q1 := 1 + |A|;
            var p2 := q1 + 1 + |B|;
            var q2 := p2 + 1 + |C|;
            MarkerIndices(ws, FRONT_MARKER) == [0, p2] &&
            MarkerIndices(ws, BACK_MARKER) == [q1, q2]
  {
    var ws := [fm1] + A + [bm1] + B + [fm2] + C + [bm2] + D;
    var q1 := 1 + |A|;
    var p2 := q1 + 1 + |B|;
    var q2 := p2 + 1 + |C|;
    forall i | 0 <= i < |ws|
      ensures IsMarker(ws[i], FRONT_MARKER) <==> i == 0 || i == p2
      ensures IsMarker(ws[i], BACK_MARKER) <==> i == q1 || i == q2
    {
      TwoPairWord(fm1, A, bm1, B, fm2, C, bm2, D, i);
    }
    TwoMarkers(ws, FRONT_MARKER, 0, p2);
    TwoMarkers(ws, BACK_MARKER, q1, q2);
  }

  /** Marker words at exactly two positions. */
  lemma TwoMarkers(ws: seq<string>, m: string, a: nat, b: nat)
    requires a < b < |ws|
    requires forall i :: 0 <= i < |ws| ==> (IsMarker(ws[i], m) <==> i == a || i == b)
    ensures MarkerIndices(ws, m) == [a, b]
  {
    var r := [a, b];
    assert StrictlyIncreasing(r) && IndicesIn(ws, r);
    forall i | 0 <= i < |ws|
      ensures IsMarker(ws[i], m) <==> i in r
    {
      assert i in r <==> i == a || i == b;
    }
    MarkerIndicesFrom(ws, m, r);
  }

  /** Which marker, if any, the `i`-th word of `front: A back: B front: C back: D` is. */
  lemma TwoPairWord(fm1: string, A: seq<string>, bm1: string, B: seq<string>,
                    fm2: string, C: seq<string>, bm2: string, D: seq<string>, i: nat)
    requires NoMarkers(A) && NoMarkers(B) && NoMarkers(C) && NoMarkers(D)
    requires IsMarker(fm1, FRONT_MARKER) && IsMarker(bm1, BACK_MARKER)
    requires IsMarker(fm2, FRONT_MARKER) && IsMarker(bm2, BACK_MARKER)
    requires i < |[fm1] + A + [bm1] + B + [fm2] + C + [bm2] + D|
    ensures var ws := [fm1] + A + [bm1] + B + [fm2] + C + [bm2] + D;
            var q1 := 1 + |A|;
            var p2 := q1 + 1 + |B|;
            var q2 := p2 + 1 + |C|;
            (IsMarker(ws[i], FRONT_MARKER) <==> i == 0 || i == p2) &&
            (IsMarker(ws[i], BACK_MARKER) <==> i == q1 || i == q2)
  {
    var ws := [fm1] + A + [bm1] + B + [fm2] + C + [bm2] + D;
    var q1 := 1 + |A|;
    var p2 := q1 + 1 + |B|;
    var q2 := p2 + 1 + |C|;
    if i == 0 {
      MarkersDistinct(fm1);
    } else if i < q1 {
      assert ws[i] == A[i - 1];
    } else if i == q1 {
      MarkersDistinct(bm1);
    } else if i < p2 {
      assert ws[i] == B[i - q1 - 1];
    } else if i == p2 {
      MarkersDistinct(fm2);
    } else if i < q2 {
      assert ws[i] == C[i - p2 - 1];
    } else if i == q2 {
      MarkersDistinct(bm2);
    } else {
      assert ws[i] == D[i - q2 - 1];
    }
  }

  /**
   * Two marker pairs give two cards, and the first card's back runs on to the end
   * of the reply: it holds the second card's markers and text as well.
   */
  lemma ParseWordsTwoPairs(userId: int, fm1: string, A: seq<string>, bm1: string, B: seq<string>,
                           fm2: string, C: seq<string>, bm2: string, D: seq<string>)
    requires AllWords(A) && AllWords(B) && AllWords(C) && AllWords(D)
    requires NoMarkers(A) && NoMarkers(B) && NoMarkers(C) && NoMarkers(D)
    requires IsMarker(fm1, FRONT_MARKER) && IsMarker(bm1, BACK_MARKER)
    requires IsMarker(fm2, FRONT_MARKER) && IsMarker(bm2, BACK_MARKER)
    ensures ParseWords([fm1] + A + [bm1] + B + [fm2] + C + [bm2] + D, userId) ==
            [FlashCard(Join(A), Join(B + [fm2] + C + [bm2] + D), userId),
             FlashCard(Join(C), Join(D), userId)]
  {
    var ws := [fm1] + A + [bm1] + B + [fm2] + C + [bm2] + D;
    var q1 := 1 + |A|;
    var p2 := q1 + 1 + |B|;
    var q2 := p2 + 1 + |C|;
    var tail := B + [fm2] + C + [bm2] + D;
    TwoPairMarkers(fm1, A, bm1, B, fm2, C, bm2, D);
    TwoPairSlices(fm1, A, bm1, B, fm2, C, bm2, D);
    MarkerIsWord(fm2, FRONT_MARKER);
    MarkerIsWord(bm2, BACK_MARKER);
    TailWords(B, fm2, C, bm2, D);
    ParseWordsTwoSlices(ws, userId, q1, p2, q2, A, tail, C, D);
  }

  /** `ParseWordsTwoPairs` for any word list whose markers and slices are known. */
  lemma ParseWordsTwoSlices(ws: seq<string>, userId: int, q1: nat, p2: nat, q2: nat,
                            A: seq<string>, tail: seq<string>, C: seq<string>, D: seq<string>)
    requires MarkerIndices(ws, FRONT_MARKER) == [0, p2] && MarkerIndices(ws, BACK_MARKER) == [q1, q2]
    requires 0 < q1 < p2 < q2 < |ws|
    requires ws[1..q1] == A && ws[q1 + 1..] == tail && ws[p2 + 1..q2] == C && ws[q2 + 1..] == D
    requires AllWords(A) && AllWords(tail) && AllWords(C) && AllWords(D)
    ensures ParseWords(ws, userId) == [FlashCard(Join(A), Join(tail), userId), FlashCard(Join(C), Join(D), userId)]
  {
    ParseWordsTwoCards(ws, userId, 0, q1, p2, q2);
    CardOfWords(ws, 0, q1, userId, A, tail);
    CardOfWords(ws, p2, q2, userId, C, D);
  }

  lemma TailWords(B: seq<string>, fm2: string, C: seq<string>, bm2: string, D: seq<string>)
    requires AllWords(B) && AllWords(C) && AllWords(D) && IsWord(fm2) && IsWord(bm2)
    ensures AllWords(B + [fm2] + C + [bm2] + D)
  {
    var tail := B + [fm2] + C + [bm2] + D;
    forall i | 0 <= i < |tail| ensures IsWord(tail[i]) {
      if i < |B| { assert tail[i] == B[i]; }
      else if i == |B| { assert tail[i] == fm2; }
      else if i < |B| + 1 + |C| { assert tail[i] == C[i - |B| - 1]; }
      else if i == |B| + 1 + |C| { assert tail[i] == bm2; }
      else { assert tail[i] == D[i - |B| - 2 - |C|]; }
    }
  }

  /** The card of a marker pair whose front and back slices are known word lists. */
  lemma CardOfWords(ws: seq<string>, f: nat, b: nat, userId: int, F: seq<string>, Bk: seq<string>)
    requires f < |ws| && b < |ws|
    requires Between(ws, f, b) == F && After(ws, b) == Bk
    requires AllWords(F) && AllWords(Bk)
    ensures CardAt(ws, f, b, userId) == FlashCard(Join(F), Join(Bk), userId)
  {
    StripJoin(F);
    StripJoin(Bk);
  }

  /**
   * A back marker before the first front marker: the pair's front slice is empty,
   * so the card has an empty front and a back running to the end of the reply.
   */
  lemma BackFirstMarkers(bm: string, X: seq<string>, fm: string, Y: seq<string>)
    requires NoMarkers(X) && NoMarkers(Y)
    requires IsMarker(bm, BACK_MARKER) && IsMarker(fm, FRONT_MARKER)
    ensures var ws := [bm] + X + [fm] + Y;
            MarkerIndices(ws, FRONT_MARKER) == [1 + |X|] && MarkerIndices(ws, BACK_MARKER) == [0]
  {
    var ws := [bm] + X + [fm] + Y;
    var p := 1 + |X|;
    forall i | 0 <= i < |ws|
      ensures IsMarker(ws[i], FRONT_MARKER) <==> i == p
      ensures IsMarker(ws[i], BACK_MARKER) <==> i == 0
    {
      if i == 0 {
        MarkersDistinct(bm);
      } else if i < p {
        assert ws[i] == X[i - 1];
      } else if i == p {
        MarkersDistinct(fm);
      } else {
        assert ws[i] == Y[i - p - 1];
      }
    }
    MarkerIndicesFrom(ws, FRONT_MARKER, [p]);
    MarkerIndicesFrom(ws, BACK_MARKER, [0]);
  }

  /**
   * A back marker before the first front marker: the pair's front slice is empty,
   * so the card has an empty front and a back running to the end of the reply.
   */
  lemma ParseWordsBackFirst(userId: int, bm: string, X: seq<string>, fm: string, Y: seq<string>)
    requires AllWords(X) && AllWords(Y)
    requires NoMarkers(X) && NoMarkers(Y)
    requires IsMarker(bm, BACK_MARKER) && IsMarker(fm, FRONT_MARKER)
    ensures ParseWords([bm] + X + [fm] + Y, userId) == [FlashCard("", Join(X + [fm] + Y), userId)]
  {
    MarkerIsWord(fm, FRONT_MARKER);
    var ws := [bm] + X + [fm] + Y;
    var p := 1 + |X|;
    var tail := X + [fm] + Y;
    BackFirstMarkers(bm, X, fm, Y);
    ParseWordsOneCard(ws, userId, p, 0);
    assert ws[1..] == tail by {
      forall i | 0 <= i < |tail| ensures ws[1 + i] == tail[i] { }
    }
    assert AllWords(tail) by {
      forall i | 0 <= i < |tail| ensures IsWord(tail[i]) {
        if i < |X| { assert tail[i] == X[i]; }
        else if i == |X| { assert tail[i] == fm; }
        else { assert tail[i] == Y[i - |X| - 1]; }
      }
    }
    StripJoin(tail);
    assert Between(ws, p, 0) == [] && After(ws, 0) == tail;
    assert CardAt(ws, p, 0, userId) == FlashCard("", Join(tail), userId);
  }

  // ---------------------------------------------------------------------------
  // Round trip with get_prompt_text
  // ---------------------------------------------------------------------------

  lemma SplitFrontLabel()
    ensures Split("Front: ") == ["Front:"]
  {
    assert "Front: " == "Front:" + [' '] + "";
    assert IsWord("Front:");
    SplitLeadingWord("Front:", ' ', "");
  }

  lemma SplitCardLine()
    ensures Split("Card\nFront: ") == ["Card"] + Split("Front: ")
  {
    assert "Card\nFront: " == "Card" + ['\n'] + "Front: ";
    assert IsWord("Card");
    SplitLeadingWord("Card", '\n', "Front: ");
  }

  lemma SplitFlashLine()
    ensures Split("Flash Card\nFront: ") == ["Flash"] + Split("Card\nFront: ")
  {
    assert "Flash Card\nFront: " == "Flash" + [' '] + "Card\nFront: ";
    assert IsWord("Flash");
    SplitLeadingWord("Flash", ' ', "Card\nFront: ");
  }

  /** The words of the fixed text before a card's front. */
  lemma SplitPromptHead()
    ensures Split("Flash Card\nFront: ") == ["Flash", "Card"] + ["Front:"]
  {
    SplitFrontLabel();
    SplitCardLine();
    SplitFlashLine();
  }

  /** The words of the fixed text between a card's front and its back. */
  lemma SplitPromptMiddle()
    ensures Split(" \nBack: ") == ["Back:"]
  {
    assert " \nBack: "[1..] == "\nBack: ";
    assert "\nBack: "[1..] == "Back: ";
    assert "Back: " == "Back:" + [' '] + "";
    assert IsWord("Back:");
    SplitLeadingWord("Back:", ' ', "");
  }

  /** The words of a card's prompt text. */
  lemma SplitPromptText(c: FlashCard)
    ensures Split(PromptText(c)) == ["Flash", "Card"] + ["Front:"] + Split(c.front) + ["Back:"] + Split(c.back)
  {
    var h, m := "Flash Card\nFront: ", " \nBack: ";
    assert PromptText(c) == h + c.front + m + c.back;
    SplitConcatSpaceBefore(h + c.front + m, c.back);
    SplitConcatSpaceAfter(h + c.front, m);
    SplitConcatSpaceBefore(h, c.front);
    SplitPromptHead();
    SplitPromptMiddle();
  }

  /**
   * Parsing a card's prompt text gives back that one card, with its front and
   * back whitespace-normalised and its owner kept, provided neither field
   * contains a word that reads as a marker.
   */
  lemma PromptTextRoundTrip(c: FlashCard)
    requires NoMarkers(Split(c.front)) && NoMarkers(Split(c.back))
    ensures Parse(PromptText(c), c.userId) == [FlashCard(Normalise(c.front), Normalise(c.back), c.userId)]
  {
    SplitPromptText(c);
    MarkerLabels();
    assert NoMarkers(["Flash", "Card"]) by {
      assert Lower("Flash")[0] == 'f' && Lower("Flash") != FRONT_MARKER && Lower("Flash") != BACK_MARKER;
      assert Lower("Card") != FRONT_MARKER && Lower("Card") != BACK_MARKER;
    }
    ParseSinglePair(PromptText(c), c.userId, ["Flash", "Card"], "Front:", Split(c.front), "Back:", Split(c.back));
  }

  /** For a card whose fields are already normalised the round trip is exact. */
  lemma PromptTextRoundTripExact(c: FlashCard)
    requires NoMarkers(Split(c.front)) && NoMarkers(Split(c.back))
    requires Normalise(c.front) == c.front && Normalise(c.back) == c.back
    ensures Parse(PromptText(c), c.userId) == [c]
  {
    PromptTextRoundTrip(c);
  }

  // ---------------------------------------------------------------------------
  // A reply with two cards in it
  // ---------------------------------------------------------------------------

  /** The capitalised labels the prompt text uses are markers. */
  lemma MarkerLabels()
    ensures IsMarker("Front:", FRONT_MARKER) && IsMarker("Back:", BACK_MARKER)
  {
  }

  /** Joining three words in front of more words. */
  lemma JoinThreeCons(a: string, b: string, c: string, rest: seq<string>)
    requires rest != []
    ensures Join([a, b, c] + rest) == a + " " + b + " " + c + " " + Join(rest)
  {
    JoinCons(c, rest);
    JoinCons(b, [c] + rest);
    JoinCons(a, [b] + ([c] + rest));
    assert [a, b, c] + rest == [a] + ([b] + ([c] + rest));
  }

  /** The text of the two-card reply, put together from its first three words and the rest. */
  lemma TwoCardReplyText(rest: string)
    requires rest == "B Front: C Back: D"
    ensures "Front:" + " " + "A" + " " + "Back:" + " " + rest == "Front: A Back: B Front: C Back: D"
  {
  }

  lemma JoinTwoCardReply(ws: seq<string>)
    requires ws == ["Front:", "A", "Back:", "B", "Front:", "C", "Back:", "D"]
    ensures Join(ws) == "Front: A Back: B Front: C Back: D"
  {
    var tail := ["B"] + ["Front:"] + ["C"] + ["Back:"] + ["D"];
    JoinTwoCardTail();
    JoinThreeCons("Front:", "A", "Back:", tail);
    assert ws == ["Front:", "A", "Back:"] + tail;
    TwoCardReplyText("B Front: C Back: D");
  }

  lemma TwoCardReplyWords(ws: seq<string>)
    requires ws == ["Front:", "A", "Back:", "B", "Front:", "C", "Back:", "D"]
    ensures AllWords(ws)
    ensures ws == ["Front:"] + ["A"] + ["Back:"] + ["B"] + ["Front:"] + ["C"] + ["Back:"] + ["D"]
  {
    assert IsWord("Front:") && IsWord("Back:");
  }

  lemma SplitTwoCardReply(reply: string)
    requires reply == "Front: A Back: B Front: C Back: D"
    ensures Split(reply) == ["Front:"] + ["A"] + ["Back:"] + ["B"] + ["Front:"] + ["C"] + ["Back:"] + ["D"]
  {
    var ws := ["Front:", "A", "Back:", "B", "Front:", "C", "Back:", "D"];
    JoinTwoCardReply(ws);
    TwoCardReplyWords(ws);
    SplitJoin(ws);
  }

  lemma JoinTwoCardTail()
    ensures Join(["B"] + ["Front:"] + ["C"] + ["Back:"] + ["D"]) == "B Front: C Back: D"
  {
    JoinFive("B", "Front:", "C", "Back:", "D");
    assert "B" + " " + "Front:" + " " + "C" + " " + "Back:" + " " + "D" == "B Front: C Back: D";
  }

  lemma JoinFive(a: string, b: string, c: string, d: string, e: string)
    ensures Join([a] + [b] + [c] + [d] + [e]) == a + " " + b + " " + c + " " + d + " " + e
  {
    JoinThreeCons(a, b, c, [d, e]);
    JoinCons(d, [e]);
    assert [a] + [b] + [c] + [d] + [e] == [a, b, c] + [d, e];
    assert [d, e] == [d] + [e];
  }

  lemma SingleLetterWords()
    ensures NoMarkers(["A"]) && NoMarkers(["B"]) && NoMarkers(["C"]) && NoMarkers(["D"])
    ensures AllWords(["A"]) && AllWords(["B"]) && AllWords(["C"]) && AllWords(["D"])
    ensures Join(["A"]) == "A" && Join(["C"]) == "C" && Join(["D"]) == "D"
  {
  }

  /**
   * "Front: A Back: B Front: C Back: D" gives two cards, and the first card's
   * back is "B Front: C Back: D": the back text runs to the end of the reply.
   */
  lemma ParseTwoCardReply(reply: string, userId: int)
    requires reply == "Front: A Back: B Front: C Back: D"
    ensures Parse(reply, userId) == [FlashCard("A", "B Front: C Back: D", userId), FlashCard("C", "D", userId)]
  {
    SplitTwoCardReply(reply);
    MarkerLabels();
    SingleLetterWords();
    ParseWordsTwoPairs(userId, "Front:", ["A"], "Back:", ["B"], "Front:", ["C"], "Back:", ["D"]);
    JoinTwoCardTail();
  }
}
