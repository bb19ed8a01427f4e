/**
 * The pieces of Python's `str` behaviour the flash card pipeline relies on:
 * `isspace`, `split()` with no separator, `' '.join`, `strip()` and `lower()`.
 * Strings are sequences of Unicode scalar values.
 */
module PyStr {

  /** Python's `str.isspace` for one character: the characters `split()` and `strip()` treat as whitespace. */
  predicate IsSpace(c: char)
  {
    var n := c as int;
    (9 <= n <= 13) || (28 <= n <= 32) || n == 0x85 || n == 0xA0 || n == 0x1680 ||
    (0x2000 <= n <= 0x200A) || n == 0x2028 || n == 0x2029 || n == 0x202F ||
    n == 0x205F || n == 0x3000
  }

  /**
   * On ASCII, `isspace` holds of space, tab, newline and carriage return, and of
   * no printable character, so the letters and colon of a marker never split.
   */
  lemma IsSpaceAscii(c: char)
    ensures c == ' ' || c == '\t' || c == '\n' || c == '\r' ==> IsSpace(c)
    ensures '!' <= c <= '~' ==> !IsSpace(c)
  {
  }

  /** No whitespace anywhere in `w`. */
  predicate NoSpace(w: string)
  {
    forall i :: 0 <= i < |w| ==> !IsSpace(w[i])
  }

  /** A word as `split()` produces it: non-empty, without whitespace. */
  predicate IsWord(w: string)
  {
    |w| > 0 && NoSpace(w)
  }

  predicate AllWords(ws: seq<string>)
  {
    forall i :: 0 <= i < |ws| ==> IsWord(ws[i])
  }

  /** The length of the run of non-whitespace characters that starts `s`. */
  function WordLength(s: string): (n: nat)
    ensures n <= |s|
    ensures forall i :: 0 <= i < n ==> !IsSpace(s[i])
    ensures n < |s| ==> IsSpace(s[n])
    decreases |s|
  {
    if s == [] || IsSpace(s[0]) then 0 else 1 + WordLength(s[1..])
  }

  /**
   * `s.split()`: the maximal runs of non-whitespace characters, in order;
   * leading, trailing and repeated whitespace produce no empty words.
   */
  function Split(s: string): (ws: seq<string>)
    ensures AllWords(ws)
    decreases |s|
  {
    if s == [] then []
    else if IsSpace(s[0]) then Split(s[1..])
    else
      var n := WordLength(s);
      [s[..n]] + Split(s[n..])
  }

  /** The number of characters in all of `ws`. */
  function TotalLength(ws: seq<string>): nat
    decreases |ws|
  {
    if ws == [] then 0 else |ws[0]| + TotalLength(ws[1..])
  }

  /** `' '.join(ws)`: the words with exactly one separator between neighbours. */
  function Join(ws: seq<string>): (s: string)
    ensures ws != [] ==> |s| == TotalLength(ws) + |ws| - 1
    decreases |ws|
  {
    if ws == [] then ""
    else if |ws| == 1 then ws[0]
    else ws[0] + " " + Join(ws[1..])
  }

  lemma JoinCons(w: string, ws: seq<string>)
    requires ws != []
    ensures Join([w] + ws) == w + " " + Join(ws)
  {
    assert ([w] + ws)[1..] == ws;
  }

  /** `s.lstrip()`: drops the leading whitespace (see `TrimStartSpec`). */
  function TrimStart(s: string): (r: string)
    ensures |r| <= |s|
    ensures r == [] || !IsSpace(r[0])
    decreases |s|
  {
    if s != [] && IsSpace(s[0]) then TrimStart(s[1..]) else s
  }

  /** `s.rstrip()`: drops the trailing whitespace (see `TrimEndSpec`). */
  function TrimEnd(s: string): (r: string)
    ensures |r| <= |s|
    ensures r == [] || !IsSpace(r[|r| - 1])
    decreases |s|
  {
    if s != [] && IsSpace(s[|s| - 1]) then TrimEnd(s[..|s| - 1]) else s
  }

  /** `s.strip()`: neither end of the result is whitespace (see `StripSpec`). */
  function Strip(s: string): (r: string)
    ensures r == [] || (!IsSpace(r[0]) && !IsSpace(r[|r| - 1]))
  {
    TrimStartSpec(TrimEnd(s));
    TrimStart(TrimEnd(s))
  }

  /** `' '.join(s.split())`: the words of `s` separated by single spaces. */
  function Normalise(s: string): string
  {
    Join(Split(s))
  }

  /**
   * `str.lower` on one character, for the case mappings that can produce an
   * ASCII letter: A-Z, and the Kelvin sign U+212A, which Python lowers to 'k'.
   */
  function LowerChar(c: char): char
  {
    if 'A' <= c <= 'Z' then (c as int + 32) as char
    else if c as int == 0x212A then 'k'
    else c
  }

  /** `s.lower()`: no ASCII capital is left, and uncased characters are kept. */
  function Lower(s: string): (r: string)
    ensures |r| == |s|
    ensures forall i :: 0 <= i < |r| ==> !('A' <= r[i] <= 'Z')
    ensures forall i :: 0 <= i < |s| && !('A' <= s[i] <= 'Z') && s[i] as int != 0x212A ==> r[i] == s[i]
  {
    seq(|s|, i requires 0 <= i < |s| => LowerChar(s[i]))
  }

  /** `lstrip` removes a prefix made only of whitespace, and nothing else. */
  lemma {:induction false} TrimStartSpec(s: string)
    ensures var r := TrimStart(s);
            r == s[|s| - |r|..] && forall i :: 0 <= i < |s| - |r| ==> IsSpace(s[i])
    decreases |s|
  {
    if s != [] && IsSpace(s[0]) {
      TrimStartSpec(s[1..]);
    }
  }

  /** `rstrip` removes a suffix made only of whitespace, and nothing else. */
  lemma {:induction false} TrimEndSpec(s: string)
    ensures var r := TrimEnd(s);
            r == s[..|r|] && forall i :: |r| <= i < |s| ==> IsSpace(s[i])
    decreases |s|
  {
    if s != [] && IsSpace(s[|s| - 1]) {
      TrimEndSpec(s[..|s| - 1]);
    }
  }

  /**
   * `strip` yields the infix of `s` left after removing whitespace from both
   * ends: what it drops is whitespace, and what it keeps neither starts nor
   * ends with whitespace.
   */
  lemma StripSpec(s: string) returns (lo: nat)
    ensures var r := Strip(s);
            lo <= |s| - |r| && r == s[lo..lo + |r|] &&
            (forall i :: 0 <= i < lo ==> IsSpace(s[i])) &&
            (forall i :: lo + |r| <= i < |s| ==> IsSpace(s[i]))
    ensures Strip(s) == [] || (!IsSpace(Strip(s)[0]) && !IsSpace(Strip(s)[|Strip(s)| - 1]))
  {
    var e := TrimEnd(s);
    var r := TrimStart(e);
    TrimEndSpec(s);
    TrimStartSpec(e);
    lo := |e| - |r|;
    assert r == s[lo..lo + |r|];
    assert forall i :: 0 <= i < lo ==> s[i] == e[i];
  }

  // ---------------------------------------------------------------------------
  // Lemmas about split and join
  // ---------------------------------------------------------------------------

  lemma {:induction false} WordLengthConcat(x: string, y: string)
    ensures WordLength(x + y) == if WordLength(x) < |x| then WordLength(x) else |x| + WordLength(y)
    decreases |x|
  {
    if x == [] {
      assert x + y == y;
    } else if !IsSpace(x[0]) {
      assert (x + y)[1..] == x[1..] + y;
      WordLengthConcat(x[1..], y);
    }
  }

  /** Splitting at a whitespace character splits the two sides independently. */
  lemma {:induction false} SplitAtSpace(a: string, c: char, b: string)
    requires IsSpace(c)
    ensures Split(a + [c] + b) == Split(a) + Split(b)
    decreases |a|
  {
    var s := a + [c] + b;
    if a == [] {
      assert s == [c] + b && s[1..] == b;
    } else if IsSpace(a[0]) {
      assert s[1..] == a[1..] + [c] + b;
      SplitAtSpace(a[1..], c, b);
    } else {
      var n := WordLength(a);
      SplitAtSpace(a[n..], c, b);
      SplitAfterWord(a, c, b);
    }
  }

  /** The step of `SplitAtSpace` when `a` starts with a word: that word comes first on both sides. */
  lemma SplitAfterWord(a: string, c: char, b: string)
    requires IsSpace(c) && a != [] && !IsSpace(a[0])
    requires Split(a[WordLength(a)..] + [c] + b) == Split(a[WordLength(a)..]) + Split(b)
    ensures Split(a + [c] + b) == Split(a) + Split(b)
  {
    var s, n := a + [c] + b, WordLength(a);
    WordLengthConcat(a, [c] + b);
    assert s == a + ([c] + b);
    assert s[..n] == a[..n];
    assert s[n..] == a[n..] + [c] + b;
  }

  /** Leading whitespace on the right side separates the two sides. */
  lemma SplitConcatSpaceAfter(a: string, b: string)
    requires b != [] && IsSpace(b[0])
    ensures Split(a + b) == Split(a) + Split(b)
  {
    assert a + b == a + [b[0]] + b[1..];
    SplitAtSpace(a, b[0], b[1..]);
  }

  /** Trailing whitespace on the left side separates the two sides. */
  lemma SplitConcatSpaceBefore(a: string, b: string)
    requires a != [] && IsSpace(a[|a| - 1])
    ensures Split(a + b) == Split(a) + Split(b)
  {
    var a', c := a[..|a| - 1], a[|a| - 1];
    assert a + b == a' + [c] + b;
    assert a == a' + [c] + [];
    SplitAtSpace(a', c, b);
    SplitAtSpace(a', c, []);
  }

  /** A word followed by whitespace is split off as the first word. */
  lemma SplitLeadingWord(w: string, c: char, rest: string)
    requires IsWord(w) && IsSpace(c)
    ensures Split(w + [c] + rest) == [w] + Split(rest)
  {
    SplitAtSpace(w, c, rest);
    SplitWord(w);
  }

  /** A single word splits to itself. */
  lemma SplitWord(w: string)
    requires IsWord(w)
    ensures Split(w) == [w]
  {
    assert WordLength(w) == |w|;
    assert w[..|w|] == w && w[|w|..] == [];
  }

  /** Round trip: splitting the single-space join of words gives the words back. */
  lemma {:induction false} SplitJoin(ws: seq<string>)
    requires AllWords(ws)
    ensures Split(Join(ws)) == ws
    decreases |ws|
  {
    if ws == [] {
    } else if |ws| == 1 {
      SplitWord(ws[0]);
    } else {
      SplitAtSpace(ws[0], ' ', Join(ws[1..]));
      SplitWord(ws[0]);
      SplitJoin(ws[1..]);
      assert ws == [ws[0]] + ws[1..];
    }
  }

  /** The join of words neither starts nor ends with whitespace. */
  lemma {:induction false} JoinEnds(ws: seq<string>)
    requires AllWords(ws) && ws != []
    ensures |Join(ws)| > 0
    ensures Join(ws)[0] == ws[0][0]
    ensures Join(ws)[|Join(ws)| - 1] == ws[|ws| - 1][|ws[|ws| - 1]| - 1]
    decreases |ws|
  {
    if |ws| > 1 {
      var rest := ws[1..];
      JoinEnds(rest);
      var j, t := Join(ws), Join(rest);
      assert j == ws[0] + " " + t;
      assert j[|j| - 1] == t[|t| - 1];
      assert rest[|rest| - 1] == ws[|ws| - 1];
    }
  }

  /** `strip()` leaves the join of words unchanged. */
  lemma StripJoin(ws: seq<string>)
    requires AllWords(ws)
    ensures Strip(Join(ws)) == Join(ws)
  {
    if ws != [] {
      JoinEnds(ws);
    }
  }

  /** A normalised string is a fixed point of `' '.join(s.split())` and of `strip()`. */
  lemma NormaliseIdempotent(s: string)
    ensures Normalise(Normalise(s)) == Normalise(s)
    ensures Strip(Normalise(s)) == Normalise(s)
  {
    SplitJoin(Split(s));
    StripJoin(Split(s));
  }
}
