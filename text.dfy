/**
 * The parts of Python's `str` that the plugin relies on: `strip()`, `split()`
 * with no separator, `' '.join(...)` and single-character `replace`, over a
 * fixed set of whitespace characters.
 */
module Text {

  /** Whitespace as far as `strip()` and `split()` are concerned in this model:
      space, tab, line feed, carriage return, vertical tab, form feed and the
      ideographic (full-width) space U+3000. */
  predicate IsSpace(c: char) {
    c == ' ' || c == '\t' || c == '\n' || c == '\r'
    || c == '\U{000B}' || c == '\U{000C}' || c == '\U{3000}'
  }

  const FULL_WIDTH_SPACE: char := '\U{3000}'

  predicate AllSpace(s: string) {
    forall i :: 0 <= i < |s| ==> IsSpace(s[i])
  }

  predicate NoSpace(s: string) {
    forall i :: 0 <= i < |s| ==> !IsSpace(s[i])
  }

  /** Neither starts nor ends with whitespace. */
  predicate Trimmed(s: string) {
    s == [] || (!IsSpace(s[0]) && !IsSpace(s[|s| - 1]))
  }

  /** A token that `split()` can produce: non-empty and free of whitespace. */
  predicate IsWord(w: string) {
    w != [] && NoSpace(w)
  }

  predicate AllWords(ws: seq<string>) {
    forall i :: 0 <= i < |ws| ==> IsWord(ws[i])
  }

  /** The shape `' '.join(s.split())` produces: trimmed, every whitespace
      character a plain space, and never two spaces in a row. */
  predicate SingleSpaced(s: string) {
    && Trimmed(s)
    && (forall i :: 0 <= i < |s| && IsSpace(s[i]) ==> s[i] == ' ')
    && (forall i :: 0 <= i < |s| - 1 && s[i] == ' ' ==> s[i + 1] != ' ')
  }

  /** `s.lstrip()`: drops the leading whitespace and nothing else. */
  function LStrip(s: string): (r: string)
    ensures |r| <= |s| && r == s[|s| - |r|..]
    ensures AllSpace(s[..|s| - |r|])
    ensures r == [] || !IsSpace(r[0])
  {
    if s != [] && IsSpace(s[0]) then LStrip(s[1..]) else s
  }

  /** `s.rstrip()`: drops the trailing whitespace and nothing else. */
  function RStrip(s: string): (r: string)
    ensures |r| <= |s| && r == s[..|r|]
    ensures AllSpace(s[|r|..])
    ensures r == [] || !IsSpace(r[|r| - 1])
  {
    if s != [] && IsSpace(s[|s| - 1]) then RStrip(s[..|s| - 1]) else s
  }

  /** `s.strip()`. */
  function Strip(s: string): (r: string)
    ensures |r| <= |s|
    ensures Trimmed(r)
    ensures r == [] <==> AllSpace(s)
  {
    var l := LStrip(s);
    assert AllSpace(l) ==> AllSpace(s) by {
      if AllSpace(l) {
        forall i | 0 <= i < |s| ensures IsSpace(s[i]) {
          if i >= |s| - |l| { assert s[i] == l[i - (|s| - |l|)]; }
          else { assert s[i] == s[..|s| - |l|][i]; }
        }
      }
    }
    var r := RStrip(l);
    assert r != [] ==> !IsSpace(r[0]) by {
      if r != [] { assert r[0] == l[0]; }
    }
    assert r == [] ==> AllSpace(l) by {
      if r == [] { assert l[|r|..] == l; }
    }
    r
  }

  /** `s.replace(from, to)` for single characters: every occurrence of
      `from` becomes `to`, so none is left, and nothing else moves. */
  function Replace(s: string, from: char, to: char): (r: string)
    ensures |r| == |s|
    ensures forall i :: 0 <= i < |s| ==> r[i] == (if s[i] == from then to else s[i])
    ensures from != to ==> from !in r
  {
    seq(|s|, i requires 0 <= i < |s| => if s[i] == from then to else s[i])
  }

  /** Length of the longest whitespace-free prefix of `s`. */
  function WordLength(s: string): (n: nat)
    ensures n <= |s| && NoSpace(s[..n])
    ensures n < |s| ==> IsSpace(s[n])
  {
    if s == [] || IsSpace(s[0]) then 0
    else
      var m := WordLength(s[1..]);
      assert s[..m + 1] == [s[0]] + s[1..][..m];
      m + 1
  }

  /** `s.split()`: the maximal whitespace-free runs of `s`, in order. */
  function Split(s: string): (r: seq<string>)
    ensures AllWords(r)
    decreases |s|
  {
    if s == [] then []
    else if IsSpace(s[0]) then Split(s[1..])
    else
      var n := WordLength(s);
      [s[..n]] + Split(s[n..])
  }

  /** The number of characters in all of `ws` together. */
  function TotalLength(ws: seq<string>): nat {
    if ws == [] then 0 else |ws[0]| + TotalLength(ws[1..])
  }

  /** `' '.join(ws)`. */
  function JoinWithSpace(ws: seq<string>): string {
    if ws == [] then ""
    else if |ws| == 1 then ws[0]
    else ws[0] + " " + JoinWithSpace(ws[1..])
  }

  // ---------------------------------------------------------------------
  // strip()

  /** `strip()` returns exactly the middle of a string that is some
      whitespace, then a trimmed core, then some whitespace. */
  lemma {:induction false} StripMiddle(a: string, m: string, b: string)
    requires AllSpace(a) && Trimmed(m) && AllSpace(b)
    ensures Strip(a + m + b) == m
  {
    if m == [] {
      assert AllSpace(a + m + b);
    } else {
      assert a + m + b == a + (m + b);
      LStripMiddle(a, m + b);
      RStripMiddle(m, b);
    }
  }

  lemma {:induction false} LStripMiddle(a: string, x: string)
    requires AllSpace(a) && (x == [] || !IsSpace(x[0]))
    ensures LStrip(a + x) == x
    decreases |a|
  {
    if a != [] {
      assert (a + x)[1..] == a[1..] + x;
      LStripMiddle(a[1..], x);
    } else {
      assert a + x == x;
    }
  }

  lemma {:induction false} RStripMiddle(m: string, b: string)
    requires AllSpace(b) && (m == [] || !IsSpace(m[|m| - 1]))
    ensures RStrip(m + b) == m
    decreases |b|
  {
    if b != [] {
      assert (m + b)[..|m + b| - 1] == m + b[..|b| - 1];
      RStripMiddle(m, b[..|b| - 1]);
    } else {
      assert m + b == m;
    }
  }

  /** `strip()` is idempotent and leaves a trimmed string alone. */
  lemma StripTrimmed(s: string)
    requires Trimmed(s)
    ensures Strip(s) == s
  {
    StripMiddle([], s, []);
    assert [] + s + [] == s;
  }

  // ---------------------------------------------------------------------
  // split()

  /** `split()` ignores leading whitespace. */
  lemma {:induction false} SplitLStrip(s: string)
    ensures Split(LStrip(s)) == Split(s)
    decreases |s|
  {
    if s != [] && IsSpace(s[0]) {
      SplitLStrip(s[1..]);
    }
  }

  lemma {:induction false} WordLengthAppendSpace(t: string, c: char)
    requires IsSpace(c)
    ensures WordLength(t + [c]) == WordLength(t)
  {
    if t != [] && !IsSpace(t[0]) {
      assert (t + [c])[1..] == t[1..] + [c];
      WordLengthAppendSpace(t[1..], c);
    }
  }

  /** `split()` ignores one trailing whitespace character. */
  lemma {:induction false} SplitAppendSpace(s: string, c: char)
    requires IsSpace(c)
    ensures Split(s + [c]) == Split(s)
    decreases |s|
  {
    if s == [] {
      assert Split([c]) == Split([c][1..]);
    } else if IsSpace(s[0]) {
      assert (s + [c])[1..] == s[1..] + [c];
      SplitAppendSpace(s[1..], c);
    } else {
      WordLengthAppendSpace(s, c);
      var n := WordLength(s);
      assert (s + [c])[..n] == s[..n];
      assert (s + [c])[n..] == s[n..] + [c];
      SplitAppendSpace(s[n..], c);
    }
  }

  /** `split()` ignores trailing whitespace. */
  lemma {:induction false} SplitRStrip(s: string)
    ensures Split(RStrip(s)) == Split(s)
    decreases |s|
  {
    if s != [] && IsSpace(s[|s| - 1]) {
      var p := s[..|s| - 1];
      assert s == p + [s[|s| - 1]];
      SplitAppendSpace(p, s[|s| - 1]);
      SplitRStrip(p);
    }
  }

  /** A whitespace-free prefix ends where the first whitespace character
      does, whatever follows it. */
  lemma {:induction false} WordLengthAtSpace(x: string, c: char, y: string)
    requires IsSpace(c)
    ensures WordLength(x + [c] + y) == WordLength(x)
    decreases |x|
  {
    if x == [] {
      assert (x + [c] + y)[0] == c;
    } else if !IsSpace(x[0]) {
      assert (x + [c] + y)[1..] == x[1..] + [c] + y;
      WordLengthAtSpace(x[1..], c, y);
    }
  }

  /** A whitespace character separates: the tokens of `x`, a whitespace
      character and `y` are the tokens of `x` followed by those of `y`. */
  lemma {:induction false} SplitAtSpace(x: string, c: char, y: string)
    requires IsSpace(c)
    ensures Split(x + [c] + y) == Split(x) + Split(y)
    decreases |x|
  {
    var s := x + [c] + y;
    if x == [] {
      assert s[1..] == y;
    } else if IsSpace(x[0]) {
      assert s[1..] == x[1..] + [c] + y;
      SplitAtSpace(x[1..], c, y);
    } else {
      WordLengthAtSpace(x, c, y);
      var n := WordLength(x);
      assert s[..n] == x[..n];
      assert s[n..] == x[n..] + [c] + y;
      SplitAtSpace(x[n..], c, y);
    }
  }

  /** A run of whitespace of any length is a single separator, so
      `split()` treats `"a  b"` and `"a b"` alike. */
  lemma {:induction false} SplitAtSpaceRun(x: string, w: string, y: string)
    requires w != [] && AllSpace(w)
    ensures Split(x + w + y) == Split(x) + Split(y)
    decreases |w|
  {
    assert x + w + y == x + [w[0]] + (w[1..] + y);
    SplitAtSpace(x, w[0], w[1..] + y);
    if |w| > 1 {
      SplitAtSpaceRun([], w[1..], y);
      assert [] + w[1..] + y == w[1..] + y;
    } else {
      assert w[1..] + y == y;
    }
  }

  /** Two spaces between two tokens split like one. */
  lemma SplitDoubleSpaceExample(a: string, b: string)
    requires IsWord(a) && IsWord(b)
    ensures Split(a + "  " + b) == Split(a + " " + b) == [a, b]
  {
    SplitAtSpaceRun(a, "  ", b);
    SplitAtSpaceRun(a, " ", b);
    SplitWord(a);
    SplitWord(b);
  }

  /** `split()` gives the same tokens before and after `strip()`. */
  lemma SplitStrip(s: string)
    ensures Split(Strip(s)) == Split(s)
  {
    SplitRStrip(LStrip(s));
    SplitLStrip(s);
  }

  /** Two strings with whitespace at the same positions and equal characters
      everywhere else. */
  predicate SameShape(s: string, t: string) {
    && |s| == |t|
    && (forall i :: 0 <= i < |s| ==> IsSpace(s[i]) == IsSpace(t[i]))
    && (forall i :: 0 <= i < |s| && !IsSpace(s[i]) ==> s[i] == t[i])
  }

  lemma {:induction false} WordLengthSameShape(s: string, t: string)
    requires SameShape(s, t)
    ensures WordLength(s) == WordLength(t)
    decreases |s|
  {
    if s != [] && !IsSpace(s[0]) {
      WordLengthSameShape(s[1..], t[1..]);
    }
  }

  /** `split()` only looks at which characters are whitespace and at the
      non-whitespace characters themselves. */
  lemma {:induction false} SplitSameShape(s: string, t: string)
    requires SameShape(s, t)
    ensures Split(s) == Split(t)
    decreases |s|
  {
    if s == [] {
    } else if IsSpace(s[0]) {
      SplitSameShape(s[1..], t[1..]);
    } else {
      WordLengthSameShape(s, t);
      var n := WordLength(s);
      assert s[..n] == t[..n];
      SplitSameShape(s[n..], t[n..]);
    }
  }

  /** Replacing one whitespace character by another does not change `split()`. */
  lemma SplitReplaceSpace(s: string, from: char, to: char)
    requires IsSpace(from) && IsSpace(to)
    ensures Split(Replace(s, from, to)) == Split(s)
  {
    SplitSameShape(Replace(s, from, to), s);
  }

  /** `split()` finds no token exactly when there is nothing but whitespace. */
  lemma {:induction false} SplitEmpty(s: string)
    ensures Split(s) == [] <==> AllSpace(s)
    decreases |s|
  {
    if s != [] && IsSpace(s[0]) {
      SplitEmpty(s[1..]);
      assert AllSpace(s) <==> AllSpace(s[1..]);
    }
  }

  // ---------------------------------------------------------------------
  // ' '.join(...)

  /** `' '.join(ws)` starts with the first token, ends with the last, and
      is as long as all tokens together plus one separator between each
      two. */
  lemma {:induction false} JoinLayout(ws: seq<string>)
    requires ws != []
    ensures |JoinWithSpace(ws)| == TotalLength(ws) + |ws| - 1
    ensures ws[0] <= JoinWithSpace(ws)
    ensures var r, w := JoinWithSpace(ws), ws[|ws| - 1];
      |w| <= |r| && r[|r| - |w|..] == w
  {
    if |ws| > 1 {
      JoinLayout(ws[1..]);
      var t, w := JoinWithSpace(ws[1..]), ws[|ws| - 1];
      assert ws[1..][|ws[1..]| - 1] == w;
      var r := ws[0] + " " + t;
      assert r == JoinWithSpace(ws);
      assert r[|r| - |w|..] == t[|t| - |w|..];
    }
  }

  /** Joining tokens gives the single-spaced form, and is empty exactly when
      there are no tokens. */
  lemma {:induction false} JoinShape(ws: seq<string>)
    requires AllWords(ws)
    ensures SingleSpaced(JoinWithSpace(ws))
    ensures JoinWithSpace(ws) == "" <==> ws == []
    ensures ws != [] ==> JoinWithSpace(ws)[0] == ws[0][0]
  {
    if |ws| == 1 {
      assert IsWord(ws[0]);
    } else if |ws| > 1 {
      JoinShape(ws[1..]);
      var w, j := ws[0], JoinWithSpace(ws[1..]);
      assert IsWord(w) && IsWord(ws[1..][0]);
      var s := w + " " + j;
      assert s == JoinWithSpace(ws);
      forall i | 0 <= i < |s| && IsSpace(s[i]) ensures s[i] == ' ' {
        if i > |w| { assert s[i] == j[i - |w| - 1]; }
      }
      forall i | 0 <= i < |s| - 1 && s[i] == ' ' ensures s[i + 1] != ' ' {
        if i == |w| { assert s[i + 1] == j[0]; }
        else if i > |w| { assert s[i] == j[i - |w| - 1] && s[i + 1] == j[i - |w|]; }
      }
    }
  }

  /** A whitespace-free string is one whitespace-free prefix. */
  lemma {:induction false} WordLengthNoSpace(w: string)
    requires NoSpace(w)
    ensures WordLength(w) == |w|
    decreases |w|
  {
    if w != [] {
      WordLengthNoSpace(w[1..]);
    }
  }

  /** A single word splits into itself. */
  lemma SplitWord(w: string)
    requires IsWord(w)
    ensures Split(w) == [w]
  {
    WordLengthNoSpace(w);
    assert w[..|w|] == w;
    assert w[|w|..] == [];
  }

  /** `split()` recovers the tokens that were joined. */
  lemma {:induction false} SplitJoin(ws: seq<string>)
    requires AllWords(ws)
    ensures Split(JoinWithSpace(ws)) == ws
  {
    if ws != [] {
      assert IsWord(ws[0]);
      SplitWord(ws[0]);
      if |ws| > 1 {
        SplitAtSpace(ws[0], ' ', JoinWithSpace(ws[1..]));
        assert ws[0] + " " + JoinWithSpace(ws[1..]) == ws[0] + [' '] + JoinWithSpace(ws[1..]);
        SplitJoin(ws[1..]);
      }
    }
  }
}
