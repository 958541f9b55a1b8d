/**
 * The string operations the formatter relies on: `str.split()` with no
 * argument (whitespace tokenisation), `" ".join(...)`, and `str.split(sep)`
 * with a one-character separator, of which only the last piece is used.
 */
module Text {

  /**
   * The characters `str.split()` treats as separators: the characters for
   * which Python's `str.isspace()` holds.
   */
  predicate IsSpace(c: char)
  {
    || ('\t' <= c <= '\r')
    || ('\U{1C}' <= c <= ' ')
    || c == '\U{85}' || c == '\U{A0}' || c == '\U{1680}'
    || ('\U{2000}' <= c <= '\U{200A}')
    || c == '\U{2028}' || c == '\U{2029}' || c == '\U{202F}' || c == '\U{205F}' || c == '\U{3000}'
  }

  /** A token: a non-empty string without whitespace. */
  predicate IsWord(w: string)
  {
    |w| > 0 && forall i :: 0 <= i < |w| ==> !IsSpace(w[i])
  }

  predicate AllWords(words: seq<string>)
  {
    forall i :: 0 <= i < |words| ==> IsWord(words[i])
  }

  /** The length of the longest prefix of `s` that holds no whitespace. */
  function WordLength(s: string): (n: nat)
    ensures n <= |s|
    ensures forall i :: 0 <= i < n ==> !IsSpace(s[i])
    ensures n < |s| ==> IsSpace(s[n])
  {
    if s == [] || IsSpace(s[0]) then 0 else 1 + WordLength(s[1..])
  }

  /**
   * `s.split()`: the maximal runs of non-whitespace characters of `s`, in
   * order. Leading, trailing and repeated whitespace yields no empty token.
   */
  function Split(s: string): (words: seq<string>)
    ensures AllWords(words)
    decreases |s|
  {
    if s == [] then []
    else if IsSpace(s[0]) then Split(s[1..])
    else
      var n := WordLength(s);
      [s[..n]] + Split(s[n..])
  }

  /** `" ".join(words)`. */
  function Join(words: seq<string>): (s: string)
    ensures AllWords(words) ==> (s == "" <==> words == [])
  {
    if words == [] then ""
    else if |words| == 1 then words[0]
    else words[0] + " " + Join(words[1..])
  }

  /** `"".join(words)`. */
  function Concat(words: seq<string>): (s: string)
  {
    if words == [] then "" else words[0] + Concat(words[1..])
  }

  /** The characters of `s` that are not whitespace, in order. */
  function NonSpace(s: string): (t: string)
  {
    if s == [] then "" else (if IsSpace(s[0]) then "" else [s[0]]) + NonSpace(s[1..])
  }

  lemma {:induction false} NonSpaceAppend(a: string, b: string)
    ensures NonSpace(a + b) == NonSpace(a) + NonSpace(b)
  {
    if a == [] {
      assert a + b == b;
    } else {
      assert (a + b)[0] == a[0];
      assert (a + b)[1..] == a[1..] + b;
      NonSpaceAppend(a[1..], b);
    }
  }

  lemma {:induction false} NonSpaceOfWord(w: string)
    requires forall i :: 0 <= i < |w| ==> !IsSpace(w[i])
    ensures NonSpace(w) == w
  {
    if w != [] {
      NonSpaceOfWord(w[1..]);
    }
  }

  /** Splitting drops the whitespace of `s` and nothing else. */
  lemma {:induction false} SplitKeepsText(s: string)
    ensures Concat(Split(s)) == NonSpace(s)
    decreases |s|
  {
    if s == [] {
    } else if IsSpace(s[0]) {
      SplitKeepsText(s[1..]);
    } else {
      var n := WordLength(s);
      var rest := Split(s[n..]);
      SplitKeepsText(s[n..]);
      NonSpaceOfWord(s[..n]);
      assert s == s[..n] + s[n..];
      NonSpaceAppend(s[..n], s[n..]);
      assert Split(s) == [s[..n]] + rest;
      assert ([s[..n]] + rest)[1..] == rest;
    }
  }

  lemma {:induction false} WordLengthOfWord(w: string, tail: string)
    requires forall i :: 0 <= i < |w| ==> !IsSpace(w[i])
    requires tail == [] || IsSpace(tail[0])
    ensures WordLength(w + tail) == |w|
  {
    if w == [] {
      assert w + tail == tail;
    } else {
      assert (w + tail)[0] == w[0];
      assert (w + tail)[1..] == w[1..] + tail;
      WordLengthOfWord(w[1..], tail);
    }
  }

  /** Splitting a single-space join of tokens gives the same tokens back. */
  lemma {:induction false} SplitJoin(words: seq<string>)
    requires AllWords(words)
    ensures Split(Join(words)) == words
  {
    if words != [] {
      var w := words[0];
      var tail := if |words| == 1 then "" else " " + Join(words[1..]);
      var s := w + tail;
      assert Join(words) == s;
      WordLengthOfWord(w, tail);
      assert s[0] == w[0];
      assert s[..|w|] == w && s[|w|..] == tail;
      assert Split(s) == [w] + Split(tail);
      if |words| == 1 {
        assert words == [w];
      } else {
        assert tail[0] == ' ' && tail[1..] == Join(words[1..]);
        assert Split(tail) == Split(Join(words[1..]));
        SplitJoin(words[1..]);
        assert words == [w] + words[1..];
      }
    }
  }

  lemma {:induction false} WordLengthAppend(a: string, t: string)
    requires WordLength(a) < |a|
    ensures WordLength(a + t) == WordLength(a)
  {
    if !IsSpace(a[0]) {
      assert (a + t)[0] == a[0];
      assert (a + t)[1..] == a[1..] + t;
      WordLengthAppend(a[1..], t);
    }
  }

  /** A single token splits to itself. */
  lemma SplitWord(w: string)
    requires IsWord(w)
    ensures Split(w) == [w]
  {
    SplitJoin([w]);
  }

  /**
   * Tokens never run across whitespace: splitting at any whitespace
   * character splits the two sides independently. With `SplitWord` this
   * makes the tokens the maximal runs of non-whitespace characters.
   */
  lemma {:induction false} SplitAtSpace(a: string, c: char, b: string)
    requires IsSpace(c)
    ensures Split(a + [c] + b) == Split(a) + Split(b)
    decreases |a|
  {
    var s := a + [c] + b;
    if a == [] {
      assert s == [c] + b;
      assert s[1..] == b;
    } else if IsSpace(a[0]) {
      assert s[0] == a[0];
      assert s[1..] == a[1..] + [c] + b;
      SplitAtSpace(a[1..], c, b);
    } else {
      var n := WordLength(a);
      if n < |a| {
        WordLengthAppend(a, [c] + b);
        assert s == a + ([c] + b);
        assert s[..n] == a[..n];
        assert s[n..] == a[n..] + [c] + b;
        SplitAtSpace(a[n..], c, b);
      } else {
        WordLengthOfWord(a, [c] + b);
        assert s == a + ([c] + b);
        assert s[..n] == a;
        assert s[n..] == [c] + b;
        assert ([c] + b)[1..] == b;
        assert Split([c] + b) == Split(b);
        assert Split(s) == [a] + Split([c] + b);
        assert a[..n] == a && a[n..] == [];
        assert Split(a) == [a] + Split([]);
      }
    }
  }

  /**
   * `s.split(sep)`: the pieces between occurrences of `sep`; there is always
   * at least one piece, and none contains `sep`.
   */
  function SplitOn(s: string, sep: char): (pieces: seq<string>)
    ensures |pieces| > 0
    ensures forall i :: 0 <= i < |pieces| ==> sep !in pieces[i]
  {
    if s == [] then [""]
    else
      var init := SplitOn(s[..|s| - 1], sep);
      var c := s[|s| - 1];
      if c == sep then init + [""]
      else init[..|init| - 1] + [init[|init| - 1] + [c]]
  }

  /** `sep.join(pieces)` for a one-character separator. */
  function JoinOn(pieces: seq<string>, sep: char): (s: string)
  {
    if pieces == [] then ""
    else if |pieces| == 1 then pieces[0]
    else JoinOn(pieces[..|pieces| - 1], sep) + [sep] + pieces[|pieces| - 1]
  }

  /** Joining the pieces of `s.split(sep)` with `sep` gives `s` back. */
  lemma {:induction false} JoinOnSplitOn(s: string, sep: char)
    ensures JoinOn(SplitOn(s, sep), sep) == s
  {
    if s != [] {
      var t := s[..|s| - 1];
      var c := s[|s| - 1];
      var init := SplitOn(t, sep);
      JoinOnSplitOn(t, sep);
      assert s == t + [c];
      if c == sep {
        var pieces := init + [""];
        assert pieces[..|pieces| - 1] == init;
      } else {
        var k := |init| - 1;
        var pieces := init[..k] + [init[k] + [c]];
        if k == 0 {
          assert init == [init[0]];
        } else {
          assert pieces[..|pieces| - 1] == init[..k];
          assert init[..|init| - 1] == init[..k];
        }
      }
    }
  }

  /** The last piece of `s.split(sep)` is the longest suffix of `s` free of `sep`. */
  lemma {:induction false} LastPieceOfSplit(s: string, sep: char)
    ensures |SplitOn(s, sep)[|SplitOn(s, sep)| - 1]| <= |s|
    ensures SplitOn(s, sep)[|SplitOn(s, sep)| - 1] == s[|s| - |SplitOn(s, sep)[|SplitOn(s, sep)| - 1]|..]
    ensures |SplitOn(s, sep)[|SplitOn(s, sep)| - 1]| < |s| ==>
      s[|s| - |SplitOn(s, sep)[|SplitOn(s, sep)| - 1]| - 1] == sep
  {
    if s != [] {
      var t := s[..|s| - 1];
      var c := s[|s| - 1];
      LastPieceOfSplit(t, sep);
      var init := SplitOn(t, sep);
      var l := init[|init| - 1];
      if c != sep {
        var r := l + [c];
        assert SplitOn(s, sep)[|SplitOn(s, sep)| - 1] == r;
        assert r == s[|s| - |r|..];
        if |r| < |s| {
          assert s[|s| - |r| - 1] == t[|t| - |l| - 1];
        }
      }
    }
  }

  /**
   * `s.split(sep)[-1]`: the part of `s` after its last `sep`, or all of `s`
   * when `sep` does not occur.
   */
  function LastPiece(s: string, sep: char): (r: string)
    ensures |r| <= |s| && r == s[|s| - |r|..]
    ensures sep !in r
    ensures |r| < |s| ==> s[|s| - |r| - 1] == sep
  {
    LastPieceOfSplit(s, sep);
    var pieces := SplitOn(s, sep);
    pieces[|pieces| - 1]
  }
}
