/**
  Python string primitives used by the aggregator: `str.strip()`, `str.split()`
  without arguments and `" ".join(...)`, together with the whitespace-collapse
  step of the summary cleaner.
 */
module Text {
  import opened Sequences

  /**
    The characters other than the plain space that Python's `str.isspace()` accepts
    (CPython's whitespace table), as inclusive ranges.
   */
  const OtherWhitespace: seq<(char, char)> := [
    ('\t', '\r'), ('\U{1C}', '\U{1F}'), ('\U{85}', '\U{85}'), ('\U{A0}', '\U{A0}'),
    ('\U{1680}', '\U{1680}'), ('\U{2000}', '\U{200A}'), ('\U{2028}', '\U{2029}'),
    ('\U{202F}', '\U{202F}'), ('\U{205F}', '\U{205F}'), ('\U{3000}', '\U{3000}')
  ]

  predicate InRanges(c: char, ranges: seq<(char, char)>) {
    ranges != [] && ((ranges[0].0 <= c <= ranges[0].1) || InRanges(c, ranges[1..]))
  }

  /** Python's `c.isspace()` for one character. */
  predicate IsSpace(c: char) {
    c == ' ' || InRanges(c, OtherWhitespace)
  }

  lemma {:induction false} NotInRanges(c: char, ranges: seq<(char, char)>)
    requires forall k :: 0 <= k < |ranges| ==> !(ranges[k].0 <= c <= ranges[k].1)
    ensures !InRanges(c, ranges)
    decreases |ranges|
  {
    if ranges != [] {
      NotInRanges(c, ranges[1..]);
    }
  }

  /** Visible ASCII characters are not whitespace. */
  lemma PrintableIsNotSpace(c: char)
    requires '!' <= c <= '~'
    ensures !IsSpace(c)
  {
    NotInRanges(c, OtherWhitespace);
  }

  predicate AllSpace(s: string) {
    forall i :: 0 <= i < |s| ==> IsSpace(s[i])
  }

  predicate NoSpace(s: string) {
    forall i :: 0 <= i < |s| ==> !IsSpace(s[i])
  }

  /** Neither end of `s` is whitespace: what `str.strip()` returns. */
  predicate Stripped(s: string) {
    s == [] || (!IsSpace(s[0]) && !IsSpace(s[|s| - 1]))
  }

  /** The number of whitespace characters at the start of `s`. */
  function LeadingBlanks(s: string): (n: nat)
    ensures n <= |s| && AllSpace(s[..n])
    ensures n < |s| ==> !IsSpace(s[n])
  {
    if s != [] && IsSpace(s[0]) then
      var m := LeadingBlanks(s[1..]);
      assert AllSpace(s[..m + 1]) by {
        assert forall i :: 0 < i < m + 1 ==> s[i] == s[1..][..m][i - 1];
      }
      m + 1
    else
      0
  }

  /** The number of whitespace characters at the end of `s`. */
  function TrailingBlanks(s: string): (n: nat)
    ensures n <= |s| && AllSpace(s[|s| - n..])
    ensures n < |s| ==> !IsSpace(s[|s| - n - 1])
  {
    if s != [] && IsSpace(s[|s| - 1]) then
      var p := s[..|s| - 1];
      var m := TrailingBlanks(p);
      assert AllSpace(s[|s| - (m + 1)..]) by {
        assert forall i :: |s| - (m + 1) <= i < |p| ==> s[i] == p[|p| - m..][i - (|p| - m)];
      }
      m + 1
    else
      0
  }

  /** Python's `s.lstrip()`. */
  function TrimLeft(s: string): (r: string)
    ensures |r| <= |s| && r == s[|s| - |r|..]
    ensures AllSpace(s[..|s| - |r|])
    ensures r == [] || !IsSpace(r[0])
  {
    s[LeadingBlanks(s)..]
  }

  /** Python's `s.rstrip()`. */
  function TrimRight(s: string): (r: string)
    ensures |r| <= |s| && r == s[..|r|]
    ensures AllSpace(s[|r|..])
    ensures r == [] || !IsSpace(r[|r| - 1])
  {
    s[..|s| - TrailingBlanks(s)]
  }

  /**
    Python's `s.strip()`: whitespace removed at both ends, so the result has none
    there, and it is empty exactly when `s` is all whitespace.
   */
  function Strip(s: string): (r: string)
    ensures Stripped(r)
    ensures r == [] <==> AllSpace(s)
  {
    StripEmpty(s);
    TrimRight(TrimLeft(s))
  }

  lemma StripEmpty(s: string)
    ensures TrimRight(TrimLeft(s)) == [] <==> AllSpace(s)
  {
    var t := TrimLeft(s);
    var i := |s| - |t|;
    assert t[0..] == t;
    if t != [] {
      assert t[0] == s[i];
    } else {
      assert s[..i] == s;
    }
  }

  /**
    What strip removes is whitespace only: the result is the piece of `s` that starts
    where the left-trimmed text starts, with only whitespace before and after it.
   */
  lemma StripIsInfix(s: string)
    ensures var r, i := Strip(s), |s| - |TrimLeft(s)|;
      0 <= i <= |s| - |r| && r == s[i..i + |r|] && AllSpace(s[..i]) && AllSpace(s[i + |r|..])
  {
    var t := TrimLeft(s);
    InfixParts(s, t, TrimRight(t));
  }

  /** A suffix of `s` after a blank prefix, cut before a blank suffix, is a blank-bounded infix of `s`. */
  lemma InfixParts(s: string, t: string, r: string)
    requires |t| <= |s| && t == s[|s| - |t|..]
    requires |r| <= |t| && r == t[..|r|] && AllSpace(t[|r|..])
    ensures var i := |s| - |t|; r == s[i..i + |r|] && AllSpace(s[i + |r|..])
  {
    var i := |s| - |t|;
    assert s[i + |r|..] == t[|r|..];
  }

  /** Stripping is idempotent: a stripped string is its own strip. */
  lemma StripStripped(s: string)
    requires Stripped(s)
    ensures Strip(s) == s
  {
    assert TrimLeft(s) == s;
    assert TrimRight(s) == s;
  }

  /** The longest leading run of non-whitespace characters (one word of `str.split()`). */
  function WordPrefix(s: string): (w: string)
    ensures |w| <= |s| && w == s[..|w|] && NoSpace(w)
    ensures |w| < |s| ==> IsSpace(s[|w|])
    ensures s != [] && !IsSpace(s[0]) ==> w != []
  {
    if s == [] || IsSpace(s[0]) then [] else [s[0]] + WordPrefix(s[1..])
  }

  /** Python's `s.split()` with no separator: the maximal runs of non-whitespace characters. */
  function Words(s: string): seq<string>
    decreases |s|
  {
    var t := TrimLeft(s);
    if t == [] then []
    else
      var w := WordPrefix(t);
      [w] + Words(t[|w|..])
  }

  /** Python's `sep.join(ws)`. */
  function Join(ws: seq<string>, sep: string): string {
    if ws == [] then ""
    else if |ws| == 1 then ws[0]
    else ws[0] + sep + Join(ws[1..], sep)
  }

  /** `" ".join(text.split())`: every run of whitespace becomes one space, ends trimmed. */
  function Collapse(text: string): string {
    Join(Words(text), " ")
  }

  /** The only whitespace is the plain space, never at the start and never doubled. */
  predicate SingleSpaced(s: string) {
    (forall i :: 0 <= i < |s| && IsSpace(s[i]) ==> s[i] == ' ')
    && (s != [] ==> s[0] != ' ')
    && (forall i :: 0 < i < |s| && s[i] == ' ' ==> s[i - 1] != ' ')
  }

  /** What `" ".join(text.split())` produces: single-spaced and no space at the end. */
  predicate Normalized(s: string) {
    SingleSpaced(s) && (s != [] ==> s[|s| - 1] != ' ')
  }

  lemma {:induction false} WordsAreWords(s: string)
    ensures forall k :: 0 <= k < |Words(s)| ==> Words(s)[k] != [] && NoSpace(Words(s)[k])
    decreases |s|
  {
    var t := TrimLeft(s);
    if t != [] {
      var w := WordPrefix(t);
      var rest := Words(t[|w|..]);
      WordsAreWords(t[|w|..]);
      assert Words(s) == [w] + rest;
      forall k | 0 <= k < |Words(s)| ensures Words(s)[k] != [] && NoSpace(Words(s)[k]) {
        if k > 0 {
          assert Words(s)[k] == rest[k - 1];
        }
      }
    }
  }

  lemma JoinWordsNormalized(w: string, rest: string)
    requires w != [] && NoSpace(w) && rest != [] && Normalized(rest)
    ensures Normalized(w + " " + rest)
  {
    var x := w + " " + rest;
    var n := |w|;
    assert !IsSpace(rest[0]) by { assert rest[0] != ' '; }
    assert forall i :: 0 <= i < n ==> x[i] == w[i];
    assert x[n] == ' ';
    assert forall i :: n < i < |x| ==> x[i] == rest[i - n - 1];
  }

  lemma {:induction false} JoinNormalized(ws: seq<string>)
    requires forall k :: 0 <= k < |ws| ==> ws[k] != [] && NoSpace(ws[k])
    ensures Normalized(Join(ws, " "))
    ensures ws != [] ==> Join(ws, " ") != []
  {
    if |ws| == 1 {
      assert forall i :: 0 <= i < |ws[0]| ==> !IsSpace(ws[0][i]);
    } else if |ws| > 1 {
      JoinNormalized(ws[1..]);
      JoinWordsNormalized(ws[0], Join(ws[1..], " "));
    }
  }

  /** The collapsed text is normalized: only single spaces, none at either end. */
  lemma CollapseNormalized(text: string)
    ensures Normalized(Collapse(text))
  {
    WordsAreWords(text);
    JoinNormalized(Words(text));
  }

  lemma WordsOfNormalized(s: string)
    requires s != [] && Normalized(s)
    ensures Words(s) != []
  {
    assert !IsSpace(s[0]) by { assert s[0] != ' '; }
    assert TrimLeft(s) == s;
  }

  /** A normalized text that is more than one word: its first word, one space, the rest. */
  lemma NormalizedTail(s: string)
    requires Normalized(s) && s != [] && |WordPrefix(s)| < |s|
    ensures var n := |WordPrefix(s)|;
      s[n] == ' ' && n + 1 < |s| && Normalized(s[n + 1..]) && !IsSpace(s[n + 1])
  {
    var n := |WordPrefix(s)|;
    assert IsSpace(s[n]);
    assert s[n] == ' ';
    assert n + 1 < |s| by { assert s[|s| - 1] != ' '; }
    var s' := s[n + 1..];
    assert s[n + 1] != ' ';
    forall i | 0 < i < |s'| && s'[i] == ' ' ensures s'[i - 1] != ' ' {
      assert s'[i] == s[n + 1 + i] && s'[i - 1] == s[n + i];
    }
    forall i | 0 <= i < |s'| && IsSpace(s'[i]) ensures s'[i] == ' ' {
      assert s'[i] == s[n + 1 + i];
    }
    assert s'[|s'| - 1] == s[|s| - 1];
  }

  /** Splitting a normalized multi-word text: the first word, then the words of the rest. */
  lemma WordsOfNormalizedTail(s: string)
    requires Normalized(s) && s != [] && |WordPrefix(s)| < |s|
    ensures Words(s) == [WordPrefix(s)] + Words(s[|WordPrefix(s)| + 1..])
  {
    var w := WordPrefix(s);
    var n := |w|;
    NormalizedTail(s);
    assert !IsSpace(s[0]) by { assert s[0] != ' '; }
    assert TrimLeft(s) == s;
    var s' := s[n + 1..];
    assert TrimLeft(s') == s';
    assert s[n..][1..] == s';
    assert TrimLeft(s[n..]) == s';
  }

  lemma SplitAround(s: string, n: nat)
    requires n < |s|
    ensures s == s[..n] + [s[n]] + s[n + 1..]
  {
  }

  /** A word followed by whitespace or nothing is the first word. */
  lemma {:induction false} WordPrefixOf(w: string, rest: string)
    requires NoSpace(w) && (rest == [] || IsSpace(rest[0]))
    ensures WordPrefix(w + rest) == w
  {
    if w == [] {
      assert w + rest == rest;
    } else {
      assert (w + rest)[0] == w[0] && !IsSpace(w[0]);
      assert (w + rest)[1..] == w[1..] + rest;
      WordPrefixOf(w[1..], rest);
      assert [w[0]] + w[1..] == w;
    }
  }

  /** A single word splits into itself. */
  lemma WordsOfWord(w: string)
    requires w != [] && NoSpace(w)
    ensures Words(w) == [w]
  {
    assert TrimLeft(w) == w by { assert !IsSpace(w[0]); }
    WordPrefixOf(w, []);
    assert w + [] == w;
    assert w[|w|..] == [];
  }

  /** Splitting words joined by single spaces gives back the words. */
  lemma {:induction false} WordsOfJoin(ws: seq<string>)
    requires forall k :: 0 <= k < |ws| ==> ws[k] != [] && NoSpace(ws[k])
    ensures Words(Join(ws, " ")) == ws
  {
    if |ws| == 1 {
      assert Join(ws, " ") == ws[0];
      WordsOfWord(ws[0]);
    } else if |ws| > 1 {
      var tail := ws[1..];
      assert forall k :: 0 <= k < |tail| ==> tail[k] == ws[k + 1];
      WordsOfJoin(tail);
      JoinNormalized(tail);
      WordsOfJoinStep(ws);
    }
  }

  lemma WordsOfJoinStep(ws: seq<string>)
    requires |ws| > 1 && ws[0] != [] && NoSpace(ws[0])
    requires Join(ws[1..], " ") != [] && Normalized(Join(ws[1..], " "))
    requires Words(Join(ws[1..], " ")) == ws[1..]
    ensures Words(Join(ws, " ")) == ws
  {
    var tail, w := ws[1..], ws[0];
    var rest := Join(tail, " ");
    assert Join(ws, " ") == w + " " + rest;
    WordsOfSpaced(w, rest);
    assert ws == [w] + tail;
  }

  /** The words of `w + " " + rest`: the word `w`, then the words of `rest`. */
  lemma WordsOfSpaced(w: string, rest: string)
    requires w != [] && NoSpace(w) && rest != [] && Normalized(rest)
    ensures Words(w + " " + rest) == [w] + Words(rest)
  {
    JoinWordsNormalized(w, rest);
    SpacedPrefix(w, rest);
    WordsOfNormalizedTail(w + " " + rest);
  }

  /** Before the first space of `w + " " + rest` stands exactly `w`, and after it `rest`. */
  lemma SpacedPrefix(w: string, rest: string)
    requires NoSpace(w)
    ensures WordPrefix(w + " " + rest) == w && (w + " " + rest)[|w| + 1..] == rest
  {
    assert w + " " + rest == w + (" " + rest);
    WordPrefixOf(w, " " + rest);
  }

  /** The collapse keeps the words of the text, all of them and in order. */
  lemma CollapseKeepsWords(text: string)
    ensures Words(Collapse(text)) == Words(text)
  {
    WordsAreWords(text);
    WordsOfJoin(Words(text));
  }

  /** A normalized text is a fixed point of the collapse. */
  lemma {:induction false} CollapseOfNormalized(s: string)
    requires Normalized(s)
    ensures Collapse(s) == s
    decreases |s|
  {
    if s != [] {
      assert !IsSpace(s[0]) by { assert s[0] != ' '; }
      assert TrimLeft(s) == s;
      var w := WordPrefix(s);
      if |w| == |s| {
        assert TrimLeft(s[|w|..]) == [];
        assert Words(s) == [w];
      } else {
        var s' := s[|w| + 1..];
        NormalizedTail(s);
        WordsOfNormalizedTail(s);
        CollapseOfNormalized(s');
        WordsOfNormalized(s');
        var ws := Words(s');
        assert ([w] + ws)[1..] == ws;
        assert Join([w] + ws, " ") == w + " " + Join(ws, " ");
        SplitAround(s, |w|);
      }
    }
  }

  /** Collapsing twice is the same as collapsing once. */
  lemma CollapseIdempotent(text: string)
    ensures Collapse(Collapse(text)) == Collapse(text)
  {
    CollapseNormalized(text);
    CollapseOfNormalized(Collapse(text));
  }

  /** Any prefix of a normalized text (a truncation) is still single-spaced. */
  lemma PrefixSingleSpaced(s: string, n: nat)
    requires Normalized(s)
    ensures SingleSpaced(SliceTo(s, n))
  {
  }
}
