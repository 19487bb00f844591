/**
  Escaping of XML character data as the aggregator does it: three successive
  `str.replace` passes, `&` first, then `<`, then `>`. Section 2.4 of XML 1.0
  requires `&` and `<` in character data to be written as references; the
  entity-wise reference `EscapeEach` says what the chain amounts to, and
  `Unescape` (the reverse passes in reverse order) is its inverse.
 */
module XmlEscape {
  import opened Wrappers

  /** Python's `s.replace(pat, rep)`: leftmost, non-overlapping occurrences, scanned left to right. */
  function ReplaceAll(s: string, pat: string, rep: string): string
    requires pat != []
    decreases |s|
  {
    if s == [] then []
    else if pat <= s then rep + ReplaceAll(s[|pat|..], pat, rep)
    else [s[0]] + ReplaceAll(s[1..], pat, rep)
  }

  /** `escape`: a missing value reads as "", then `&`, `<` and `>` are replaced by their references, in that order. */
  function Escape(s: Option<string>): (r: string)
    ensures s == None || s == Some("") ==> r == ""
  {
    var t := s.GetOr("");
    ReplaceAll(ReplaceAll(ReplaceAll(t, "&", "&amp;"), "<", "&lt;"), ">", "&gt;")
  }

  /**
    The escaped text is well-formed character data (no `<` or `>`, every `&` begins a
    reference), and unescaping it recovers the text exactly.
   */
  lemma EscapeCorrect(s: Option<string>)
    ensures var r := Escape(s);
      '<' !in r && '>' !in r && AmpersandsStartReferences(r) && Unescape(r) == s.GetOr("")
  {
    var t := s.GetOr("");
    EscapeIsEntityWise(t);
    EscapeEachIsClean(t);
    UnescapeEscapeEach(t);
  }

  /** The reference a character is written as in character data, or the character itself. */
  function EntityFor(c: char): string {
    if c == '&' then "&amp;"
    else if c == '<' then "&lt;"
    else if c == '>' then "&gt;"
    else [c]
  }

  /** Reference definition: every character escaped on its own, in one pass. */
  function EscapeEach(s: string): string {
    if s == [] then [] else EntityFor(s[0]) + EscapeEach(s[1..])
  }

  /** Every `&` at position `i` of `r` begins `&amp;`, `&lt;` or `&gt;`. */
  predicate AmpersandsStartReferences(r: string) {
    forall i :: 0 <= i < |r| && r[i] == '&' ==> ReferenceAt(r[i..])
  }

  predicate ReferenceAt(t: string) {
    "&amp;" <= t || "&lt;" <= t || "&gt;" <= t
  }

  /**
    The inverse passes, in the reverse order: `&gt;`, then `&lt;`, then `&amp;`.
    This is not part of the aggregator; it is what an XML reader does with the output.
   */
  function Unescape(r: string): string {
    ReplaceAll(ReplaceAll(ReplaceAll(r, "&gt;", ">"), "&lt;", "<"), "&amp;", "&")
  }

  /** Replacing one character distributes over concatenation. */
  lemma {:induction false} ReplaceCharConcat(x: string, y: string, c: char, rep: string)
    ensures ReplaceAll(x + y, [c], rep) == ReplaceAll(x, [c], rep) + ReplaceAll(y, [c], rep)
    decreases |x|
  {
    if x != [] {
      assert (x + y)[1..] == x[1..] + y;
      assert (x + y)[..1] == x[..1] == [x[0]];
      ReplaceCharConcat(x[1..], y, c, rep);
    } else {
      assert x + y == y;
    }
  }

  /** Replacing a character that does not occur changes nothing. */
  lemma {:induction false} ReplaceCharAbsent(x: string, c: char, rep: string)
    requires c !in x
    ensures ReplaceAll(x, [c], rep) == x
    decreases |x|
  {
    if x != [] {
      assert x[0] != c;
      ReplaceCharAbsent(x[1..], c, rep);
    }
  }

  lemma EscapeOneChar(c: char)
    ensures ReplaceAll(ReplaceAll(ReplaceAll([c], "&", "&amp;"), "<", "&lt;"), ">", "&gt;") == EntityFor(c)
  {
    var a := ReplaceAll([c], "&", "&amp;");
    if c == '&' {
      assert a == "&amp;";
      ReplaceCharAbsent("&amp;", '<', "&lt;");
      ReplaceCharAbsent("&amp;", '>', "&gt;");
    } else {
      ReplaceCharAbsent([c], '&', "&amp;");
      if c == '<' {
        assert ReplaceAll([c], "<", "&lt;") == "&lt;";
        ReplaceCharAbsent("&lt;", '>', "&gt;");
      } else {
        ReplaceCharAbsent([c], '<', "&lt;");
        if c == '>' {
          assert ReplaceAll([c], ">", "&gt;") == "&gt;";
        } else {
          ReplaceCharAbsent([c], '>', "&gt;");
        }
      }
    }
  }

  /** The three `str.replace` passes escape each character on its own. */
  lemma {:induction false} EscapeIsEntityWise(s: string)
    ensures ReplaceAll(ReplaceAll(ReplaceAll(s, "&", "&amp;"), "<", "&lt;"), ">", "&gt;") == EscapeEach(s)
    decreases |s|
  {
    if s != [] {
      var h, t := [s[0]], s[1..];
      assert s == h + t;
      ReplaceCharConcat(h, t, '&', "&amp;");
      var a1, a2 := ReplaceAll(h, "&", "&amp;"), ReplaceAll(t, "&", "&amp;");
      ReplaceCharConcat(a1, a2, '<', "&lt;");
      var b1, b2 := ReplaceAll(a1, "<", "&lt;"), ReplaceAll(a2, "<", "&lt;");
      ReplaceCharConcat(b1, b2, '>', "&gt;");
      EscapeOneChar(s[0]);
      EscapeIsEntityWise(t);
    }
  }

  /** Escaped text has no `<` or `>`, and each `&` in it begins a reference. */
  lemma {:induction false} EscapeEachIsClean(s: string)
    ensures '<' !in EscapeEach(s) && '>' !in EscapeEach(s)
    ensures AmpersandsStartReferences(EscapeEach(s))
    decreases |s|
  {
    if s != [] {
      EscapeEachIsClean(s[1..]);
      var e, rest := EntityFor(s[0]), EscapeEach(s[1..]);
      var r := e + rest;
      assert r == EscapeEach(s);
      forall i | 0 <= i < |r| && r[i] == '&' ensures ReferenceAt(r[i..]) {
        if i < |e| {
          assert i == 0;
          assert r[0..] == e + rest;
        } else {
          assert r[i..] == rest[i - |e|..];
          assert rest[i - |e|] == '&';
        }
      }
    }
  }

  /** A prefix without `&` is untouched by a pass replacing a reference. */
  lemma {:induction false} ReplaceSkipsPlainPrefix(q: string, t: string, pat: string, rep: string)
    requires pat != [] && pat[0] == '&' && '&' !in q
    ensures ReplaceAll(q + t, pat, rep) == q + ReplaceAll(t, pat, rep)
    decreases |q|
  {
    if q != [] {
      assert (q + t)[0] == q[0] != '&';
      assert (q + t)[1..] == q[1..] + t;
      ReplaceSkipsPlainPrefix(q[1..], t, pat, rep);
    } else {
      assert q + t == t;
    }
  }

  predicate IsReference(e: string) {
    e == "&amp;" || e == "&lt;" || e == "&gt;"
  }

  /**
    One unescaping pass over an escaped unit `e` (a reference, or one character
    other than `&`) followed by anything: the unit is handled on its own.
   */
  lemma UnescapeUnit(e: string, t: string, pat: string, c: char)
    requires IsReference(pat)
    requires IsReference(e) || (|e| == 1 && e[0] != '&')
    ensures ReplaceAll(e + t, pat, [c]) == (if e == pat then [c] else e) + ReplaceAll(t, pat, [c])
  {
    if e == pat {
      assert pat <= e + t;
      assert (e + t)[|pat|..] == t;
    } else if |e| == 1 {
      assert !(pat <= e + t);
      assert (e + t)[1..] == t;
    } else {
      assert (e + t)[1] == e[1] != pat[1];
      assert !(pat <= e + t);
      assert (e + t)[1..] == e[1..] + t;
      ReplaceSkipsPlainPrefix(e[1..], t, pat, [c]);
    }
  }

  /** Unescaping in the reverse order recovers the text exactly. */
  lemma {:induction false} UnescapeEscapeEach(s: string)
    ensures Unescape(EscapeEach(s)) == s
    decreases |s|
  {
    if s != [] {
      var e, t := EntityFor(s[0]), EscapeEach(s[1..]);
      assert EscapeEach(s) == e + t;
      UnescapeUnit(e, t, "&gt;", '>');
      var e1 := if e == "&gt;" then ">" else e;
      var t1 := ReplaceAll(t, "&gt;", ">");
      UnescapeUnit(e1, t1, "&lt;", '<');
      var e2 := if e1 == "&lt;" then "<" else e1;
      var t2 := ReplaceAll(t1, "&lt;", "<");
      UnescapeUnit(e2, t2, "&amp;", '&');
      var e3 := if e2 == "&amp;" then "&" else e2;
      assert e3 == [s[0]];
      UnescapeEscapeEach(s[1..]);
      assert s == [s[0]] + s[1..];
    }
  }

  /** Distinct texts escape to distinct character data. */
  lemma EscapeInjective(a: string, b: string)
    requires Escape(Some(a)) == Escape(Some(b))
    ensures a == b
  {
    EscapeCorrect(Some(a));
    EscapeCorrect(Some(b));
  }
}
