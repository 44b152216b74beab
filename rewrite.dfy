// Global single-character replacement and the two places the calculator
// uses it: the power-marker rewrite before evaluation and the HTML
// escaping of history entries.

module TextRewrite {

  /** Replacing every occurrence of the character `c` in `s` by `rep`,
      as a global regular-expression replace of one character does. */
  function ReplaceAll(s: string, c: char, rep: string): (r: string)
    ensures c !in s ==> r == s
    ensures c !in rep ==> c !in r
    ensures forall x :: x in r ==> x in s || x in rep
  {
    if s == [] then []
    else (if s[0] == c then rep else [s[0]]) + ReplaceAll(s[1..], c, rep)
  }

  /** Replacement works piecewise: on a concatenation it is the
      concatenation of the replacements. */
  lemma {:induction false} ReplaceAllConcat(a: string, b: string, c: char, rep: string)
    ensures ReplaceAll(a + b, c, rep) == ReplaceAll(a, c, rep) + ReplaceAll(b, c, rep)
  {
    if a == [] {
      assert a + b == b;
    } else {
      assert (a + b)[0] == a[0];
      assert (a + b)[1..] == a[1..] + b;
      ReplaceAllConcat(a[1..], b, c, rep);
    }
  }

  /** Every occurrence is replaced and nothing else changes: up to the
      first `c` the text is copied, that `c` becomes `rep`, and the rest
      is replaced in the same way. */
  lemma ReplaceAllAtFirst(a: string, b: string, c: char, rep: string)
    requires c !in a
    ensures ReplaceAll(a + [c] + b, c, rep) == a + rep + ReplaceAll(b, c, rep)
  {
    ReplaceAllConcat(a + [c], b, c, rep);
    ReplaceAllConcat(a, [c], c, rep);
    assert ReplaceAll([c], c, rep) == rep + ReplaceAll([], c, rep);
  }

  /** Replacing by a two-character text adds one character per
      occurrence. */
  lemma {:induction false} ReplaceAllLength(s: string, c: char, rep: string)
    requires |rep| == 2
    ensures |ReplaceAll(s, c, rep)| == |s| + multiset(s)[c]
  {
    if s != [] {
      var tail := s[1..];
      assert s == [s[0]] + tail;
      ReplaceAllLength(tail, c, rep);
    }
  }

  /** The power-marker rewrite applied before evaluation: every `^`
      becomes the exponentiation operator `**`. */
  function RewritePower(s: string): (r: string)
    ensures '^' !in r
    ensures |r| == |s| + multiset(s)['^']
    ensures '^' !in s ==> r == s
  {
    ReplaceAllLength(s, '^', "**");
    ReplaceAll(s, '^', "**")
  }

  /** `escapeHtml`: `&`, then `<`, then `>` are replaced by their
      character entities, in that order. */
  function EscapeHtml(s: string): (r: string)
    ensures '<' !in r && '>' !in r
  {
    ReplaceAll(ReplaceAll(ReplaceAll(s, '&', "&amp;"), '<', "&lt;"), '>', "&gt;")
  }

  /** The entity for one character, as a simultaneous escape would
      produce it. */
  function EscapeChar(x: char): string {
    if x == '&' then "&amp;"
    else if x == '<' then "&lt;"
    else if x == '>' then "&gt;"
    else [x]
  }

  /** Escaping character by character, independently of the order of
      the replacements. */
  function EscapeEach(s: string): string {
    if s == [] then [] else EscapeChar(s[0]) + EscapeEach(s[1..])
  }

  lemma EscapeHtmlOneChar(x: char)
    ensures EscapeHtml([x]) == EscapeChar(x)
  {
  }

  /** The chain of three replacements equals the simultaneous escape:
      the `&` of an entity inserted by an earlier step is never
      escaped again, because `&` is replaced first. */
  lemma {:induction false} EscapeHtmlIsEscapeEach(s: string)
    ensures EscapeHtml(s) == EscapeEach(s)
  {
    if s != [] {
      var head, tail := [s[0]], s[1..];
      assert s == head + tail;
      ReplaceAllConcat(head, tail, '&', "&amp;");
      var h1, t1 := ReplaceAll(head, '&', "&amp;"), ReplaceAll(tail, '&', "&amp;");
      ReplaceAllConcat(h1, t1, '<', "&lt;");
      var h2, t2 := ReplaceAll(h1, '<', "&lt;"), ReplaceAll(t1, '<', "&lt;");
      ReplaceAllConcat(h2, t2, '>', "&gt;");
      EscapeHtmlOneChar(s[0]);
      EscapeHtmlIsEscapeEach(tail);
    }
  }

  /** Decoding the three entities back into characters: the reference
      inverse of the escape. */
  function UnescapeHtml(s: string): string
    decreases |s|
  {
    if s == [] then []
    else if |s| >= 5 && s[..5] == "&amp;" then "&" + UnescapeHtml(s[5..])
    else if |s| >= 4 && s[..4] == "&lt;" then "<" + UnescapeHtml(s[4..])
    else if |s| >= 4 && s[..4] == "&gt;" then ">" + UnescapeHtml(s[4..])
    else [s[0]] + UnescapeHtml(s[1..])
  }

  lemma {:induction false} UnescapeEscapeEach(s: string)
    ensures UnescapeHtml(EscapeEach(s)) == s
  {
    if s != [] {
      var x, tail := s[0], s[1..];
      var e := EscapeEach(s);
      var rest := EscapeEach(tail);
      assert e == EscapeChar(x) + rest;
      UnescapeEscapeEach(tail);
      if x == '&' {
        assert e[..5] == "&amp;" && e[5..] == rest;
      } else if x == '<' {
        assert e[1] == 'l';
        assert e[..4] == "&lt;" && e[4..] == rest;
      } else if x == '>' {
        assert e[1] == 'g';
        assert e[..4] == "&gt;" && e[4..] == rest;
      } else {
        assert e[0] == x && e[1..] == rest;
      }
      assert s == [x] + tail;
    }
  }

  /** Escaping loses nothing: the entities decode back to the original
      text. */
  lemma EscapeHtmlRoundTrip(s: string)
    ensures UnescapeHtml(EscapeHtml(s)) == s
  {
    EscapeHtmlIsEscapeEach(s);
    UnescapeEscapeEach(s);
  }
}
