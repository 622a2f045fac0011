/** Text escaping of src/doxy2swig.py:117-120: two whole-string replacements. */
module Escape {
  import opened StringParser
  import opened SwigLexer

  const BACKSLASH: string := "\\"
  const QUOTE: string := "\""
  const FOUR_BACKSLASHES: string := "\\\\\\\\"
  const ESCAPED_QUOTE: string := "\\\""
  /** The piece that ends a docstring. */
  const CLOSER: string := "\";"

  /** Python's `s.replace(old, new)`. */
  function Replace(s: string, old': string, new': string): string
    requires old' != ""
  {
    Join(Split(s, old'), new')
  }

  function Escaped(txt: string): string {
    Replace(Replace(txt, BACKSLASH, FOUR_BACKSLASHES), QUOTE, ESCAPED_QUOTE)
  }

  /** Every `c` of `s` replaced by `r`, character by character. */
  function MapChar(s: string, c: char, r: string): string {
    if s == "" then "" else (if s[0] == c then r else [s[0]]) + MapChar(s[1..], c, r)
  }

  function EscapeChar(c: char): string {
    if c == '\\' then FOUR_BACKSLASHES else if c == '"' then ESCAPED_QUOTE else [c]
  }

  function EscapeMap(s: string): string {
    if s == "" then "" else EscapeChar(s[0]) + EscapeMap(s[1..])
  }

  lemma {:induction false} MapCharConcat(a: string, b: string, c: char, r: string)
    ensures MapChar(a + b, c, r) == MapChar(a, c, r) + MapChar(b, c, r)
    decreases |a|
  {
    if a == "" {
      assert a + b == b;
    } else {
      assert (a + b)[1..] == a[1..] + b;
      MapCharConcat(a[1..], b, c, r);
    }
  }

  lemma {:induction false} MapCharAbsent(s: string, c: char, r: string)
    requires c !in s
    ensures MapChar(s, c, r) == s
    decreases |s|
  {
    if s != "" {
      MapCharAbsent(s[1..], c, r);
    }
  }

  lemma AbsentFromSlice(s: string, c: char, lo: nat, hi: nat)
    requires lo <= |s| && lo <= hi && NoMatch(s, [c], lo, hi)
    ensures hi <= |s| ==> c !in s[lo..hi]
    ensures |s| < hi ==> c !in s[lo..]
  {
    assert forall i :: lo <= i < hi && i < |s| ==> !MatchAt(s, [c], i);
    forall i | lo <= i < hi && i < |s|
      ensures s[i] != c
    {
      assert !MatchAt(s, [c], i);
      CharMatches(s, c, i);
    }
  }

  lemma CharMatches(s: string, c: char, i: nat)
    requires i < |s|
    ensures MatchAt(s, [c], i) <==> s[i] == c
  {
    if MatchAt(s, [c], i) {
      assert s[i + 0] == [c][0];
    }
  }

  lemma MapCharAround(head: string, c: char, tail: string, r: string)
    requires c !in head
    ensures MapChar(head + [c] + tail, c, r) == head + r + MapChar(tail, c, r)
  {
    assert ([c] + tail)[1..] == tail;
    assert head + [c] + tail == head + ([c] + tail);
    MapCharConcat(head, [c] + tail, c, r);
    MapCharAbsent(head, c, r);
  }

  lemma {:induction false} ReplaceCharFrom(s: string, c: char, r: string, start: nat)
    requires start <= |s|
    ensures Join(SplitFrom(s, [c], start), r) == MapChar(s[start..], c, r)
    decreases |s| - start
  {
    hide MatchAt, NoMatch, MapChar;
    match Find(s, [c], start)
    case None =>
      AbsentFromSlice(s, c, start, |s| + 1);
      MapCharAbsent(s[start..], c, r);
    case Some(i) =>
      AbsentFromSlice(s, c, start, i);
      MatchIsSlice(s, [c], i);
      ThreeParts(s, start, i, i + 1);
      MapCharAround(s[start..i], c, s[i + 1..], r);
      JoinCons(s[start..i], SplitFrom(s, [c], i + 1), r);
      ReplaceCharFrom(s, c, r, i + 1);
  }

  lemma ReplaceChar(s: string, c: char, r: string)
    ensures Replace(s, [c], r) == MapChar(s, c, r)
  {
    ReplaceCharFrom(s, c, r, 0);
    assert s[0..] == s;
  }

  lemma {:induction false} TwoPasses(s: string)
    ensures MapChar(MapChar(s, '\\', FOUR_BACKSLASHES), '"', ESCAPED_QUOTE) == EscapeMap(s)
    decreases |s|
  {
    if s != "" {
      var first := if s[0] == '\\' then FOUR_BACKSLASHES else [s[0]];
      MapCharConcat(first, MapChar(s[1..], '\\', FOUR_BACKSLASHES), '"', ESCAPED_QUOTE);
      TwoPasses(s[1..]);
      if s[0] == '"' {
        assert MapChar([s[0]], '"', ESCAPED_QUOTE) == ESCAPED_QUOTE + MapChar("", '"', ESCAPED_QUOTE);
      } else {
        MapCharAbsent(first, '"', ESCAPED_QUOTE);
      }
    }
  }

  /** The two successive replacements do not interfere: together they are one map over the
      characters of the text. */
  lemma EscapedIsCharMap(s: string)
    ensures Escaped(s) == EscapeMap(s)
  {
    ReplaceChar(s, '\\', FOUR_BACKSLASHES);
    ReplaceChar(MapChar(s, '\\', FOUR_BACKSLASHES), '"', ESCAPED_QUOTE);
    TwoPasses(s);
  }

  /** A left-to-right decoder. */
  function Unescape(s: string): string {
    if s == "" then ""
    else if FOUR_BACKSLASHES <= s then BACKSLASH + Unescape(s[4..])
    else if ESCAPED_QUOTE <= s then QUOTE + Unescape(s[2..])
    else [s[0]] + Unescape(s[1..])
  }

  lemma {:induction false} UnescapeMap(s: string)
    ensures Unescape(EscapeMap(s)) == s
    decreases |s|
  {
    if s != "" {
      var e, rest := EscapeChar(s[0]), EscapeMap(s[1..]);
      UnescapeMap(s[1..]);
      assert (e + rest)[|e|..] == rest;
      if s[0] == '\\' {
        assert FOUR_BACKSLASHES <= e + rest;
      } else if s[0] == '"' {
        assert (e + rest)[1] == '"';
        assert ESCAPED_QUOTE <= e + rest;
      } else {
        assert (e + rest)[0] == s[0];
      }
    }
  }

  /** No two texts escape alike: the decoder recovers the text. */
  lemma EscapeInvertible(s: string)
    ensures Unescape(Escaped(s)) == s
  {
    EscapedIsCharMap(s);
    UnescapeMap(s);
  }

  /** The number of backslashes at the end of `s`. */
  function TrailingBackslashes(s: string): nat {
    if s == "" || s[|s| - 1] != '\\' then 0 else 1 + TrailingBackslashes(s[..|s| - 1])
  }

  lemma OneMoreBackslash(s: string)
    ensures TrailingBackslashes(s + BACKSLASH) == 1 + TrailingBackslashes(s)
  {
    assert (s + BACKSLASH)[..|s|] == s;
  }

  lemma {:induction false} EscapeMapSnoc(s: string, c: char)
    ensures EscapeMap(s + [c]) == EscapeMap(s) + EscapeChar(c)
    decreases |s|
  {
    if s == "" {
      assert s + [c] == [c];
      assert EscapeMap([c]) == EscapeChar(c) + EscapeMap("");
    } else {
      assert (s + [c])[1..] == s[1..] + [c];
      EscapeMapSnoc(s[1..], c);
    }
  }

  lemma {:induction false} TrailingRun(s: string)
    ensures TrailingBackslashes(EscapeMap(s)) == 4 * TrailingBackslashes(s)
    decreases |s|
  {
    if s != "" {
      var p, c := s[..|s| - 1], s[|s| - 1];
      assert s == p + [c];
      EscapeMapSnoc(p, c);
      TrailingRun(p);
      var e := EscapeMap(p);
      if c == '\\' {
        assert e + FOUR_BACKSLASHES == e + BACKSLASH + BACKSLASH + BACKSLASH + BACKSLASH;
        OneMoreBackslash(e);
        OneMoreBackslash(e + BACKSLASH);
        OneMoreBackslash(e + BACKSLASH + BACKSLASH);
        OneMoreBackslash(e + BACKSLASH + BACKSLASH + BACKSLASH);
        assert s[..|s| - 1] == p;
      }
    }
  }

  /** Every quote of the escaped text is the image of one quote of the original, and the run of
      backslashes right before it has length 4k + 1, where k is the run before the original. */
  lemma {:induction false} QuoteRuns(s: string, q: nat) returns (i: nat)
    requires q < |EscapeMap(s)| && EscapeMap(s)[q] == '"'
    ensures i < |s| && s[i] == '"'
    ensures TrailingBackslashes(EscapeMap(s)[..q]) == 4 * TrailingBackslashes(s[..i]) + 1
    decreases |s|
  {
    var p, c := s[..|s| - 1], s[|s| - 1];
    assert s == p + [c];
    EscapeMapSnoc(p, c);
    var e := EscapeMap(p);
    if q < |e| {
      i := QuoteRuns(p, q);
      assert EscapeMap(s)[..q] == e[..q] && s[..i] == p[..i];
    } else {
      i := |p|;
      TrailingRun(p);
      assert c == '"' && q == |e| + 1;
      var before := EscapeMap(s)[..q];
      assert before == e + ['\\'] && before[..|before| - 1] == e;
      assert s[..i] == p;
    }
  }

  lemma PairIsInert(b: char)
    ensures Inert(Literal, ['\\', b])
  {
    assert ['\\', b][1..] == [b] && [b][1..] == "";
    assert After(Esc, [b]) == After(Literal, "") == Literal;
    assert Tokens(Esc, [b]) == [InLiteral(b)] + Tokens(Literal, "");
  }

  lemma EscapeCharIsInert(c: char)
    ensures Inert(Literal, EscapeChar(c))
  {
    if c == '\\' {
      PairIsInert('\\');
      InertConcat(Literal, BACKSLASH + BACKSLASH, BACKSLASH + BACKSLASH);
      assert FOUR_BACKSLASHES == (BACKSLASH + BACKSLASH) + (BACKSLASH + BACKSLASH);
    } else if c == '"' {
      PairIsInert('"');
    }
  }

  /** Escaped text never closes the literal it stands in, so it is never the closing piece. */
  lemma {:induction false} EscapedStaysInLiteral(s: string)
    ensures Inert(Literal, EscapeMap(s))
    decreases |s|
  {
    if s != "" {
      EscapedStaysInLiteral(s[1..]);
      var e := EscapeChar(s[0]);
      EscapeCharIsInert(s[0]);
      InertConcat(Literal, e, EscapeMap(s[1..]));
    }
  }

  lemma EscapedIsNotCloser(s: string)
    ensures Escaped(s) != CLOSER
  {
    EscapedIsCharMap(s);
    EscapedStaysInLiteral(s);
    assert After(Literal, CLOSER) == Code by {
      assert CLOSER[1..] == ";" && ";"[1..] == "";
    }
  }

  /** The whitespace test of `parse_Text`: the leading run of whitespace is the whole text. */
  predicate Blank(s: string) {
    s != "" && forall i :: 0 <= i < |s| ==> IsSpace(s[i])
  }

  /** Escaping leaves whitespace alone, so the test may look at the escaped text. */
  lemma {:induction false} BlankEscaped(s: string)
    requires forall i :: 0 <= i < |s| ==> IsSpace(s[i])
    ensures EscapeMap(s) == s
    decreases |s|
  {
    if s != "" {
      BlankEscaped(s[1..]);
    }
  }
}
