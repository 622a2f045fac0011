/** The init-string splitter of include/upm_string_parser.hpp, and the leftmost-match
    specification it shares with Python's `str.split` and `str.replace`. */
module StringParser {
  import opened Wrappers

  predicate MatchAt(s: string, d: string, i: int) {
    0 <= i <= |s| - |d| && forall k :: 0 <= k < |d| ==> s[i + k] == d[k]
  }

  ghost predicate Contains(s: string, d: string) {
    exists i :: MatchAt(s, d, i)
  }

  /** No match of `d` starts in `lo..hi`. */
  ghost predicate NoMatch(s: string, d: string, lo: int, hi: int) {
    forall j :: lo <= j < hi ==> !MatchAt(s, d, j)
  }

  /** `std::string::find(d, start)`: the leftmost match at or after `start`. */
  function Find(s: string, d: string, start: nat): (r: Option<nat>)
    ensures r.Some? ==> start <= r.value <= |s| - |d| && MatchAt(s, d, r.value)
    ensures NoMatch(s, d, start, if r.Some? then r.value else |s| + 1)
    decreases |s| - start
  {
    if start + |d| > |s| then None
    else if MatchAt(s, d, start) then Some(start)
    else Find(s, d, start + 1)
  }

  /** Only one position can be the leftmost match. */
  lemma FindIs(s: string, d: string, start: nat, i: nat)
    requires start <= i && MatchAt(s, d, i) && NoMatch(s, d, start, i)
    ensures Find(s, d, start) == Some(i)
  {
    var r := Find(s, d, start);
    assert r.Some? && r.value == i;
  }

  lemma FindNone(s: string, d: string, start: nat)
    requires NoMatch(s, d, start, |s| + 1)
    ensures Find(s, d, start).None?
  {
  }

  /** The tokens of `s[start..]` between leftmost non-overlapping occurrences of `d`. */
  function SplitFrom(s: string, d: string, start: nat): (r: seq<string>)
    requires d != "" && start <= |s|
    ensures r != []
    decreases |s| - start
  {
    match Find(s, d, start)
    case None => [s[start..]]
    case Some(i) => [s[start..i]] + SplitFrom(s, d, i + |d|)
  }

  function Split(s: string, d: string): seq<string>
    requires d != ""
  {
    SplitFrom(s, d, 0)
  }

  function Join(tokens: seq<string>, d: string): string {
    if tokens == [] then ""
    else if |tokens| == 1 then tokens[0]
    else tokens[0] + d + Join(tokens[1..], d)
  }

  const COMMA: string := ","

  /** `UpmStringParser::parse`: the empty string yields no tokens at all, any other
      string its tokens. The source never returns for an empty delimiter. */
  method Parse(initStr: string, delim: string := COMMA) returns (tokens: seq<string>)
    requires initStr == "" || delim != ""
    ensures tokens == ParseSpec(initStr, delim)
  {
    hide MatchAt, NoMatch;
    if initStr == "" {
      return [];
    }
    tokens := [];
    var start := 0;
    var end := Find(initStr, delim, 0);
    while end.Some?
      invariant 0 <= start <= |initStr|
      invariant end == Find(initStr, delim, start)
      invariant tokens + SplitFrom(initStr, delim, start) == Split(initStr, delim)
      decreases |initStr| - start
    {
      ghost var rest := SplitFrom(initStr, delim, end.value + |delim|);
      assert tokens + ([initStr[start..end.value]] + rest) == (tokens + [initStr[start..end.value]]) + rest;
      tokens := tokens + [initStr[start..end.value]];
      start := end.value + |delim|;
      end := Find(initStr, delim, start);
    }
    tokens := tokens + [initStr[start..]];
  }

  function ParseSpec(s: string, d: string): seq<string>
    requires s == "" || d != ""
  {
    if s == "" then [] else Split(s, d)
  }

  lemma MatchIsSlice(s: string, d: string, i: nat)
    requires MatchAt(s, d, i)
    ensures s[i..i + |d|] == d
  {
  }

  lemma ThreeParts(s: string, a: nat, b: nat, c: nat)
    requires a <= b <= c <= |s|
    ensures s[a..] == s[a..b] + s[b..c] + s[c..]
  {
  }

  lemma {:induction false} JoinSplitFrom(s: string, d: string, start: nat)
    requires d != "" && start <= |s|
    ensures Join(SplitFrom(s, d, start), d) == s[start..]
    decreases |s| - start
  {
    hide MatchAt, NoMatch;
    match Find(s, d, start)
    case None =>
    case Some(i) =>
      MatchIsSlice(s, d, i);
      ThreeParts(s, start, i, i + |d|);
      JoinSplitFrom(s, d, i + |d|);
      JoinCons(s[start..i], SplitFrom(s, d, i + |d|), d);
  }

  lemma JoinCons(head: string, tokens: seq<string>, d: string)
    requires tokens != []
    ensures Join([head] + tokens, d) == head + d + Join(tokens, d)
  {
    assert ([head] + tokens)[1..] == tokens;
  }

  /** Parsing then printing gives the input back, whatever the delimiter. */
  lemma JoinSplit(s: string, d: string)
    requires d != ""
    ensures Join(Split(s, d), d) == s
  {
    JoinSplitFrom(s, d, 0);
    assert s[0..] == s;
  }

  /** A match inside a slice is a match in the whole string. */
  lemma MatchInSlice(s: string, d: string, lo: nat, hi: nat, j: int)
    requires lo <= hi <= |s| && MatchAt(s[lo..hi], d, j)
    ensures MatchAt(s, d, lo + j)
  {
    forall k | 0 <= k < |d|
      ensures s[lo + j + k] == d[k]
    {
      assert s[lo..hi][j + k] == d[k];
    }
  }

  lemma SliceIsFree(s: string, d: string, lo: nat, hi: nat)
    requires lo <= hi <= |s| && d != ""
    requires NoMatch(s, d, lo, hi)
    ensures !Contains(s[lo..hi], d)
  {
    forall j | MatchAt(s[lo..hi], d, j)
      ensures MatchAt(s, d, lo + j)
    {
      MatchInSlice(s, d, lo, hi, j);
    }
  }

  /** No token contains the delimiter. */
  lemma {:induction false} TokensDelimiterFree(s: string, d: string, start: nat)
    requires d != "" && start <= |s|
    ensures AllFree(SplitFrom(s, d, start), d)
    decreases |s| - start
  {
    hide MatchAt, Contains;
    match Find(s, d, start)
    case None =>
      SliceIsFree(s, d, start, |s|);
      assert s[start..|s|] == s[start..];
    case Some(i) =>
      SliceIsFree(s, d, start, i);
      TokensDelimiterFree(s, d, i + |d|);
  }

  // ---------- Where the cuts are ----------

  /** `cuts` are the leftmost non-overlapping matches of `d` from `from` on, all of them: each
      is a match, none is passed over before it, and none comes after the last. */
  ghost predicate LeftmostCuts(s: string, d: string, from: nat, cuts: seq<nat>)
    decreases |cuts|
  {
    if cuts == [] then NoMatch(s, d, from, |s| + 1)
    else
      && from <= cuts[0]
      && NoMatch(s, d, from, cuts[0])
      && MatchAt(s, d, cuts[0])
      && LeftmostCuts(s, d, cuts[0] + |d|, cuts[1..])
  }

  /** The text around the cuts: before the first, between neighbours, after the last. */
  ghost function Gaps(s: string, d: string, from: nat, cuts: seq<nat>): seq<string>
    requires from <= |s| && LeftmostCuts(s, d, from, cuts)
    decreases |cuts|
  {
    if cuts == [] then [s[from..]]
    else [s[from..cuts[0]]] + Gaps(s, d, cuts[0] + |d|, cuts[1..])
  }

  /** There is one more token than leftmost non-overlapping matches, and the tokens are exactly
      the stretches of text around them. */
  lemma {:induction false} TokensAreTheGaps(s: string, d: string, from: nat, cuts: seq<nat>)
    requires d != "" && from <= |s| && LeftmostCuts(s, d, from, cuts)
    ensures |SplitFrom(s, d, from)| == |cuts| + 1
    ensures SplitFrom(s, d, from) == Gaps(s, d, from, cuts)
    decreases |cuts|
  {
    hide MatchAt, NoMatch;
    if cuts == [] {
      FindNone(s, d, from);
    } else {
      FindIs(s, d, from, cuts[0]);
      TokensAreTheGaps(s, d, cuts[0] + |d|, cuts[1..]);
    }
  }

  /** Such cuts exist for every string, so the description above is never vacuous. */
  lemma {:induction false} CutsExist(s: string, d: string, from: nat) returns (cuts: seq<nat>)
    requires d != "" && from <= |s|
    ensures LeftmostCuts(s, d, from, cuts)
    decreases |s| - from
  {
    match Find(s, d, from)
    case None =>
      cuts := [];
    case Some(i) =>
      var later := CutsExist(s, d, i + |d|);
      cuts := [i] + later;
      assert cuts[1..] == later;
  }

  // ---------- Print, then parse ----------

  /** `d` has a border of length `o`: a proper non-empty prefix that is also a suffix. */
  predicate Border(d: string, o: int) {
    0 < o < |d| && d[..o] == d[|d| - o..]
  }

  ghost predicate Bordered(d: string) {
    exists o :: Border(d, o)
  }

  ghost predicate AllFree(tokens: seq<string>, d: string) {
    forall t :: t in tokens ==> !Contains(t, d)
  }

  ghost predicate RoundTrips(tokens: seq<string>, d: string)
    requires d != ""
  {
    ParseSpec(Join(tokens, d), d) == tokens
  }

  lemma SliceMatch(s: string, d: string, lo: nat, hi: nat, j: nat)
    requires lo <= j && j + |d| <= hi <= |s| && MatchAt(s, d, j)
    ensures MatchAt(s[lo..hi], d, j - lo)
  {
  }

  /** A match that starts inside a token lies in the token or straddles its end, and then the
      overlap with the delimiter that follows is a border. */
  lemma MatchInTokenOrBorder(s: string, d: string, lo: nat, hi: nat, j: nat)
    requires lo <= j < hi && MatchAt(s, d, j) && MatchAt(s, d, hi)
    ensures Contains(s[lo..hi], d) || Bordered(d)
  {
    if j + |d| <= hi {
      SliceMatch(s, d, lo, hi, j);
    } else {
      var o := j + |d| - hi;
      forall k | 0 <= k < o
        ensures d[..o][k] == d[|d| - o..][k]
      {
        assert s[hi + k] == d[k];
        assert s[j + (|d| - o + k)] == d[|d| - o + k];
      }
      assert Border(d, o);
    }
  }

  /** A token of a printed list ends where the next delimiter starts, not before. */
  lemma NoEarlierMatch(s: string, d: string, lo: nat, hi: nat)
    requires lo <= hi && MatchAt(s, d, hi)
    ensures NoMatch(s, d, lo, hi) || Contains(s[lo..hi], d) || Bordered(d)
  {
    if !NoMatch(s, d, lo, hi) {
      var j :| lo <= j < hi && MatchAt(s, d, j);
      MatchInTokenOrBorder(s, d, lo, hi, j);
    }
  }

  lemma NoMatchInFreeTail(s: string, d: string, lo: nat)
    requires lo <= |s|
    ensures Find(s, d, lo).None? || Contains(s[lo..], d)
  {
    if !NoMatch(s, d, lo, |s| + 1) {
      var j :| lo <= j < |s| + 1 && MatchAt(s, d, j);
      SliceMatch(s, d, lo, |s|, j);
      assert s[lo..|s|] == s[lo..];
    }
  }

  /** One token off the front of a printed list. */
  lemma SplitOne(s: string, d: string, lo: nat, hi: nat)
    requires d != "" && lo <= hi <= |s| - |d| && MatchAt(s, d, hi)
    requires !Bordered(d) && !Contains(s[lo..hi], d)
    ensures SplitFrom(s, d, lo) == [s[lo..hi]] + SplitFrom(s, d, hi + |d|)
  {
    hide MatchAt, NoMatch, Contains, Bordered;
    NoEarlierMatch(s, d, lo, hi);
    FindIs(s, d, lo, hi);
  }

  /** The first token of a printed list, after a prefix `p`: where it is and what follows it. */
  lemma PrintedParts(p: string, t: string, d: string, rest: string)
    ensures p + (t + d + rest) == (p + t + d) + rest
    ensures (p + (t + d + rest))[|p|..|p + t|] == t
    ensures MatchAt(p + (t + d + rest), d, |p + t|)
  {
    assert p + (t + d + rest) == (p + t + d) + rest;
    assert (p + (t + d + rest))[|p|..|p + t|] == t;
  }

  lemma SplitLast(s: string, d: string, lo: nat)
    requires d != "" && lo <= |s| && !Contains(s[lo..], d)
    ensures SplitFrom(s, d, lo) == [s[lo..]]
  {
    hide MatchAt, NoMatch, Contains;
    NoMatchInFreeTail(s, d, lo);
  }

  lemma {:induction false} SplitJoin(p: string, tokens: seq<string>, d: string)
    requires d != "" && !Bordered(d)
    requires tokens != [] && AllFree(tokens, d)
    ensures SplitFrom(p + Join(tokens, d), d, |p|) == tokens
    decreases |tokens|
  {
    hide MatchAt, NoMatch, Contains, Bordered, SplitFrom;
    var t := tokens[0];
    var s := p + Join(tokens, d);
    assert t in tokens;
    if |tokens| == 1 {
      assert s[|p|..] == t;
      SplitLast(s, d, |p|);
      assert tokens == [t];
    } else {
      PrintedParts(p, t, d, Join(tokens[1..], d));
      SplitOne(s, d, |p|, |p + t|);
      SplitJoin(p + t + d, tokens[1..], d);
      assert tokens == [t] + tokens[1..];
    }
  }

  /** A bordered delimiter breaks the round trip: with d = border + tail = head + border, the
      tokens [head, ""] print as d + tail, whose first token is "". */
  lemma BorderedBreaks(d: string, o: int) returns (tokens: seq<string>)
    requires Border(d, o)
    ensures tokens != [""] && AllFree(tokens, d) && !RoundTrips(tokens, d)
  {
    var head := d[..|d| - o];
    tokens := [head, ""];
    assert Join(tokens[1..], d) == "";
    var s := Join(tokens, d);
    assert s == head + d;
    forall k | 0 <= k < |d|
      ensures s[k] == d[k]
    {
      if |head| <= k {
        assert d[..o][k - |head|] == d[|d| - o..][k - |head|];
      }
    }
    assert MatchAt(s, d, 0);
    assert Find(s, d, 0) == Some(0);
    assert Split(s, d)[0] == "";
  }

  /** Print-then-parse is the identity on every list of delimiter-free tokens other than [""]
      exactly when the delimiter has no border. */
  lemma PrintThenParseIff(d: string)
    requires d != ""
    ensures (forall tokens: seq<string> :: AllFree(tokens, d) && tokens != [""] ==> RoundTrips(tokens, d))
            <==> !Bordered(d)
  {
    if Bordered(d) {
      var o :| Border(d, o);
      var tokens := BorderedBreaks(d, o);
    } else {
      forall tokens: seq<string> | AllFree(tokens, d) && tokens != [""]
        ensures RoundTrips(tokens, d)
      {
        if tokens != [] {
          PrintThenParse(tokens, d);
        }
      }
    }
  }

  lemma PrintThenParse(tokens: seq<string>, d: string)
    requires d != "" && !Bordered(d) && AllFree(tokens, d) && tokens != [""] && tokens != []
    ensures RoundTrips(tokens, d)
  {
    SplitJoin("", tokens, d);
    assert "" + Join(tokens, d) == Join(tokens, d);
    assert |tokens| >= 2 ==> |Join(tokens, d)| >= |d|;
  }

  /** A one-character delimiter, such as the default ",", has no border. */
  lemma SingleCharUnbordered(c: char)
    ensures !Bordered([c])
  {
  }

  lemma DefaultUnbordered()
    ensures COMMA == "," && !Bordered(COMMA)
  {
    SingleCharUnbordered(',');
  }

  // ---------- Two-level descriptors ----------

  function PrintAll(commands: seq<seq<string>>, inner: string): seq<string> {
    seq(|commands|, i requires 0 <= i < |commands| => Join(commands[i], inner))
  }

  function ParseAll(tokens: seq<string>, inner: string): seq<seq<string>>
    requires inner != ""
  {
    seq(|tokens|, i requires 0 <= i < |tokens| => ParseSpec(tokens[i], inner))
  }

  function PrintTwoLevel(commands: seq<seq<string>>, outer: string, inner: string): string {
    Join(PrintAll(commands, inner), outer)
  }

  function ParseTwoLevel(s: string, outer: string, inner: string): seq<seq<string>>
    requires outer != "" && inner != ""
  {
    ParseAll(ParseSpec(s, outer), inner)
  }

  lemma {:induction false} JoinAvoids(fields: seq<string>, inner: char, outer: char)
    requires inner != outer
    requires forall f :: f in fields ==> outer !in f
    ensures outer !in Join(fields, [inner])
    decreases |fields|
  {
    if |fields| > 1 {
      JoinAvoids(fields[1..], inner, outer);
      assert fields[0] in fields;
    } else if |fields| == 1 {
      assert fields[0] in fields;
    }
  }

  lemma FreeOfChar(t: string, c: char)
    ensures c !in t <==> !Contains(t, [c])
  {
    if c in t {
      var i :| 0 <= i < |t| && t[i] == c;
      assert MatchAt(t, [c], i);
    }
    if Contains(t, [c]) {
      var i :| MatchAt(t, [c], i);
      assert t[i + 0] == [c][0];
    }
  }

  /** Splitting at "," and each piece at ":" recovers the field lists exactly when no command
      is the single empty field and the list is not the single empty command: those two
      print as "", which parses to no tokens. */
  lemma TwoLevelRoundTripIff(commands: seq<seq<string>>, outer: char, inner: char)
    requires outer != inner
    requires forall c, f :: c in commands && f in c ==> outer !in f && inner !in f
    ensures ParseTwoLevel(PrintTwoLevel(commands, [outer], [inner]), [outer], [inner]) == commands
            <==> [""] !in commands && commands != [[]]
  {
    var printed := PrintAll(commands, [inner]);
    SingleCharUnbordered(outer);
    SingleCharUnbordered(inner);
    forall i | 0 <= i < |commands|
      ensures !Contains(printed[i], [outer])
      ensures ParseSpec(printed[i], [inner]) == commands[i] <==> commands[i] != [""]
    {
      assert commands[i] in commands;
      JoinAvoids(commands[i], inner, outer);
      FreeOfChar(printed[i], outer);
      forall f | f in commands[i] ensures !Contains(f, [inner]) {
        FreeOfChar(f, inner);
      }
      PrintThenParseIff([inner]);
      if commands[i] != [""] {
        assert RoundTrips(commands[i], [inner]);
      }
    }
    assert AllFree(printed, [outer]);
    PrintThenParseIff([outer]);
    if printed == [""] {
      assert |printed[0]| == 0;
      assert commands == [commands[0]];
    } else {
      assert RoundTrips(printed, [outer]);
      var parsed := ParseAll(printed, [inner]);
      if [""] in commands {
        var i :| 0 <= i < |commands| && commands[i] == [""];
        assert parsed[i] != commands[i];
      } else {
        assert forall i :: 0 <= i < |commands| ==> commands[i] in commands && parsed[i] == commands[i];
      }
    }
  }
}
