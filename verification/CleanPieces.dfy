/** `clean_pieces` of src/doxy2swig.py:393-426: runs of newline pieces are shortened, then the
    joined text is cut at empty lines and each paragraph is wrapped. */
module CleanPieces {
  import opened SwigLexer
  import opened Escape
  import StringParser

  const NEWLINE: string := "\n"
  const BLANK_LINE: string := "\n\n"
  const FILE_MARK: string := "// File:"

  // ---------- First pass ----------

  /** What a run of `count` newline pieces before the piece `p` becomes. */
  function Gap(count: nat, p: string): seq<string> {
    if p == CLOSER then (if count > 0 then [NEWLINE] else [])
    else if count > 2 then [BLANK_LINE]
    else if count > 0 then [Repeat('\n', count)]
    else []
  }

  function Repeat(c: char, n: nat): string {
    seq(n, _ => c)
  }

  /** The first pass, with `count` newline pieces pending. */
  function Shorten(count: nat, pieces: seq<string>): seq<string>
    decreases |pieces|
  {
    if pieces == [] then []
    else if pieces[0] == NEWLINE then Shorten(count + 1, pieces[1..])
    else Gap(count, pieces[0]) + [pieces[0]] + Shorten(0, pieces[1..])
  }

  method ShortenRuns(pieces: seq<string>) returns (ret: seq<string>)
    ensures ret == Shorten(0, pieces)
  {
    ret := [];
    var count := 0;
    var j := 0;
    while j < |pieces|
      invariant 0 <= j <= |pieces|
      invariant ret + Shorten(count, pieces[j..]) == Shorten(0, pieces)
    {
      var i := pieces[j];
      ghost var rest := pieces[j..];
      assert rest[1..] == pieces[j + 1..];
      if i == NEWLINE {
        count := count + 1;
      } else {
        ghost var was := ret;
        if i == CLOSER {
          if count > 0 {
            ret := ret + [NEWLINE];
          }
        } else if count > 2 {
          ret := ret + [BLANK_LINE];
        } else if count > 0 {
          ret := ret + [Repeat('\n', count)];
        }
        assert ret == was + Gap(count, i);
        ret := ret + [i];
        assert was + (Gap(count, i) + [i] + Shorten(0, rest[1..])) == ret + Shorten(0, rest[1..]);
        count := 0;
      }
      j := j + 1;
    }
  }

  // ---------- A reference description by runs ----------

  /** A run of `newlines` newline pieces and the piece that ends it. */
  datatype Run = Run(newlines: nat, piece: string)

  /** The runs of a list of pieces, with `count` newline pieces already seen. */
  function Runs(count: nat, pieces: seq<string>): seq<Run>
    decreases |pieces|
  {
    if pieces == [] then []
    else if pieces[0] == NEWLINE then Runs(count + 1, pieces[1..])
    else [Run(count, pieces[0])] + Runs(0, pieces[1..])
  }

  /** The newline pieces at the end, which no other piece follows. */
  function Trailing(count: nat, pieces: seq<string>): nat
    decreases |pieces|
  {
    if pieces == [] then count
    else if pieces[0] == NEWLINE then Trailing(count + 1, pieces[1..])
    else Trailing(0, pieces[1..])
  }

  function Newlines(n: nat): seq<string> {
    seq(n, _ => NEWLINE)
  }

  function Expand(runs: seq<Run>): seq<string> {
    if runs == [] then [] else Newlines(runs[0].newlines) + [runs[0].piece] + Expand(runs[1..])
  }

  function Min(a: nat, b: nat): nat {
    if a < b then a else b
  }

  /** The run of k newlines in front of a piece, shortened: min(k, 2) newlines, one before the
      piece that closes a docstring. */
  function ShortLength(r: Run): nat {
    if r.piece == CLOSER then Min(r.newlines, 1) else Min(r.newlines, 2)
  }

  function Shortened(r: Run): seq<string> {
    (if ShortLength(r) == 0 then [] else [Repeat('\n', ShortLength(r))]) + [r.piece]
  }

  function RenderRuns(runs: seq<Run>): seq<string> {
    if runs == [] then [] else Shortened(runs[0]) + RenderRuns(runs[1..])
  }

  /** The runs and the trailing newlines are all of the list: nothing is lost or reordered. */
  lemma {:induction false} RunsAreAll(count: nat, pieces: seq<string>)
    ensures Newlines(count) + pieces == Expand(Runs(count, pieces)) + Newlines(Trailing(count, pieces))
    decreases |pieces|
  {
    if pieces != [] {
      var p, rest := pieces[0], pieces[1..];
      if p == NEWLINE {
        RunsAreAll(count + 1, rest);
        assert Newlines(count + 1) + rest == Newlines(count) + pieces;
      } else {
        RunsAreAll(0, rest);
        assert pieces == [p] + rest && Newlines(0) + rest == rest;
        var more := Runs(0, rest);
        assert ([Run(count, p)] + more)[1..] == more;
        assert Newlines(count) + ([p] + rest) == (Newlines(count) + [p]) + rest;
        assert (Newlines(count) + [p]) + (Expand(more) + Newlines(Trailing(0, rest)))
            == Newlines(count) + [p] + Expand(more) + Newlines(Trailing(0, rest));
      }
    }
  }

  /** The first pass shortens each run as described, keeps every other piece unchanged and in
      order, and drops the trailing newlines. */
  lemma {:induction false} ShortenByRuns(count: nat, pieces: seq<string>)
    ensures Shorten(count, pieces) == RenderRuns(Runs(count, pieces))
    decreases |pieces|
  {
    if pieces != [] {
      var p, rest := pieces[0], pieces[1..];
      if p == NEWLINE {
        ShortenByRuns(count + 1, rest);
      } else {
        ShortenByRuns(0, rest);
        var more := Runs(0, rest);
        assert ([Run(count, p)] + more)[1..] == more;
        assert Repeat('\n', 1) == NEWLINE && Repeat('\n', 2) == BLANK_LINE;
      }
    }
  }

  // ---------- Idempotence ----------

  lemma {:induction false} ShortenStable(count: nat, pieces: seq<string>)
    ensures Shorten(0, Shorten(count, pieces)) == Shorten(count, pieces)
    decreases |pieces|
  {
    if pieces != [] {
      var p, rest := pieces[0], pieces[1..];
      if p == NEWLINE {
        ShortenStable(count + 1, rest);
      } else {
        ShortenStable(0, rest);
        ShortenGap(count, p, Shorten(0, rest));
      }
    }
  }

  lemma ShortenGap(count: nat, p: string, rest: seq<string>)
    requires p != NEWLINE
    ensures Shorten(0, Gap(count, p) + [p] + rest) == Gap(count, p) + [p] + Shorten(0, rest)
  {
    assert Repeat('\n', 1) == NEWLINE && Repeat('\n', 2) == BLANK_LINE;
    var g := Gap(count, p);
    assert ([p] + rest)[1..] == rest;
    assert Gap(0, p) == [];
    if g == [] {
      assert g + [p] + rest == [p] + rest;
    } else {
      assert (g + [p] + rest)[1..] == [p] + rest;
      if g == [NEWLINE] {
        assert Gap(1, p) == [NEWLINE];
      } else {
        assert Gap(0, BLANK_LINE) == [];
        assert [BLANK_LINE] + ([p] + Shorten(0, rest)) == g + [p] + Shorten(0, rest);
      }
    }
  }

  // ---------- What is read stays ----------

  /** The two texts are read alike from mode `m`, blanks and hyphens aside, and a newline after
      them leaves the scanner in the same mode. */
  predicate ReadAlike(m: Mode, a: string, b: string) {
    Gist(m, a) == Gist(m, b) && After(After(m, a), NEWLINE) == After(After(m, b), NEWLINE)
  }

  lemma {:induction false} NewlinesRead(m: Mode, k: nat)
    ensures Gist(m, Repeat('\n', k)) == []
    ensures After(m, Repeat('\n', k)) == if k == 0 then m else After(m, NEWLINE)
    decreases k
  {
    OneNewline(m);
    if k > 0 {
      OneNewline(After(m, NEWLINE));
      NewlinesRead(After(m, NEWLINE), k - 1);
      assert Repeat('\n', k) == NEWLINE + Repeat('\n', k - 1);
      GistConcat(m, NEWLINE, Repeat('\n', k - 1));
    }
  }

  lemma OneNewline(m: Mode)
    ensures Gist(m, NEWLINE) == [] && After(m, NEWLINE) == Next(m, '\n') && Settled(Next(m, '\n'))
    ensures Settled(m) ==> After(m, NEWLINE) == m
  {
    assert NEWLINE[1..] == "";
    assert Tokens(m, NEWLINE) == Read(m, '\n');
    assert [InLiteral('\n')][1..] == [];
  }

  lemma BlankLineRead(m: Mode)
    ensures Gist(m, BLANK_LINE) == [] && After(m, BLANK_LINE) == After(m, NEWLINE)
  {
    NewlinesRead(m, 2);
    assert BLANK_LINE == Repeat('\n', 2);
  }

  lemma GapText(count: nat, p: string)
    ensures Concat(Gap(count, p)) == Repeat('\n', ShortLength(Run(count, p)))
  {
    var g := Gap(count, p);
    assert Repeat('\n', 1) == NEWLINE && Repeat('\n', 2) == BLANK_LINE && Repeat('\n', 0) == "";
    if g != [] {
      ConcatOne(g[0]);
      assert g == [g[0]];
    }
  }

  /** Shortening runs of newlines, and dropping those at the end, changes nothing that is read. */
  lemma {:induction false} ShortenReads(m: Mode, count: nat, pieces: seq<string>)
    ensures ReadAlike(m, Concat(Shorten(count, pieces)), Repeat('\n', count) + Concat(pieces))
    decreases |pieces|
  {
    hide Gist, After, Repeat, Gap, Concat, Shorten;
    if pieces == [] {
      NothingShortened(count);
      NewlinesRead(m, count);
      assert Repeat('\n', count) + "" == Repeat('\n', count);
      NothingRead(m);
      OneNewline(m);
      if count > 0 {
        OneNewline(After(m, NEWLINE));
      }
    } else {
      var p, rest := pieces[0], pieces[1..];
      assert pieces == [p] + rest;
      ConcatAppend([p], rest);
      ConcatOne(p);
      ShortenCons(count, pieces);
      if p == NEWLINE {
        ShortenReads(m, count + 1, rest);
        OneMore(count);
        assert Repeat('\n', count) + (NEWLINE + Concat(rest)) == Repeat('\n', count + 1) + Concat(rest);
      } else {
        var g := ShortLength(Run(count, p));
        GapText(count, p);
        NewlinesRead(m, g);
        NewlinesRead(m, count);
        var m1 := After(m, Repeat('\n', count));
        var short := Concat(Shorten(0, rest));
        ShortenReads(After(m1, p), 0, rest);
        NoNewlines(Concat(rest));
        ConcatAppend(Gap(count, p) + [p], Shorten(0, rest));
        ConcatAppend(Gap(count, p), [p]);
        assert (Repeat('\n', g) + p) + short == Repeat('\n', g) + (p + short);
        GistConcat(m, Repeat('\n', g), p + short);
        GistConcat(m1, p, short);
        GistConcat(m, Repeat('\n', count), p + Concat(rest));
        GistConcat(m1, p, Concat(rest));
      }
    }
  }

  lemma NothingShortened(count: nat)
    ensures Shorten(count, []) == [] && Concat([]) == ""
  {
  }

  lemma ShortenCons(count: nat, pieces: seq<string>)
    requires pieces != []
    ensures Shorten(count, pieces) == if pieces[0] == NEWLINE then Shorten(count + 1, pieces[1..])
                                      else Gap(count, pieces[0]) + [pieces[0]] + Shorten(0, pieces[1..])
  {
  }

  lemma OneMore(count: nat)
    ensures Repeat('\n', count) + NEWLINE == Repeat('\n', count + 1)
  {
  }

  lemma NoNewlines(s: string)
    ensures Repeat('\n', 0) + s == s
  {
  }

  lemma NothingRead(m: Mode)
    ensures After(m, "") == m && Gist(m, "") == []
  {
  }

  // ---------- Second pass ----------

  predicate IsHeading(para: string) {
    para == "Parameters:" || para == "Exceptions:" || para == "Returns:"
  }

  predicate IsFileLine(para: string) {
    StringParser.Find(para, FILE_MARK, 0).Some?
  }

  /** What is written for one paragraph. `wrap` stands for stripping, filling and pulling the
      first word of a docstring up to its opening quote. */
  function Paragraph(para: string, wrap: string -> string): seq<string> {
    if IsHeading(para) then [para, NEWLINE + Repeat('-', |para|), BLANK_LINE]
    else if IsFileLine(para) then [para, NEWLINE]
    else [wrap(para), BLANK_LINE]
  }

  function Paragraphs(paras: seq<string>, wrap: string -> string): seq<string> {
    if paras == [] then [] else Paragraph(paras[0], wrap) + Paragraphs(paras[1..], wrap)
  }

  /** The three headings, underlined to their length. */
  lemma HeadingsUnderlined(wrap: string -> string)
    ensures Paragraph("Parameters:", wrap) == ["Parameters:", "\n-----------", "\n\n"]
    ensures Paragraph("Exceptions:", wrap) == ["Exceptions:", "\n-----------", "\n\n"]
    ensures Paragraph("Returns:", wrap) == ["Returns:", "\n--------", "\n\n"]
  {
    assert NEWLINE + Repeat('-', 11) == "\n-----------" && NEWLINE + Repeat('-', 8) == "\n--------";
  }

  /** A paragraph with the mark of a file line is left alone, every other one is wrapped. */
  lemma OthersWrapped(para: string, wrap: string -> string)
    requires para !in {"Parameters:", "Exceptions:", "Returns:"}
    ensures Paragraph(para, wrap) == if StringParser.Contains(para, "// File:") then [para, "\n"] else [wrap(para), "\n\n"]
  {
    hide StringParser.MatchAt;
    var found := StringParser.Find(para, FILE_MARK, 0);
    if StringParser.Contains(para, "// File:") {
      var i :| StringParser.MatchAt(para, "// File:", i);
      MatchesWithin(para, "// File:", i);
    }
  }

  lemma MatchesWithin(s: string, d: string, i: int)
    requires StringParser.MatchAt(s, d, i)
    ensures 0 <= i <= |s|
  {
  }

  method CleanPieces(pieces: seq<string>, wrap: string -> string) returns (ret: seq<string>)
    ensures ret == Cleaned(pieces, wrap)
  {
    hide Paragraph, StringParser.SplitFrom, Shorten;
    var short := ShortenRuns(pieces);
    var paras := StringParser.Split(Concat(short), BLANK_LINE);
    ret := [];
    var j := 0;
    while j < |paras|
      invariant 0 <= j <= |paras|
      invariant ret + Paragraphs(paras[j..], wrap) == Paragraphs(paras, wrap)
    {
      ghost var was, rest := ret, paras[j..];
      assert rest[1..] == paras[j + 1..];
      var out := WriteParagraph(paras[j], wrap);
      ret := ret + out;
      Assoc(was, out, Paragraphs(rest[1..], wrap));
      j := j + 1;
    }
  }

  method WriteParagraph(i: string, wrap: string -> string) returns (out: seq<string>)
    ensures out == Paragraph(i, wrap)
  {
    if i == "Parameters:" || i == "Exceptions:" || i == "Returns:" {
      out := [i, NEWLINE + Repeat('-', |i|), BLANK_LINE];
    } else if StringParser.Find(i, FILE_MARK, 0).Some? {
      out := [i, NEWLINE];
    } else {
      out := [wrap(i), BLANK_LINE];
    }
  }

  function Cleaned(pieces: seq<string>, wrap: string -> string): seq<string> {
    Paragraphs(StringParser.Split(Concat(Shorten(0, pieces)), BLANK_LINE), wrap)
  }

  predicate IsText(para: string) {
    !IsHeading(para) && !IsFileLine(para)
  }

  /** Wrapping a paragraph, read from the mode it starts in, changes no more than blanks and
      hyphens. */
  predicate WrapKeeps(m: Mode, paras: seq<string>, wrap: string -> string)
    decreases |paras|
  {
    paras == []
    || (&& (IsText(paras[0]) ==> ReadAlike(m, wrap(paras[0]), paras[0]))
        && WrapKeeps(After(After(m, paras[0]), NEWLINE), paras[1..], wrap))
  }

  /** The line under a heading. */
  lemma {:induction false} DashesRead(m: Mode, n: nat)
    requires Settled(m)
    ensures Gist(m, Repeat('-', n)) == [] && After(m, Repeat('-', n)) == m
    decreases n
  {
    if n > 0 {
      DashesRead(m, n - 1);
      var s := Repeat('-', n);
      assert s[0] == '-' && s[1..] == Repeat('-', n - 1);
      assert Read(m, '-') == [InCode('-')] || Read(m, '-') == [] || Read(m, '-') == [InLiteral('-')];
      EssenceConcat(Read(m, '-'), Tokens(m, s[1..]));
      assert [InCode('-')][1..] == [] && [InLiteral('-')][1..] == [];
    }
  }

  lemma ParagraphReads(m: Mode, para: string, wrap: string -> string)
    requires IsText(para) ==> ReadAlike(m, wrap(para), para)
    ensures Gist(m, Concat(Paragraph(para, wrap))) == Gist(m, para)
    ensures After(m, Concat(Paragraph(para, wrap))) == After(After(m, para), NEWLINE)
  {
    hide After, Gist, StringParser.Find, Repeat, Concat;
    var after := After(m, para);
    OneNewline(after);
    BlankLineRead(after);
    if IsHeading(para) {
      var m1, dashes := After(after, NEWLINE), Repeat('-', |para|);
      ConcatThree(para, NEWLINE + dashes, BLANK_LINE);
      DashesRead(m1, |para|);
      OneNewline(m1);
      BlankLineRead(m1);
      GistConcat(after, NEWLINE, dashes);
      GistConcat(m, para, NEWLINE + dashes);
      GistConcat(m, para + (NEWLINE + dashes), BLANK_LINE);
    } else if IsFileLine(para) {
      ConcatTwo(para, NEWLINE);
      GistConcat(m, para, NEWLINE);
    } else {
      ConcatTwo(wrap(para), BLANK_LINE);
      BlankLineRead(After(m, wrap(para)));
      GistConcat(m, wrap(para), BLANK_LINE);
    }
  }

  lemma ConcatTwo(a: string, b: string)
    ensures Concat([a, b]) == a + b
  {
    assert [a, b][1..] == [b] && [b][1..] == [];
    assert Concat([b]) == b + Concat([]) == b;
  }

  lemma ConcatThree(a: string, b: string, c: string)
    ensures Concat([a, b, c]) == a + b + c
  {
    assert [a, b, c][1..] == [b, c];
    ConcatTwo(b, c);
    assert a + (b + c) == a + b + c;
  }

  /** Reading the paragraphs is reading the text they were cut from. */
  lemma {:induction false} ParagraphsRead(m: Mode, paras: seq<string>, wrap: string -> string)
    requires paras != [] && WrapKeeps(m, paras, wrap)
    ensures Gist(m, Concat(Paragraphs(paras, wrap))) == Gist(m, StringParser.Join(paras, BLANK_LINE))
    ensures After(m, Concat(Paragraphs(paras, wrap))) == After(After(m, StringParser.Join(paras, BLANK_LINE)), NEWLINE)
    decreases |paras|
  {
    hide After, Gist, Concat, Paragraph, IsHeading, IsFileLine;
    var p, rest := paras[0], paras[1..];
    var here, later := Concat(Paragraph(p, wrap)), Concat(Paragraphs(rest, wrap));
    ParagraphReads(m, p, wrap);
    ConcatAppend(Paragraph(p, wrap), Paragraphs(rest, wrap));
    GistConcat(m, here, later);
    if rest == [] {
      NothingRead(After(m, here));
      NothingShortened(0);
    } else {
      ParagraphsRead(After(After(m, p), NEWLINE), rest, wrap);
      BlankLineRead(After(m, p));
      var text := StringParser.Join(rest, BLANK_LINE);
      GistConcat(m, p, BLANK_LINE);
      GistConcat(m, p + BLANK_LINE, text);
    }
  }

  /** Cleaning changes nothing that is read but blanks and hyphens, whatever the pieces are. */
  lemma CleanedReads(pieces: seq<string>, wrap: string -> string)
    requires WrapKeeps(Code, StringParser.Split(Concat(Shorten(0, pieces)), BLANK_LINE), wrap)
    ensures Gist(Code, Concat(Cleaned(pieces, wrap))) == Gist(Code, Concat(pieces))
    ensures After(Code, Concat(Cleaned(pieces, wrap))) == After(After(Code, Concat(pieces)), NEWLINE)
  {
    hide After, Gist, Concat, Shorten, Paragraphs, WrapKeeps;
    var short := Concat(Shorten(0, pieces));
    ShortenReads(Code, 0, pieces);
    NoNewlines(Concat(pieces));
    var paras := StringParser.Split(short, BLANK_LINE);
    StringParser.JoinSplit(short, BLANK_LINE);
    ParagraphsRead(Code, paras, wrap);
  }
}
