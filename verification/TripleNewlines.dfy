/** Newlines in what `clean_pieces` of src/doxy2swig.py makes: when the text it joins in between,
    and the text it returns, have three in a row. */
module TripleNewlines {
  import opened SwigLexer
  import opened Escape
  import opened CleanPieces
  import opened Wrappers
  import StringParser

  // ---------- Three newlines in a row ----------

  predicate NoTriple(s: string) {
    forall i :: 0 <= i < |s| - 2 ==> !(s[i] == '\n' && s[i + 1] == '\n' && s[i + 2] == '\n')
  }

  /** The newlines a text starts with, and those it ends with. */
  function LeadNewlines(s: string): (n: nat)
    ensures n <= |s| && (forall i :: 0 <= i < n ==> s[i] == '\n') && (n < |s| ==> s[n] != '\n')
  {
    if s == "" || s[0] != '\n' then 0 else 1 + LeadNewlines(s[1..])
  }

  function EndNewlines(s: string): (n: nat)
    ensures n <= |s| && (forall i :: |s| - n <= i < |s| ==> s[i] == '\n') && (n < |s| ==> s[|s| - n - 1] != '\n')
  {
    if s == "" || s[|s| - 1] != '\n' then 0 else 1 + EndNewlines(s[..|s| - 1])
  }

  /** The newlines at the end of `p`, when `k` newlines stand right before it. */
  function Carry(k: nat, p: string): nat {
    if LeadNewlines(p) == |p| then k + |p| else EndNewlines(p)
  }

  /** Three newlines do not reach over any other character. */
  lemma NoTripleCut(a: string, b: string)
    requires a != "" && a[|a| - 1] != '\n'
    ensures NoTriple(a + b) <==> NoTriple(a) && NoTriple(b)
  {
    var s := a + b;
    assert forall i :: 0 <= i < |b| ==> s[|a| + i] == b[i];
    if NoTriple(a) && NoTriple(b) {
      forall i | 0 <= i < |s| - 2
        ensures !(s[i] == '\n' && s[i + 1] == '\n' && s[i + 2] == '\n')
      {
        if |a| <= i {
          assert s[i] == b[i - |a|] && s[i + 1] == b[i - |a| + 1] && s[i + 2] == b[i - |a| + 2];
        } else if |a| <= i + 2 {
          assert s[|a| - 1] == a[|a| - 1];
        }
      }
    } else if !NoTriple(a) {
      var i :| 0 <= i < |a| - 2 && a[i] == '\n' && a[i + 1] == '\n' && a[i + 2] == '\n';
      assert s[i] == '\n' && s[i + 1] == '\n' && s[i + 2] == '\n';
    } else {
      var i :| 0 <= i < |b| - 2 && b[i] == '\n' && b[i + 1] == '\n' && b[i + 2] == '\n';
      assert s[|a| + i] == '\n' && s[|a| + i + 1] == '\n' && s[|a| + i + 2] == '\n';
    }
  }

  lemma NewlinesThen(k: nat, s: string)
    requires s == "" || s[0] != '\n'
    ensures NoTriple(Repeat('\n', k) + s) <==> k <= 2 && NoTriple(s)
  {
    var t := Repeat('\n', k) + s;
    assert forall i :: 0 <= i < |s| ==> t[k + i] == s[i];
    if k >= 3 {
      assert t[0] == '\n' && t[0 + 1] == '\n' && t[0 + 2] == '\n';
    } else if NoTriple(s) {
      forall i | 0 <= i < |t| - 2
        ensures !(t[i] == '\n' && t[i + 1] == '\n' && t[i + 2] == '\n')
      {
        if i < k {
          assert t[k] == s[0];
        } else {
          assert t[i] == s[i - k] && t[i + 1] == s[i - k + 1] && t[i + 2] == s[i - k + 2];
        }
      }
    } else {
      var i :| 0 <= i < |s| - 2 && s[i] == '\n' && s[i + 1] == '\n' && s[i + 2] == '\n';
      assert t[k + i] == '\n' && t[k + i + 1] == '\n' && t[k + i + 2] == '\n';
    }
  }

  lemma RepeatSum(a: nat, b: nat)
    ensures Repeat('\n', a) + Repeat('\n', b) == Repeat('\n', a + b)
  {
  }

  /** One piece in a text: what it needs of the newlines before it, and what it leaves behind. */
  lemma OnePiece(k: nat, p: string, rest: string)
    ensures NoTriple(Repeat('\n', k) + (p + rest))
            <==> NoTriple(p) && k + LeadNewlines(p) <= 2 && NoTriple(Repeat('\n', Carry(k, p)) + rest)
  {
    hide NoTriple, Repeat, LeadNewlines, EndNewlines;
    var a := LeadNewlines(p);
    if a == |p| {
      AllNewlines(p);
      OnlyNewlines(k, a, rest);
    } else {
      var core := Core(p);
      OneCore(k, a, core, EndNewlines(p), rest);
    }
  }

  lemma AllNewlines(p: string)
    requires LeadNewlines(p) == |p|
    ensures p == Repeat('\n', |p|)
  {
  }

  lemma OnlyNewlines(k: nat, a: nat, rest: string)
    ensures NoTriple(Repeat('\n', k) + (Repeat('\n', a) + rest))
            <==> NoTriple(Repeat('\n', a)) && k + a <= 2 && NoTriple(Repeat('\n', k + a) + rest)
  {
    hide NoTriple;
    RepeatSum(k, a);
    assert Repeat('\n', k) + (Repeat('\n', a) + rest) == Repeat('\n', k + a) + rest;
    NewlinesPrefix(k + a, rest);
    NothingTriple();
    NewlinesThen(a, "");
    assert Repeat('\n', a) + "" == Repeat('\n', a);
  }

  /** A piece without the newlines at its ends. */
  lemma Core(p: string) returns (core: string)
    requires LeadNewlines(p) < |p|
    ensures core != "" && core[0] != '\n' && core[|core| - 1] != '\n'
    ensures p == Repeat('\n', LeadNewlines(p)) + core + Repeat('\n', EndNewlines(p))
  {
    EndAfterLead(p);
    core := p[LeadNewlines(p)..|p| - EndNewlines(p)];
  }

  lemma OneCore(k: nat, a: nat, core: string, q: nat, rest: string)
    requires core != "" && core[0] != '\n' && core[|core| - 1] != '\n'
    ensures NoTriple(Repeat('\n', k) + ((Repeat('\n', a) + core + Repeat('\n', q)) + rest))
            <==> NoTriple(Repeat('\n', a) + core + Repeat('\n', q)) && k + a <= 2 && NoTriple(Repeat('\n', q) + rest)
  {
    hide NoTriple, Repeat;
    var front := Repeat('\n', k + a) + core;
    RepeatSum(k, a);
    assert Repeat('\n', k) + ((Repeat('\n', a) + core + Repeat('\n', q)) + rest) == front + (Repeat('\n', q) + rest);
    NoTripleCut(front, Repeat('\n', q) + rest);
    NewlinesThen(k + a, core);
    NoTripleCut(Repeat('\n', a) + core, Repeat('\n', q));
    NewlinesThen(a, core);
    NewlinesPrefix(q, rest);
    NothingTriple();
    NewlinesThen(q, "");
    assert Repeat('\n', q) + "" == Repeat('\n', q);
  }

  lemma NothingTriple()
    ensures NoTriple("")
  {
  }

  lemma EndAfterLead(p: string)
    requires LeadNewlines(p) < |p|
    ensures LeadNewlines(p) + EndNewlines(p) < |p|
    ensures p[|p| - EndNewlines(p) - 1] != '\n'
  {
  }

  lemma NewlinesPrefix(k: nat, rest: string)
    ensures NoTriple(Repeat('\n', k) + rest) ==> k <= 2
  {
    var t := Repeat('\n', k) + rest;
    if k >= 3 {
      assert t[0] == '\n' && t[0 + 1] == '\n' && t[0 + 2] == '\n';
    }
  }

  // ---------- After the first pass ----------

  /** With `k` newlines in front, no junction of a piece, the shortened run before it and the
      pieces around it brings three newlines together. */
  predicate RunsFit(k: nat, runs: seq<Run>)
    decreases |runs|
  {
    if runs == [] then k <= 2
    else
      var p, before := runs[0].piece, k + ShortLength(runs[0]);
      NoTriple(p) && before + LeadNewlines(p) <= 2 && RunsFit(Carry(before, p), runs[1..])
  }

  lemma {:induction false} RunsFitIff(k: nat, runs: seq<Run>)
    ensures NoTriple(Repeat('\n', k) + Concat(RenderRuns(runs))) <==> RunsFit(k, runs)
    decreases |runs|
  {
    hide NoTriple, LeadNewlines, EndNewlines, Carry, Repeat, ShortLength, Shortened, Concat;
    if runs == [] {
      NewlinesThen(k, "");
      NothingTriple();
      NothingShortened(0);
    } else {
      var r, rest := runs[0], Concat(RenderRuns(runs[1..]));
      var n := ShortLength(r);
      ShortenedText(r);
      ConcatAppend(Shortened(r), RenderRuns(runs[1..]));
      RepeatSum(k, n);
      assert Repeat('\n', k) + ((Repeat('\n', n) + r.piece) + rest) == (Repeat('\n', k) + Repeat('\n', n)) + (r.piece + rest);
      OnePiece(k + n, r.piece, rest);
      RunsFitIff(Carry(k + n, r.piece), runs[1..]);
    }
  }

  lemma ShortenedText(r: Run)
    ensures Concat(Shortened(r)) == Repeat('\n', ShortLength(r)) + r.piece
  {
    ConcatOne(r.piece);
    if ShortLength(r) > 0 {
      ConcatAppend([Repeat('\n', ShortLength(r))], [r.piece]);
      ConcatOne(Repeat('\n', ShortLength(r)));
    }
  }

  /** The text joined after the first pass has no three newlines in a row if and only if no piece
      holds three and no junction brings three together. */
  lemma JoinedNewlinesIff(count: nat, pieces: seq<string>)
    ensures NoTriple(Concat(Shorten(count, pieces))) <==> RunsFit(0, Runs(count, pieces))
  {
    ShortenByRuns(count, pieces);
    RunsFitIff(0, Runs(count, pieces));
    NoNewlines(Concat(Shorten(count, pieces)));
  }

  /** A piece that brings no newline of its own to its ends and no empty line inside. */
  predicate Tidy(p: string) {
    && p != "" && p[0] != '\n' && p[|p| - 1] != '\n'
    && forall i :: 0 <= i < |p| - 1 ==> !(p[i] == '\n' && p[i + 1] == '\n')
  }

  lemma TidyFits(p: string)
    requires Tidy(p)
    ensures NoTriple(p) && LeadNewlines(p) == 0 < |p| && EndNewlines(p) == 0
  {
  }

  lemma {:induction false} TidyRunsFit(count: nat, pieces: seq<string>)
    requires forall p :: p in pieces && p != NEWLINE ==> Tidy(p)
    ensures RunsFit(0, Runs(count, pieces))
    decreases |pieces|
  {
    hide NoTriple, Tidy, LeadNewlines, EndNewlines;
    if pieces != [] {
      var p, rest := pieces[0], pieces[1..];
      assert p in pieces && forall q :: q in rest ==> q in pieces;
      if p == NEWLINE {
        TidyRunsFit(count + 1, rest);
      } else {
        TidyRunsFit(0, rest);
        TidyFits(p);
        assert ([Run(count, p)] + Runs(0, rest))[1..] == Runs(0, rest);
      }
    }
  }

  /** In particular, tidy pieces never bring three newlines together. */
  lemma AtMostTwoNewlines(count: nat, pieces: seq<string>)
    requires forall p :: p in pieces && p != NEWLINE ==> Tidy(p)
    ensures NoTriple(Concat(Shorten(count, pieces)))
  {
    JoinedNewlinesIff(count, pieces);
    TidyRunsFit(count, pieces);
  }

  // ---------- Three newlines in what is returned ----------

  /** What stripping and filling give: nothing, or lines without an empty one among them. */
  predicate WrapTidies(paras: seq<string>, wrap: string -> string) {
    forall p :: p in paras && IsText(p) ==> wrap(p) == "" || Tidy(wrap(p))
  }

  /** Paragraphs as `split` leaves them: no empty line in one, and no newline at its end unless it
      is the last. */
  ghost predicate Cut(paras: seq<string>) {
    forall j :: 0 <= j < |paras| ==>
      && !StringParser.Contains(paras[j], BLANK_LINE)
      && (j < |paras| - 1 ==> EndNewlines(paras[j]) == 0)
  }

  lemma {:induction false} SplitCuts(s: string, start: nat)
    requires start <= |s|
    ensures Cut(StringParser.SplitFrom(s, BLANK_LINE, start))
    decreases |s| - start
  {
    hide StringParser.Contains, EndNewlines, StringParser.SplitFrom, StringParser.MatchAt, StringParser.NoMatch;
    var found := StringParser.Find(s, BLANK_LINE, start);
    if found.Some? {
      var i := found.value;
      var rest := StringParser.SplitFrom(s, BLANK_LINE, i + 2);
      SplitStep(s, BLANK_LINE, start);
      SplitCuts(s, i + 2);
      TokenEnd(s, start, i);
      StringParser.SliceIsFree(s, BLANK_LINE, start, i);
      CutCons(s[start..i], rest);
    } else {
      LastCut(s, start);
    }
  }

  lemma LastCut(s: string, start: nat)
    requires start <= |s| && StringParser.Find(s, BLANK_LINE, start).None?
    ensures Cut(StringParser.SplitFrom(s, BLANK_LINE, start))
  {
    hide StringParser.Contains, EndNewlines;
    StringParser.SliceIsFree(s, BLANK_LINE, start, |s|);
    assert s[start..|s|] == s[start..];
  }

  lemma CutCons(p: string, rest: seq<string>)
    requires !StringParser.Contains(p, BLANK_LINE) && EndNewlines(p) == 0 && Cut(rest)
    ensures Cut([p] + rest)
  {
    hide StringParser.Contains, EndNewlines;
    assert forall j :: 0 <= j < |rest| ==> ([p] + rest)[j + 1] == rest[j];
  }

  lemma CutTail(p: string, rest: seq<string>)
    requires Cut([p] + rest)
    ensures Cut(rest)
  {
    hide StringParser.Contains, EndNewlines;
    forall j | 0 <= j < |rest|
      ensures !StringParser.Contains(rest[j], BLANK_LINE)
      ensures j < |rest| - 1 ==> EndNewlines(rest[j]) == 0
    {
      assert ([p] + rest)[j + 1] == rest[j];
    }
  }

  /** A newline right before the leftmost match would be a match of its own. */
  lemma TokenEnd(s: string, start: nat, i: nat)
    requires start <= i && StringParser.MatchAt(s, BLANK_LINE, i) && StringParser.NoMatch(s, BLANK_LINE, start, i)
    ensures EndNewlines(s[start..i]) == 0
  {
    if start < i {
      assert s[i + 0] == BLANK_LINE[0];
      assert !StringParser.MatchAt(s, BLANK_LINE, i - 1);
    }
  }

  lemma NoEmptyLine(p: string)
    requires !StringParser.Contains(p, BLANK_LINE)
    ensures NoTriple(p) && LeadNewlines(p) <= 1 && EndNewlines(p) <= 1
  {
    forall i | 0 <= i < |p| - 1
      ensures !(p[i] == '\n' && p[i + 1] == '\n')
    {
      assert !StringParser.MatchAt(p, BLANK_LINE, i);
    }
  }

  /** A file line holds a slash, a heading does not. */
  lemma FileLineHasSlash(p: string)
    requires IsFileLine(p)
    ensures LeadNewlines(p) < |p| && !IsHeading(p)
  {
    hide IsHeading, LeadNewlines;
    SlashInFileLine(p);
    if IsHeading(p) {
      NoSlashInHeading(p);
    }
  }

  lemma SlashInFileLine(p: string)
    requires IsFileLine(p)
    ensures '/' in p
  {
    hide StringParser.Find;
    var i := StringParser.Find(p, FILE_MARK, 0).value;
    assert p[i + 0] == FILE_MARK[0];
  }

  lemma NoSlashInHeading(p: string)
    requires IsHeading(p)
    ensures '/' !in p
  {
  }

  lemma HeadingText(p: string)
    requires IsHeading(p)
    ensures var t := p + (NEWLINE + Repeat('-', |p|));
            NoTriple(t) && LeadNewlines(t) == 0 < |t| && EndNewlines(t) == 0
  {
    var t := p + (NEWLINE + Repeat('-', |p|));
    assert forall i :: 0 <= i < |t| && i != |p| ==> t[i] != '\n';
  }

  /** The newlines that end what is written for a paragraph. */
  function Ending(para: string): nat {
    if IsFileLine(para) then 1 else 2
  }

  /** What one paragraph of the returned text needs, with `k` newlines in front, and what it
      leaves to what follows. */
  predicate ParagraphFits(k: nat, para: string, wrap: string -> string) {
    && (IsText(para) && k > 0 ==> wrap(para) != "")
    && (IsFileLine(para) && LeadNewlines(para) > 0 ==> k <= 1)
  }

  lemma OneParagraph(k: nat, para: string, wrap: string -> string, rest: string)
    requires k <= 2 && !StringParser.Contains(para, BLANK_LINE) && (EndNewlines(para) == 0 || rest == "")
    requires IsText(para) ==> wrap(para) == "" || Tidy(wrap(para))
    ensures NoTriple(Repeat('\n', k) + (Concat(Paragraph(para, wrap)) + rest))
            <==> ParagraphFits(k, para, wrap) && NoTriple(Repeat('\n', Ending(para)) + rest)
  {
    hide NoTriple, LeadNewlines, EndNewlines, Tidy, Concat, IsHeading, IsFileLine, StringParser.Contains, Repeat;
    if IsFileLine(para) {
      FileLineHasSlash(para);
      FileParagraph(k, para, rest);
      ConcatTwo(para, NEWLINE);
    } else if IsHeading(para) {
      HeadingParagraph(k, para, rest);
      ConcatThree(para, NEWLINE + Repeat('-', |para|), BLANK_LINE);
    } else {
      TextParagraph(k, wrap(para), rest);
      ConcatTwo(wrap(para), BLANK_LINE);
    }
  }

  lemma HeadingParagraph(k: nat, para: string, rest: string)
    requires k <= 2 && IsHeading(para)
    ensures NoTriple(Repeat('\n', k) + ((para + (NEWLINE + Repeat('-', |para|)) + BLANK_LINE) + rest))
            <==> NoTriple(Repeat('\n', 2) + rest)
  {
    hide NoTriple, LeadNewlines, EndNewlines, IsHeading;
    var t := para + (NEWLINE + Repeat('-', |para|));
    HeadingText(para);
    assert BLANK_LINE == Repeat('\n', 2);
    NoNewlines(Repeat('\n', 2) + rest);
    assert (t + BLANK_LINE) + rest == t + (Repeat('\n', 2) + rest);
    OnePiece(k, t, Repeat('\n', 2) + rest);
  }

  lemma TextParagraph(k: nat, w: string, rest: string)
    requires k <= 2 && (w == "" || Tidy(w))
    ensures NoTriple(Repeat('\n', k) + ((w + BLANK_LINE) + rest)) <==> (k > 0 ==> w != "") && NoTriple(Repeat('\n', 2) + rest)
  {
    hide NoTriple, LeadNewlines, EndNewlines, Tidy;
    assert BLANK_LINE == Repeat('\n', 2);
    NoNewlines(Repeat('\n', 2) + rest);
    assert (w + BLANK_LINE) + rest == w + (Repeat('\n', 2) + rest);
    if w == "" {
      assert Repeat('\n', k) + (w + (Repeat('\n', 2) + rest)) == Repeat('\n', k + 2) + rest;
      NewlinesPrefix(k + 2, rest);
    } else {
      TidyFits(w);
      OnePiece(k, w, Repeat('\n', 2) + rest);
    }
  }

  lemma FileParagraph(k: nat, para: string, rest: string)
    requires k <= 2 && !StringParser.Contains(para, BLANK_LINE) && LeadNewlines(para) < |para|
    requires EndNewlines(para) == 0 || rest == ""
    ensures NoTriple(Repeat('\n', k) + ((para + NEWLINE) + rest))
            <==> (LeadNewlines(para) > 0 ==> k <= 1) && NoTriple(Repeat('\n', 1) + rest)
  {
    hide NoTriple, LeadNewlines, EndNewlines, StringParser.Contains;
    NoEmptyLine(para);
    var q := EndNewlines(para);
    assert NEWLINE == Repeat('\n', 1);
    RepeatSum(q, 1);
    assert (para + NEWLINE) + rest == para + (Repeat('\n', 1) + rest);
    OnePiece(k, para, Repeat('\n', 1) + rest);
    assert Repeat('\n', q) + (Repeat('\n', 1) + rest) == Repeat('\n', q + 1) + rest;
    if rest == "" {
      NothingTriple();
      NewlinesThen(q + 1, "");
      NewlinesThen(1, "");
    }
  }

  /** After the first paragraph: none that is wrapped to nothing, and no file line that starts with
      a newline but right after another file line. */
  predicate NeverThree(paras: seq<string>, wrap: string -> string) {
    forall j :: 1 <= j < |paras| ==>
      && (IsText(paras[j]) ==> wrap(paras[j]) != "")
      && (IsFileLine(paras[j]) && LeadNewlines(paras[j]) > 0 ==> IsFileLine(paras[j - 1]))
  }

  lemma {:induction false} LaterParagraphs(before: string, paras: seq<string>, wrap: string -> string)
    requires Cut([before] + paras) && WrapTidies(paras, wrap)
    ensures NoTriple(Repeat('\n', Ending(before)) + Concat(Paragraphs(paras, wrap))) <==> NeverThree([before] + paras, wrap)
    decreases |paras|
  {
    hide NoTriple, Paragraph, IsHeading, IsFileLine, StringParser.Contains, LeadNewlines, EndNewlines, Repeat, Tidy,
      NeverThree, Cut;
    if paras == [] {
      NothingShortened(0);
      NothingTriple();
      NewlinesThen(Ending(before), "");
      OnlyOne(before, wrap);
    } else {
      var p, rest := paras[0], paras[1..];
      assert paras == [p] + rest && p in paras;
      CutTail(before, paras);
      LaterParagraphs(p, rest, wrap);
      FirstParagraph(Ending(before), p, rest, wrap);
      NeverThreeCons(before, paras, wrap);
    }
  }

  lemma FirstParagraph(k: nat, p: string, rest: seq<string>, wrap: string -> string)
    requires k <= 2 && Cut([p] + rest) && WrapTidies([p] + rest, wrap)
    ensures NoTriple(Repeat('\n', k) + Concat(Paragraphs([p] + rest, wrap)))
            <==> ParagraphFits(k, p, wrap) && NoTriple(Repeat('\n', Ending(p)) + Concat(Paragraphs(rest, wrap)))
  {
    hide NoTriple, Paragraph, IsHeading, IsFileLine, StringParser.Contains, LeadNewlines, EndNewlines, Repeat, Tidy,
      ParagraphFits;
    var all := [p] + rest;
    assert all[0] == p && all[1..] == rest && p in all;
    ConcatAppend(Paragraph(p, wrap), Paragraphs(rest, wrap));
    if rest == [] {
      NothingShortened(0);
    }
    OneParagraph(k, p, wrap, Concat(Paragraphs(rest, wrap)));
  }

  lemma OnlyOne(p: string, wrap: string -> string)
    ensures NeverThree([p] + [], wrap)
  {
  }

  lemma NeverThreeCons(before: string, paras: seq<string>, wrap: string -> string)
    requires paras != []
    ensures NeverThree([before] + paras, wrap)
            <==> && (IsText(paras[0]) ==> wrap(paras[0]) != "")
                 && (IsFileLine(paras[0]) && LeadNewlines(paras[0]) > 0 ==> IsFileLine(before))
                 && NeverThree(paras, wrap)
  {
    hide IsHeading, IsFileLine, LeadNewlines;
    var all := [before] + paras;
    assert all[0] == before && forall j :: 0 <= j < |paras| ==> all[j + 1] == paras[j];
    if NeverThree(all, wrap) {
      forall j | 1 <= j < |paras|
        ensures IsText(paras[j]) ==> wrap(paras[j]) != ""
        ensures IsFileLine(paras[j]) && LeadNewlines(paras[j]) > 0 ==> IsFileLine(paras[j - 1])
      {
        assert all[j + 1] == paras[j] && all[j + 1 - 1] == paras[j - 1];
      }
      assert all[1] == paras[0] && all[1 - 1] == before;
    }
  }

  /** What `clean_pieces` says of itself, that it leaves at most two newlines in a row, holds of
      the text it returns if and only if no paragraph after the first is wrapped to nothing, and no
      file line that starts with a newline follows anything but another file line. */
  lemma CleanedNewlinesIff(pieces: seq<string>, wrap: string -> string)
    requires WrapTidies(StringParser.Split(Concat(Shorten(0, pieces)), BLANK_LINE), wrap)
    ensures NoTriple(Concat(Cleaned(pieces, wrap)))
            <==> NeverThree(StringParser.Split(Concat(Shorten(0, pieces)), BLANK_LINE), wrap)
  {
    hide NoTriple, Paragraph, IsHeading, IsFileLine, StringParser.Contains, StringParser.SplitFrom, LeadNewlines,
      EndNewlines, Tidy, Shorten, NeverThree;
    var short := Concat(Shorten(0, pieces));
    var paras := StringParser.Split(short, BLANK_LINE);
    SplitCuts(short, 0);
    var p, rest := paras[0], paras[1..];
    assert paras == [p] + rest && p in paras;
    LaterParagraphs(p, rest, wrap);
    FirstParagraph(0, p, rest, wrap);
    NoNewlines(Concat(Paragraphs(paras, wrap)));
  }

  /** A paragraph between two empty lines, the first of which follows another character, is cut
      out as it is, and is not the first one. */
  lemma CutOut(a: string, mid: string, b: string) returns (j: nat)
    requires a != "" && a[|a| - 1] != '\n'
    requires mid != "" && '\n' !in mid
    ensures var paras := StringParser.Split(a + BLANK_LINE + mid + BLANK_LINE + b, BLANK_LINE);
            1 <= j < |paras| && paras[j] == mid
  {
    var s := a + BLANK_LINE + mid + BLANK_LINE + b;
    var at := |a|;
    assert s[at - 1] == a[|a| - 1] && s[at] == '\n' && s[at + 1] == '\n';
    assert s[at + 2..at + 2 + |mid|] == mid;
    assert s[at + 2 + |mid|] == '\n' && s[at + 2 + |mid| + 1] == '\n';
    j := CutAt(s, mid, at, 0);
  }

  lemma {:induction false} CutAt(s: string, mid: string, at: nat, start: nat) returns (j: nat)
    requires start <= at && 0 < at && mid != "" && '\n' !in mid && at + 4 + |mid| <= |s|
    requires s[at - 1] != '\n' && s[at] == '\n' && s[at + 1] == '\n'
    requires s[at + 2..at + 2 + |mid|] == mid && s[at + 2 + |mid|] == '\n' && s[at + 2 + |mid| + 1] == '\n'
    ensures 1 <= j < |StringParser.SplitFrom(s, BLANK_LINE, start)|
    ensures StringParser.SplitFrom(s, BLANK_LINE, start)[j] == mid
    decreases at - start
  {
    hide StringParser.SplitFrom, StringParser.Find;
    assert StringParser.MatchAt(s, BLANK_LINE, at);
    var i := StringParser.Find(s, BLANK_LINE, start).value;
    assert i <= at;
    SplitStep(s, BLANK_LINE, start);
    if i < at {
      assert s[i + 0] == BLANK_LINE[0] && s[i + 1] == BLANK_LINE[1];
      j := CutAt(s, mid, at, i + 2);
      j := j + 1;
    } else {
      NextCut(s, mid, at + 2);
      SplitStep(s, BLANK_LINE, at + 2);
      j := 1;
    }
  }

  /** A stretch without newlines, up to the next empty line. */
  lemma NextCut(s: string, mid: string, from: nat)
    requires mid != "" && '\n' !in mid && from + |mid| + 2 <= |s|
    requires s[from..from + |mid|] == mid && s[from + |mid|] == '\n' && s[from + |mid| + 1] == '\n'
    ensures StringParser.Find(s, BLANK_LINE, from) == Some(from + |mid|)
  {
    hide StringParser.Find;
    var next := from + |mid|;
    forall k | from <= k < next
      ensures !StringParser.MatchAt(s, BLANK_LINE, k)
    {
      assert s[k] == s[from..next][k - from] == mid[k - from] && mid[k - from] in mid;
      assert s[k + 0] != BLANK_LINE[0];
    }
    StringParser.FindIs(s, BLANK_LINE, from, next);
  }

  lemma SplitStep(s: string, d: string, start: nat)
    requires d != "" && start <= |s| && StringParser.Find(s, d, start).Some?
    ensures var i := StringParser.Find(s, d, start).value;
            StringParser.SplitFrom(s, d, start) == [s[start..i]] + StringParser.SplitFrom(s, d, i + |d|)
  {
  }
}
