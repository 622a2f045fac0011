/** What the reader of a generated file should find: documentation directives, one after the
    other, each with its own docstring. */
module Directives {
  import opened Wrappers
  import opened SwigLexer
  import opened Escape
  import opened DoxygenEmitter

  /** A directive documents `name`; its docstring is the definition of a function or method, as
      Doxygen has it, and then the text of the documentation. */
  datatype Directive = Directive(name: string, definition: string, body: string)

  function Doc(d: Directive): string {
    "\n" + d.definition + d.body
  }

  function Opening(name: string): seq<Token> {
    CodeText("%feature(") + [Open] + LiteralText("docstring") + [Close] + CodeText(")") + CodeText(name) + [Open]
  }

  /** The directive as it should be read: `%feature("docstring") name "doc";`. */
  function Written(d: Directive): seq<Token> {
    Opening(d.name) + (LiteralText(Doc(d)) + [Close] + [InCode(';')])
  }

  function WrittenAll(ds: seq<Directive>): seq<Token> {
    if ds == [] then [] else Written(ds[0]) + WrittenAll(ds[1..])
  }

  lemma {:induction false} WrittenAllConcat(a: seq<Directive>, b: seq<Directive>)
    ensures WrittenAll(a + b) == WrittenAll(a) + WrittenAll(b)
    decreases |a|
  {
    hide Written;
    if a == [] {
      assert a + b == b;
    } else {
      assert (a + b)[1..] == a[1..] + b;
      WrittenAllConcat(a[1..], b);
    }
  }

  lemma WrittenOne(d: Directive)
    ensures WrittenAll([d]) == Written(d)
  {
    assert WrittenAll([d]) == Written(d) + WrittenAll([]);
  }

  // ---------- What a reader recovers ----------

  /** The contents of the literals in `ts`, in order; `part` is what has been read of the current one. */
  function Literals(part: string, ts: seq<Token>): seq<string>
    decreases |ts|
  {
    if ts == [] then []
    else
      match ts[0]
      case Open => Literals("", ts[1..])
      case InLiteral(c) => Literals(part + [c], ts[1..])
      case Close => [part] + Literals("", ts[1..])
      case InCode(_) => Literals(part, ts[1..])
  }

  /** What the literals of directives should hold: for each the word "docstring" and its text. */
  function DocLiterals(ds: seq<Directive>): seq<string> {
    if ds == [] then [] else ["docstring", Doc(ds[0])] + DocLiterals(ds[1..])
  }

  lemma {:induction false} LiteralsOfText(part: string, s: string, ts: seq<Token>)
    ensures Literals(part, LiteralText(s) + ([Close] + ts)) == [part + s] + Literals("", ts)
    decreases |s|
  {
    var all := LiteralText(s) + ([Close] + ts);
    if s == "" {
      assert all == [Close] + ts && all[1..] == ts && part + s == part;
    } else {
      assert all[0] == InLiteral(s[0]) && all[1..] == LiteralText(s[1..]) + ([Close] + ts);
      LiteralsOfText(part + [s[0]], s[1..], ts);
      assert (part + [s[0]]) + s[1..] == part + s;
    }
  }

  lemma {:induction false} LiteralsOfCode(part: string, s: string, ts: seq<Token>)
    ensures Literals(part, CodeText(s) + ts) == Literals(part, ts)
    decreases |s|
  {
    if s == "" {
      assert CodeText(s) + ts == ts;
    } else {
      LiteralsOfCode(part, s[1..], ts);
      assert CodeText(s) + ts == CodeChar(s[0]) + (CodeText(s[1..]) + ts);
      if CodeChar(s[0]) != [] {
        assert (CodeText(s) + ts)[1..] == CodeText(s[1..]) + ts;
      } else {
        assert CodeText(s) + ts == CodeText(s[1..]) + ts;
      }
    }
  }

  lemma LiteralsOpen(part: string, ts: seq<Token>)
    ensures Literals(part, [Open] + ts) == Literals("", ts)
  {
    assert ([Open] + ts)[1..] == ts;
  }

  lemma LiteralsOfOne(part: string, d: Directive, ts: seq<Token>)
    ensures Literals(part, Written(d) + ts) == ["docstring", Doc(d)] + Literals("", ts)
  {
    hide Literals, CodeText, LiteralText, Doc;
    var t0 := CodeText(";") + ts;
    var t1 := LiteralText(Doc(d)) + ([Close] + t0);
    var t2 := CodeText(d.name) + ([Open] + t1);
    var t3 := CodeText(")") + t2;
    var t4 := LiteralText("docstring") + ([Close] + t3);
    Semicolon();
    assert Written(d) + ts == CodeText("%feature(") + ([Open] + t4);
    LiteralsOfCode(part, "%feature(", [Open] + t4);
    LiteralsOpen(part, t4);
    LiteralsOfText("", "docstring", t3);
    LiteralsOfCode("", ")", t2);
    LiteralsOfCode("", d.name, [Open] + t1);
    LiteralsOpen("", t1);
    LiteralsOfText("", Doc(d), t0);
    LiteralsOfCode("", ";", ts);
    assert "" + "docstring" == "docstring" && "" + Doc(d) == Doc(d);
  }

  lemma Semicolon()
    ensures CodeText(";") == [InCode(';')]
  {
    assert CodeText(";") == CodeChar(';') + CodeText("") && ";"[1..] == "";
  }

  /** The docstrings can be told from what is read: as many as there are directives, each with its
      text unchanged, in order. */
  lemma {:induction false} DocstringsRecovered(part: string, ds: seq<Directive>)
    ensures Literals(part, WrittenAll(ds)) == DocLiterals(ds)
    decreases |ds|
  {
    hide Written, Doc;
    if ds != [] {
      LiteralsOfOne(part, ds[0], WrittenAll(ds[1..]));
      DocstringsRecovered("", ds[1..]);
    }
  }

  // ---------- Which definitions fit into a docstring ----------

  /** The definition never ends the literal it stands in, but its last backslash is pending. */
  predicate Pending(definition: string) {
    After(Literal, definition) == Esc && Tokens(Literal, definition) == LiteralText(definition)
  }

  /** After the backslashes it starts with, `body` has a character that is not a quote: one more
      backslash in front does no harm. */
  predicate Resumes(body: string) {
    body != "" && if body[0] == '\\' then Resumes(body[1..]) else body[0] != '"'
  }

  /** The definition, which is written as it is, fits into the docstring: every quote in it is
      escaped, and if it leaves a backslash pending the documentation takes it. */
  predicate Fits(d: Directive) {
    Inert(Literal, d.definition) || (Pending(d.definition) && Resumes(d.body))
  }

  predicate Stays(m: Mode, s: string) {
    After(m, s) == Literal && Tokens(m, s) == LiteralText(s)
  }

  lemma StaysCons(m: Mode, s: string)
    requires (m == Literal || m == Esc) && s != ""
    ensures Stays(m, s) <==> !(m == Literal && s[0] == '"') && Stays(Next(m, s[0]), s[1..])
  {
    assert LiteralText(s) == [InLiteral(s[0])] + LiteralText(s[1..]);
    if m == Literal && s[0] == '"' {
      assert Tokens(m, s)[0] == Close;
    } else {
      assert Tokens(m, s) == [InLiteral(s[0])] + Tokens(Next(m, s[0]), s[1..]);
      assert Tokens(m, s)[1..] == Tokens(Next(m, s[0]), s[1..]) && LiteralText(s)[1..] == LiteralText(s[1..]);
    }
  }

  /** Text that stays in the literal one way stays in it both ways, with and without a backslash
      in front, exactly when it can take the backslash. */
  lemma {:induction false} ResumesIff(s: string)
    ensures Resumes(s) && (Stays(Literal, s) || Stays(Esc, s)) <==> Stays(Literal, s) && Stays(Esc, s)
    decreases |s|
  {
    hide Stays;
    if s == "" {
      NothingStays();
    } else {
      StaysCons(Literal, s);
      StaysCons(Esc, s);
      if s[0] == '\\' {
        ResumesIff(s[1..]);
      }
    }
  }

  lemma NothingStays()
    ensures !Stays(Esc, "")
  {
  }

  /** A definition followed by inert documentation stays in the literal if and only if it fits. */
  lemma FitsIff(d: Directive)
    requires Inert(Literal, d.body)
    ensures Inert(Literal, Doc(d)) <==> Fits(d)
  {
    NewlineIsInert(Literal);
    AfterConcat(Literal, "\n", d.definition);
    AfterConcat(Literal, "\n" + d.definition, d.body);
    var m := After(Literal, d.definition);
    var read, text := Tokens(Literal, d.definition), LiteralText(d.definition);
    assert LiteralText(Doc(d)) == LiteralText("\n") + (text + LiteralText(d.body));
    assert Tokens(Literal, Doc(d)) == LiteralText("\n") + (read + Tokens(m, d.body));
    assert Inert(Literal, Doc(d)) <==> After(m, d.body) == Literal && read + Tokens(m, d.body) == text + LiteralText(d.body) by {
      hide Tokens, LiteralText;
      SamePrefix(LiteralText("\n"), read + Tokens(m, d.body), text + LiteralText(d.body));
    }
    DefinitionStays(d);
    ResumesIff(d.body);
    if read == text {
      SamePrefix(text, Tokens(m, d.body), LiteralText(d.body));
    }
  }

  lemma SamePrefix(p: seq<Token>, a: seq<Token>, b: seq<Token>)
    ensures p + a == p + b <==> a == b
  {
    assert (p + a)[|p|..] == a && (p + b)[|p|..] == b;
  }

  /** If the docstring stays in its literal, so does the definition in it. */
  lemma DefinitionStays(d: Directive)
    ensures var m, read := After(Literal, d.definition), Tokens(Literal, d.definition);
            After(m, d.body) == Literal && read + Tokens(m, d.body) == LiteralText(d.definition) + LiteralText(d.body) ==>
              (m == Literal || m == Esc) && read == LiteralText(d.definition)
  {
    var m, read := After(Literal, d.definition), Tokens(Literal, d.definition);
    if After(m, d.body) == Literal && read + Tokens(m, d.body) == LiteralText(d.definition) + LiteralText(d.body) {
      var all := d.definition + d.body;
      assert LiteralText(all) == LiteralText(d.definition) + LiteralText(d.body);
      AfterConcat(Literal, d.definition, d.body);
      StaysUnlessOpens(Literal, all);
      OpensConcat(read, Tokens(m, d.body));
      if m != Literal && m != Esc {
        EnteringOpens(m, d.body);
      }
      StaysUnlessOpens(Literal, d.definition);
    }
  }

  // ---------- Readings that go different ways ----------

  /** The two readings differ at some place, whatever follows. */
  ghost predicate Diverge(a: seq<Token>, b: seq<Token>) {
    exists i :: 0 <= i < |a| && i < |b| && a[i] != b[i]
  }

  lemma DivergeAfter(p: seq<Token>, a: seq<Token>, b: seq<Token>)
    requires Diverge(a, b)
    ensures Diverge(p + a, p + b)
  {
    var i :| 0 <= i < |a| && i < |b| && a[i] != b[i];
    assert (p + a)[|p| + i] != (p + b)[|p| + i];
  }

  lemma DivergeBefore(a: seq<Token>, b: seq<Token>, x: seq<Token>, y: seq<Token>)
    requires Diverge(a, b)
    ensures Diverge(a + x, b + y)
  {
    var i :| 0 <= i < |a| && i < |b| && a[i] != b[i];
    assert (a + x)[i] != (b + y)[i];
  }

  /** A docstring that does not stay in its literal is read differently from its text. */
  lemma {:induction false} DocDiverges(m: Mode, doc: string, x: string, y: seq<Token>)
    requires (m == Literal || m == Esc) && !Stays(m, doc)
    ensures Diverge(Tokens(m, doc + ("\"" + x)), LiteralText(doc) + ([Close] + y))
    decreases |doc|
  {
    var text := doc + ("\"" + x);
    var a, b := Tokens(m, text), LiteralText(doc) + ([Close] + y);
    if doc == "" {
      assert text == "\"" + x;
      assert a[0] == InLiteral('"') && b[0] == Close;
    } else {
      var m', rest := Next(m, doc[0]), doc[1..];
      assert text[0] == doc[0] && text[1..] == rest + ("\"" + x);
      StaysCons(m, doc);
      if m == Literal && doc[0] == '"' {
        assert a[0] == Close && b[0] == InLiteral('"');
      } else {
        DocDiverges(m', rest, x, y);
        DivergeAfter([InLiteral(doc[0])], Tokens(m', rest + ("\"" + x)), LiteralText(rest) + ([Close] + y));
        assert b == [InLiteral(doc[0])] + (LiteralText(rest) + ([Close] + y));
      }
    }
  }

  // ---------- Reading one directive ----------

  lemma CloserText()
    ensures Concat([CLOSER, "\n"]) == CLOSER + "\n"
  {
    ConcatAppend([CLOSER], ["\n"]);
    ConcatOne(CLOSER);
    ConcatOne("\n");
    assert [CLOSER] + ["\n"] == [CLOSER, "\n"];
  }

  /** The closing piece closes a literal and nothing else. */
  lemma CloserReads(m: Mode)
    ensures m == Literal ==> Tokens(m, CLOSER + "\n") == [Close] + [InCode(';')]
    ensures After(m, CLOSER + "\n") == Code && Opens(Tokens(m, CLOSER + "\n")) == 0 <==> m == Literal
  {
    var s := CLOSER + "\n";
    assert s == "\";\n" && s[1..] == ";\n" && ";\n"[1..] == "\n" && "\n"[1..] == "";
    var m1 := Next(m, '"');
    var m2 := Next(m1, ';');
    assert After(m, s) == After(m1, ";\n") == After(m2, "\n") == Next(m2, '\n');
    assert Tokens(m2, "\n") == Read(m2, '\n') + Tokens(Next(m2, '\n'), "");
    assert Tokens(m1, ";\n") == Read(m1, ';') + Tokens(m2, "\n");
    assert Tokens(m, s) == Read(m, '"') + Tokens(m1, ";\n");
    OpensConcat(Read(m, '"'), Tokens(m1, ";\n"));
    if m == Literal {
      assert Tokens(m2, "\n") == [];
      assert Tokens(m1, ";\n") == [InCode(';')];
      assert Opens([InCode(';')]) == 0 + Opens([]) && [InCode(';')][1..] == [];
      assert [Close][1..] == [];
    } else if m == Code || m == Slash {
      assert Read(m, '"') == [Open] && [Open][1..] == [];
    }
  }

  /** A docstring and its closing piece, read in the literal that was just opened. */
  lemma DocReads(doc: string)
    ensures Inert(Literal, doc) ==>
              && After(Literal, doc + (CLOSER + "\n")) == Code
              && Tokens(Literal, doc + (CLOSER + "\n")) == LiteralText(doc) + [Close] + [InCode(';')]
    ensures !Inert(Literal, doc) ==>
              Diverge(Tokens(Literal, doc + (CLOSER + "\n")), LiteralText(doc) + [Close] + [InCode(';')])
    ensures After(Literal, doc + (CLOSER + "\n")) == Code && Opens(Tokens(Literal, doc + (CLOSER + "\n"))) == 0
            <==> Inert(Literal, doc)
  {
    var m := After(Literal, doc);
    AfterConcat(Literal, doc, CLOSER + "\n");
    OpensConcat(Tokens(Literal, doc), Tokens(m, CLOSER + "\n"));
    CloserReads(m);
    StaysUnlessOpens(Literal, doc);
    if !Inert(Literal, doc) {
      DocDiverges(Literal, doc, ";\n", [InCode(';')]);
      assert doc + ("\"" + ";\n") == doc + (CLOSER + "\n");
      assert LiteralText(doc) + ([Close] + [InCode(';')]) == LiteralText(doc) + [Close] + [InCode(';')];
    } else {
      assert LiteralText(doc) + ([Close] + [InCode(';')]) == LiteralText(doc) + [Close] + [InCode(';')];
    }
  }

  /** A quote in code opens a literal, one in a literal closes it. */
  lemma QuoteReads()
    ensures After(Code, "\"") == Literal && Tokens(Code, "\"") == [Open]
    ensures After(Literal, "\"") == Code && Tokens(Literal, "\"") == [Close]
  {
    assert "\""[1..] == "";
  }

  lemma FeatureReads()
    ensures After(Code, FEATURE) == Code
    ensures Tokens(Code, FEATURE) == CodeText("%feature(") + [Open] + LiteralText("docstring") + [Close] + CodeText(")")
  {
    var a, b, c := "%feature(", "docstring", ")";
    assert FEATURE == (((a + "\"") + b) + "\"") + (c + " ");
    FeatureParts(a, b, c);
  }

  lemma FeatureParts(a: string, b: string, c: string)
    requires forall x :: x in a || x in c ==> !Special(Code, x)
    requires forall x :: x in b ==> !Special(Literal, x)
    ensures var s := (((a + "\"") + b) + "\"") + (c + " ");
            && After(Code, s) == Code
            && Tokens(Code, s) == CodeText(a) + [Open] + LiteralText(b) + [Close] + CodeText(c)
  {
    hide After, Tokens, CodeText, LiteralText;
    PlainIsInert(Code, a);
    PlainIsInert(Literal, b);
    PlainIsInert(Code, c);
    QuoteReads();
    BlankReads();
    AfterConcat(Code, a, "\"");
    AfterConcat(Code, a + "\"", b);
    AfterConcat(Code, (a + "\"") + b, "\"");
    AfterConcat(Code, c, " ");
    AfterConcat(Code, ((a + "\"") + b) + "\"", c + " ");
  }

  lemma BlankReads()
    ensures Inert(Code, " ") && CodeText(" ") == []
  {
    PlainIsInert(Code, " ");
    assert CodeText(" ") == CodeChar(' ') + CodeText("") && " "[1..] == "";
  }

  /** Newlines and blanks read in code: nothing. */
  predicate Void(s: string) {
    Inert(Code, s) && CodeText(s) == []
  }

  /** Everything in front of a docstring, its opening quote included. */
  function Lead(before: string, gap: string, name: string): string {
    ((before + FEATURE) + (gap + name)) + " \""
  }

  lemma LeadReads(before: string, gap: string, name: string)
    requires Void(before) && Void(gap) && Inert(Code, name)
    ensures After(Code, Lead(before, gap, name)) == Literal
    ensures Tokens(Code, Lead(before, gap, name)) == Opening(name)
  {
    hide After, Tokens, CodeText;
    FeatureReads();
    BlankReads();
    QuoteReads();
    AfterConcat(Code, before, FEATURE);
    AfterConcat(Code, gap, name);
    AfterConcat(Code, before + FEATURE, gap + name);
    AfterConcat(Code, " ", "\"");
    assert " " + "\"" == " \"";
    AfterConcat(Code, (before + FEATURE) + (gap + name), " \"");
    assert [] + [Open] == [Open];
  }

  lemma Voids()
    ensures Void("") && Void(" ") && Void("\n") && Void("\n\n")
  {
    PlainIsInert(Code, "");
    BlankReads();
    NewlineIsInert(Code);
    assert CodeText("\n") == CodeChar('\n') + CodeText("") && "\n"[1..] == "";
    assert CodeText("\n\n") == CodeChar('\n') + CodeText("\n") && "\n\n"[1..] == "\n";
  }

  /** The word "docstring" and the docstring. */
  lemma OpeningOpens(name: string)
    requires Inert(Code, name)
    ensures Opens(Opening(name)) == 2
  {
    var a, b := CodeText("%feature("), LiteralText("docstring");
    var c, d := CodeText(")"), CodeText(name);
    CodeOpensNone("%feature(");
    CodeOpensNone(")");
    CodeOpensNone(name);
    LiteralOpensNone("docstring");
    assert [Open][1..] == [] && [Close][1..] == [];
    OpensConcat(a, [Open]);
    OpensConcat(a + [Open], b);
    OpensConcat(a + [Open] + b, [Close]);
    OpensConcat(a + [Open] + b + [Close], c);
    OpensConcat(a + [Open] + b + [Close] + c, d);
    OpensConcat(a + [Open] + b + [Close] + c + d, [Open]);
  }

  lemma {:induction false} CodeOpensNone(s: string)
    ensures Opens(CodeText(s)) == 0
    decreases |s|
  {
    if s != "" {
      CodeOpensNone(s[1..]);
      OpensConcat(CodeChar(s[0]), CodeText(s[1..]));
      assert [InCode(s[0])][1..] == [];
    }
  }

  lemma {:induction false} LiteralOpensNone(s: string)
    ensures Opens(LiteralText(s)) == 0
    decreases |s|
  {
    if s != "" {
      assert LiteralText(s)[1..] == LiteralText(s[1..]);
      LiteralOpensNone(s[1..]);
    }
  }

  /** A whole directive, read from code: it ends in code after exactly two literals if and only if
      its definition fits; then it is read as it should be, and otherwise not. */
  lemma DirectiveReads(lead: string, d: Directive)
    requires After(Code, lead) == Literal && Tokens(Code, lead) == Opening(d.name)
    requires Inert(Code, d.name) && Inert(Literal, d.body)
    ensures var text := lead + (Doc(d) + (CLOSER + "\n"));
            && (After(Code, text) == Code && Opens(Tokens(Code, text)) == 2 <==> Fits(d))
            && (Fits(d) ==> Tokens(Code, text) == Written(d))
            && (!Fits(d) ==> Diverge(Tokens(Code, text), Written(d)))
  {
    hide After, Tokens, Opening, LiteralText, Doc, Fits, Opens, Inert;
    var rest := Doc(d) + (CLOSER + "\n");
    FitsIff(d);
    DocReads(Doc(d));
    AfterConcat(Code, lead, rest);
    OpeningOpens(d.name);
    OpensConcat(Opening(d.name), Tokens(Literal, rest));
    if !Fits(d) {
      DivergeAfter(Opening(d.name), Tokens(Literal, rest), LiteralText(Doc(d)) + [Close] + [InCode(';')]);
    }
  }

  // ---------- Reading several ----------

  ghost predicate AllFit(ds: seq<Directive>) {
    forall d :: d in ds ==> Fits(d)
  }

  /** The pieces, read from code, end in code and are exactly the directives, if all definitions
      fit; if one does not, the reading differs from the directives at some place. */
  ghost predicate Judged(pieces: seq<string>, ds: seq<Directive>) {
    && (AllFit(ds) ==> Reads(Code, pieces, Code, WrittenAll(ds)))
    && (!AllFit(ds) ==> Diverge(Tokens(Code, Concat(pieces)), WrittenAll(ds)))
  }

  lemma JudgedConcat(a: seq<string>, da: seq<Directive>, b: seq<string>, db: seq<Directive>)
    requires Judged(a, da) && Judged(b, db)
    ensures Judged(a + b, da + db)
  {
    hide Fits, WrittenAll, After, Tokens, Concat;
    assert AllFit(da + db) <==> AllFit(da) && AllFit(db);
    WrittenAllConcat(da, db);
    ConcatAppend(a, b);
    AfterConcat(Code, Concat(a), Concat(b));
    var m := After(Code, Concat(a));
    if !AllFit(da) {
      DivergeBefore(Tokens(Code, Concat(a)), WrittenAll(da), Tokens(m, Concat(b)), WrittenAll(db));
    } else if !AllFit(db) {
      DivergeAfter(WrittenAll(da), Tokens(Code, Concat(b)), WrittenAll(db));
    }
  }

  lemma JudgedNone(pieces: seq<string>)
    requires Reads(Code, pieces, Code, [])
    ensures Judged(pieces, [])
  {
  }

  lemma JudgedOne(pieces: seq<string>, lead: string, d: Directive)
    requires Concat(pieces) == lead + (Doc(d) + (CLOSER + "\n"))
    requires After(Code, lead) == Literal && Tokens(Code, lead) == Opening(d.name)
    requires Inert(Code, d.name) && Inert(Literal, d.body)
    ensures Judged(pieces, [d])
  {
    hide After, Tokens, Opening, LiteralText, Doc, Fits, Opens, Inert, Concat, Written, WrittenAll;
    DirectiveReads(lead, d);
    WrittenOne(d);
    assert d in [d];
  }
}
