/** How a C-like scanner (SWIG's) reads the generated interface file: code, string literals with
    backslash escapes, block comments. The converter's output is judged by what it reads. */
module SwigLexer {
  /** `Slash`, `Star` and `Esc`: after a `/` in code, a `*` in a comment, a `\` in a literal. */
  datatype Mode = Code | Slash | Block | Star | Literal | Esc

  /** What the scanner hands on: a character of code, the quote that opens a literal, a character
      of the literal, the quote that closes it. Comments, and blanks in code, yield nothing. */
  datatype Token = InCode(c: char) | Open | InLiteral(c: char) | Close

  predicate Settled(m: Mode) {
    m.Code? || m.Block? || m.Literal?
  }

  predicate IsSpace(c: char) {
    c == ' ' || c == '\t' || c == '\n' || c == '\r' || c == '\U{000B}' || c == '\U{000C}'
  }

  function Next(m: Mode, c: char): Mode {
    match m
    case Code => if c == '"' then Literal else if c == '/' then Slash else Code
    case Slash => if c == '*' then Block else if c == '"' then Literal else if c == '/' then Slash else Code
    case Block => if c == '*' then Star else Block
    case Star => if c == '/' then Code else if c == '*' then Star else Block
    case Literal => if c == '"' then Code else if c == '\\' then Esc else Literal
    case Esc => Literal
  }

  /** Slashes are left out of the code too: only the next character tells whether one was code. */
  function Read(m: Mode, c: char): seq<Token> {
    match m
    case Code => if c == '"' then [Open] else CodeChar(c)
    case Slash => if c == '*' then [] else if c == '"' then [Open] else CodeChar(c)
    case Block | Star => []
    case Literal => if c == '"' then [Close] else [InLiteral(c)]
    case Esc => [InLiteral(c)]
  }

  function CodeChar(c: char): seq<Token> {
    if IsSpace(c) || c == '/' then [] else [InCode(c)]
  }

  function After(m: Mode, s: string): Mode
    decreases |s|
  {
    if s == "" then m else After(Next(m, s[0]), s[1..])
  }

  function Tokens(m: Mode, s: string): seq<Token>
    decreases |s|
  {
    if s == "" then [] else Read(m, s[0]) + Tokens(Next(m, s[0]), s[1..])
  }

  /** The number of literals opened. */
  function Opens(ts: seq<Token>): nat {
    if ts == [] then 0 else (if ts[0] == Open then 1 else 0) + Opens(ts[1..])
  }

  lemma {:induction false} AfterConcat(m: Mode, a: string, b: string)
    ensures After(m, a + b) == After(After(m, a), b)
    ensures Tokens(m, a + b) == Tokens(m, a) + Tokens(After(m, a), b)
    decreases |a|
  {
    if a == "" {
      assert a + b == b;
    } else {
      assert (a + b)[1..] == a[1..] + b;
      AfterConcat(Next(m, a[0]), a[1..], b);
    }
  }

  lemma {:induction false} OpensConcat(a: seq<Token>, b: seq<Token>)
    ensures Opens(a + b) == Opens(a) + Opens(b)
    decreases |a|
  {
    if a == [] {
      assert a + b == b;
    } else {
      assert (a + b)[1..] == a[1..] + b;
      OpensConcat(a[1..], b);
    }
  }

  // ---------- Text that stays where it is ----------

  function CodeText(s: string): seq<Token> {
    if s == "" then [] else CodeChar(s[0]) + CodeText(s[1..])
  }

  function LiteralText(s: string): seq<Token> {
    seq(|s|, i requires 0 <= i < |s| => InLiteral(s[i]))
  }

  /** `s`, all of it read as code, as part of a literal, or as part of a comment. */
  function Verbatim(m: Mode, s: string): seq<Token> {
    match m
    case Code | Slash => CodeText(s)
    case Literal | Esc => LiteralText(s)
    case Block | Star => []
  }

  /** Reading `s` in mode `m` leaves the mode as it was and hands on `s` itself: from `Literal`
      the literal is never left, from `Block` nothing comes out of the comment. */
  predicate Inert(m: Mode, s: string) {
    After(m, s) == m && Tokens(m, s) == Verbatim(m, s)
  }

  lemma {:induction false} CodeTextConcat(a: string, b: string)
    ensures CodeText(a + b) == CodeText(a) + CodeText(b)
    decreases |a|
  {
    if a == "" {
      assert a + b == b;
    } else {
      assert (a + b)[1..] == a[1..] + b;
      CodeTextConcat(a[1..], b);
    }
  }

  lemma VerbatimConcat(m: Mode, a: string, b: string)
    ensures Verbatim(m, a + b) == Verbatim(m, a) + Verbatim(m, b)
  {
    CodeTextConcat(a, b);
  }

  lemma InertConcat(m: Mode, a: string, b: string)
    requires Inert(m, a) && Inert(m, b)
    ensures Inert(m, a + b)
  {
    AfterConcat(m, a, b);
    VerbatimConcat(m, a, b);
  }

  /** The characters that can change a settled mode. */
  predicate Special(m: Mode, c: char) {
    match m
    case Code => c == '"' || c == '/'
    case Block => c == '*'
    case _ => c == '"' || c == '\\'
  }

  lemma {:induction false} PlainIsInert(m: Mode, s: string)
    requires Settled(m)
    requires forall c :: c in s ==> !Special(m, c)
    ensures Inert(m, s)
    decreases |s|
  {
    if s != "" {
      assert s[0] in s;
      PlainIsInert(m, s[1..]);
      assert s == [s[0]] + s[1..];
      VerbatimConcat(m, [s[0]], s[1..]);
      assert CodeText([s[0]]) == CodeChar(s[0]) + CodeText("");
    }
  }

  lemma NewlineIsInert(m: Mode)
    requires Settled(m)
    ensures Inert(m, "\n") && Inert(m, "\n\n")
  {
    PlainIsInert(m, "\n");
    PlainIsInert(m, "\n\n");
  }

  /** Text read in code and left in a literal has opened it. */
  lemma {:induction false} EnteringOpens(m: Mode, s: string)
    requires !m.Literal? && !m.Esc?
    ensures After(m, s).Literal? || After(m, s).Esc? ==> Opens(Tokens(m, s)) >= 1
    decreases |s|
  {
    if s != "" {
      OpensConcat(Read(m, s[0]), Tokens(Next(m, s[0]), s[1..]));
      if Next(m, s[0]) != Literal {
        EnteringOpens(Next(m, s[0]), s[1..]);
      } else {
        assert Read(m, s[0]) == [Open] && [Open][1..] == [];
      }
    }
  }

  /** Text that starts and ends in a literal and opens none has never left it. */
  lemma {:induction false} StaysUnlessOpens(m: Mode, s: string)
    requires m.Literal? || m.Esc?
    ensures (After(m, s).Literal? || After(m, s).Esc?) && Opens(Tokens(m, s)) == 0 <==> Tokens(m, s) == LiteralText(s)
    decreases |s|
  {
    if s != "" {
      var m', rest := Next(m, s[0]), s[1..];
      OpensConcat(Read(m, s[0]), Tokens(m', rest));
      assert LiteralText(s) == [InLiteral(s[0])] + LiteralText(rest);
      if m'.Code? {
        EnteringOpens(m', rest);
        assert Tokens(m, s)[0] == Close;
      } else {
        StaysUnlessOpens(m', rest);
        assert Read(m, s[0]) == [InLiteral(s[0])] && [InLiteral(s[0])][1..] == [];
        assert Tokens(m, s)[1..] == Tokens(m', rest) && LiteralText(s)[1..] == LiteralText(rest);
      }
    }
  }

  // ---------- Lists of pieces ----------

  /** Python's `"".join(pieces)`. */
  function Concat(pieces: seq<string>): string {
    if pieces == [] then "" else pieces[0] + Concat(pieces[1..])
  }

  lemma Assoc(a: seq<string>, b: seq<string>, c: seq<string>)
    ensures (a + b) + c == a + (b + c)
  {
  }

  lemma {:induction false} ConcatAppend(a: seq<string>, b: seq<string>)
    ensures Concat(a + b) == Concat(a) + Concat(b)
    decreases |a|
  {
    if a == [] {
      assert a + b == b;
    } else {
      assert (a + b)[1..] == a[1..] + b;
      ConcatAppend(a[1..], b);
      assert a[0] + (Concat(a[1..]) + Concat(b)) == a[0] + Concat(a[1..]) + Concat(b);
    }
  }

  lemma ConcatOne(p: string)
    ensures Concat([p]) == p
  {
    assert Concat([p]) == p + Concat([]);
  }

  /** Reading the joined pieces in mode `m` ends in `m'` and yields `ts`. */
  predicate Reads(m: Mode, pieces: seq<string>, m': Mode, ts: seq<Token>) {
    After(m, Concat(pieces)) == m' && Tokens(m, Concat(pieces)) == ts
  }

  lemma ReadsConcat(m: Mode, a: seq<string>, m1: Mode, t1: seq<Token>, b: seq<string>, m2: Mode, t2: seq<Token>)
    requires Reads(m, a, m1, t1) && Reads(m1, b, m2, t2)
    ensures Reads(m, a + b, m2, t1 + t2)
  {
    ConcatAppend(a, b);
    AfterConcat(m, Concat(a), Concat(b));
  }

  lemma ReadsOne(m: Mode, p: string)
    ensures Reads(m, [p], After(m, p), Tokens(m, p))
  {
    ConcatOne(p);
  }

  lemma ReadsNothing(m: Mode)
    ensures Reads(m, [], m, [])
  {
  }

  predicate AllInert(m: Mode, pieces: seq<string>) {
    forall p :: p in pieces ==> Inert(m, p)
  }

  lemma {:induction false} InertReads(m: Mode, pieces: seq<string>)
    requires AllInert(m, pieces)
    ensures Inert(m, Concat(pieces))
    ensures Reads(m, pieces, m, Verbatim(m, Concat(pieces)))
    decreases |pieces|
  {
    if pieces != [] {
      assert pieces[0] in pieces;
      InertReads(m, pieces[1..]);
      InertConcat(m, pieces[0], Concat(pieces[1..]));
    }
  }

  // ---------- What survives rewrapping ----------

  /** Everything but blanks in literals, and hyphens. */
  predicate Lasting(k: Token) {
    match k
    case InCode(c) => c != '-'
    case InLiteral(c) => !IsSpace(c) && c != '-'
    case _ => true
  }

  function Essence(ts: seq<Token>): seq<Token> {
    if ts == [] then [] else (if Lasting(ts[0]) then [ts[0]] else []) + Essence(ts[1..])
  }

  lemma {:induction false} EssenceConcat(a: seq<Token>, b: seq<Token>)
    ensures Essence(a + b) == Essence(a) + Essence(b)
    decreases |a|
  {
    hide Lasting;
    if a == [] {
      assert a + b == b;
    } else {
      var head := if Lasting(a[0]) then [a[0]] else [];
      assert (a + b)[0] == a[0] && (a + b)[1..] == a[1..] + b;
      EssenceConcat(a[1..], b);
      assert head + (Essence(a[1..]) + Essence(b)) == (head + Essence(a[1..])) + Essence(b);
    }
  }

  /** The essence of what is read. */
  function Gist(m: Mode, s: string): seq<Token> {
    Essence(Tokens(m, s))
  }

  lemma GistConcat(m: Mode, a: string, b: string)
    ensures After(m, a + b) == After(After(m, a), b)
    ensures Gist(m, a + b) == Gist(m, a) + Gist(After(m, a), b)
  {
    AfterConcat(m, a, b);
    EssenceConcat(Tokens(m, a), Tokens(After(m, a), b));
  }
}
