/** A whole conversion, src/doxy2swig.py:429-432: read a document, collect its pieces, clean
    them, join them. */
module Conversion {
  import opened SwigLexer
  import opened DoxygenTree
  import opened DoxygenEmitter
  import opened DocstringBalance
  import opened Directives
  import opened InterfaceBalance
  import opened CleanPieces
  import Doxy2Swig
  import StringParser

  /** The pieces collected for a document. */
  ghost function Collected(t: Tree, cfg: Config, basename: string): seq<string>
    requires Renderable(t, cfg)
  {
    [FileLine(basename)] + Emit(t, cfg, 0)
  }

  method Convert(t: Tree, cfg: Config, basename: string, wrap: string -> string) returns (text: string)
    requires Renderable(t, cfg)
    ensures text == Concat(Cleaned(Collected(t, cfg, basename), wrap))
  {
    var p := new Doxy2Swig.Converter(t, cfg, basename);
    p.Generate();
    var clean := CleanPieces.CleanPieces(p.pieces, wrap);
    text := Concat(clean);
  }

  /** The paragraphs that the text of a document is cut into. */
  ghost function TextParagraphs(t: Tree, cfg: Config, basename: string): seq<string>
    requires Renderable(t, cfg)
  {
    StringParser.Split(Concat(Shorten(0, Collected(t, cfg, basename))), BLANK_LINE)
  }

  /** The written file is read back as the directives of the document, blanks in docstrings and
      hyphens aside: each with its name in code and its docstring in a literal of its own. The
      file ends in code. */
  lemma WrittenTextIsBalanced(t: Tree, cfg: Config, c: nat, basename: string, wrap: string -> string)
    requires Renderable(t, cfg) && FillKeepsQuoting(cfg) && DoxygenShape(t, cfg, c)
    requires Inert(Code, basename) && AllFit(DirectivesOf(t, cfg, Up(t, c)))
    requires WrapKeeps(Code, TextParagraphs(t, cfg, basename), wrap)
    ensures var text := Concat(Cleaned(Collected(t, cfg, basename), wrap));
            && After(Code, text) == Code
            && Gist(Code, text) == Essence(CodeText("File:" + basename) + WrittenAll(DirectivesOf(t, cfg, Up(t, c))))
  {
    hide Tokens, After, Emit, Renders, CompoundShape, DirectivesOf, Fits, CodeText, FillKeepsQuoting, WrittenAll, Concat,
      WrapKeeps, Essence, Shorten, Cleaned;
    GeneratedTextIsBalanced(t, cfg, c, basename);
    CleanedReads(Collected(t, cfg, basename), wrap);
    OneNewline(Code);
  }
}
