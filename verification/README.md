# Verification of the UPM string, documentation and protocol logic

UPM is a library of sensor and actuator drivers. Most of it is register traffic; this project
models the parts with algorithms and protocols in them and proves what they keep:

- **The init-string splitter** (`StringParser.dfy`), which cuts descriptors such as
  `p:32,vol:0.01` at a delimiter of any length, and its round trips with printing.
- **The Doxygen-to-SWIG translator** of `src/doxy2swig.py`. `DoxygenTree.dfy` is the parsed
  document: nodes numbered in document order, and lists of children that the walk shortens.
  `Doxy2Swig.dfy` is the translator itself, a class with one growing list of pieces, its
  handlers as mutually recursive methods. `DoxygenEmitter.dfy` is a pure function from a
  document to its pieces; every handler is proved to append exactly what that function says,
  while a `<header>` takes a node out of the list its caller is iterating over. `Escape.dfy`,
  `CleanPieces.dfy` and `VisitOrder.dfy` prove the properties of escaping, of the newline
  normaliser and of the order of visits. `SwigLexer.dfy` is the scanner of a reader of the
  result: code, string literals with backslash escapes, block comments; it hands on the characters
  of code and of literals and the quotes between them. `Directives.dfy`, `DocstringBalance.dfy` and
  `InterfaceBalance.dfy` use it for the main theorem: what is read from a generated file is the
  directives of the document, each with its name in code and its docstring, whole and unchanged,
  in a literal of its own, if and only if every definition fits into the docstring it is written
  into. `Members.dfy` says which members those directives are for and what they say, and
  `DocumentContent.dfy` what their docstrings say, both in terms of the document alone.
  `Conversion.dfy` carries this through the cleaning to the text that is written.
  `TripleNewlines.dfy` says exactly when the joined and the returned text keep three newlines in a
  row. `QuotedSample.dfy` and `SparseSample.dfy` are documents on which the converter fails.
- **The nRF8001 event loop** (`Nrf8001.dfy`), a credit-controlled radio protocol: a class for the
  application, a function for one turn, and theorems over every run.
- **The LPD8806 light strip** (`Lpd8806.dfy`), its driver's byte buffer and the bouncing scanner.
- **The LoL shield** (`Lol.dfy`), **the RGB ring coder** (`RingCoder.dfy`) and **ZFM20 fingerprint
  enrolment** (`Zfm20.dfy`), each over unbounded runs.

Methods follow the loops and field updates of the source and are tied by their `ensures` to
functions; the lemmas below are about those functions. `dafny verify dfyconfig.toml` checks all
of it.

Where the code does not do what its comments or documentation say, the model follows the code:

- `clean_pieces` says that it leaves at most two newlines in a row. The text it returns keeps more
  exactly when a paragraph after the first is wrapped to nothing, or a file line that starts with a
  newline follows something other than a file line (`TripleNewlines.CleanedNewlinesIff`). A class
  with an empty `<bold>` alone in a paragraph of its description is enough
  (`SparseSample.EmptyMarkupKeepsThree`).
- `do_memberdef` writes a member's definition without escaping it. The file survives exactly when
  every quote in the definition is escaped and a backslash left pending at its end is taken by the
  documentation after it (`InterfaceBalance.MemberBalancedIff`, `Directives.FitsIff`); an attribute
  string in a declaration breaks it (`QuotedSample.QuotedDefinitionBreaks`).
- `do_header` raises IndexError when exactly one node follows the header: the length test lets
  that case through and the index does not. The model excludes that case alone.
- The nRF8001 library resets the credits on DISCONNECTED as well as on CONNECTED, so a packet can
  be sent although the link never came up (`Nrf8001.DataWithoutConnection`;
  `Nrf8001.DataBeforeConnectedIff` says exactly when). For the same reason conservation of
  credits is stated from the last CONNECTED or DISCONNECTED.
- `uart_rts_local` is false until the first CONNECTED, and true by default only from then on.
- The hello packet needs two places in the command queue besides a credit: the timing request
  takes the first (`Nrf8001.HelloFindsCredit`).
- The LoL raster wraps after 13 columns, the frame has 14 (`Lol.ScansComplement`).
- A strip of one pixel is never touched by the scanner, so it is not cleaned either
  (`Lpd8806.DarkOnExitIff`); the driver's pixel count is one byte wide, so 256 pixels are none.
- `verifyPassword` returns true for every acknowledged packet and never looks at its code
  (`Zfm20.PasswordCodeIgnored`).
- Print-then-parse loses information exactly for delimiters that overlap themselves and for the
  list of one empty token (`StringParser.PrintThenParseIff`).

## Model

| member | source | states |
|---|---|---|
| StringParser.Find | include/upm_string_parser.hpp:20-25 | the index found is a match, and no match starts between the start of the search and it; no index means there is no match at all |
| StringParser.Parse | include/upm_string_parser.hpp:12-30 | the loop ends for every non-empty delimiter, `start` never passes the end, and the tokens are those of the leftmost-match specification; an empty string yields none |
| StringParser.JoinSplit | include/upm_string_parser.hpp:18-29 | joining the tokens with the delimiter gives every input back, whatever the delimiter |
| StringParser.TokensDelimiterFree | include/upm_string_parser.hpp:22-27 | no token contains the delimiter |
| StringParser.TokensAreTheGaps | include/upm_string_parser.hpp:20-27 | for the leftmost non-overlapping matches, described apart from the loop, there is one more token than matches and the tokens are exactly the text around them |
| StringParser.CutsExist | include/upm_string_parser.hpp:20-25 | every string has such a list of leftmost non-overlapping matches |
| StringParser.MatchInTokenOrBorder | include/upm_string_parser.hpp:20-25 | a match that starts inside a token lies within it or makes the delimiter overlap itself |
| StringParser.PrintThenParseIff | include/upm_string_parser.hpp:12-30 | parse(join(tokens)) == tokens for all lists of delimiter-free tokens other than [""], if and only if the delimiter has no proper prefix that is also a suffix |
| StringParser.PrintThenParse | include/upm_string_parser.hpp:12-30 | the round trip for one list and one delimiter without a border |
| StringParser.BorderedBreaks | include/upm_string_parser.hpp:20-25 | for every delimiter with a border, a list of delimiter-free tokens that is not recovered |
| StringParser.SingleCharUnbordered | include/upm_string_parser.hpp:12 | a delimiter of one character, such as the default, has no border |
| StringParser.TwoLevelRoundTripIff | examples/c++/buzzer-initio.cxx:10 | splitting at one character and each piece at another recovers every list of field lists, if and only if no command is the single empty field and the list is not the single empty command |
| Escape.EscapedIsCharMap | src/doxy2swig.py:119-120 | the two whole-string replacements, each a split and a join, do not interfere: together they are one map per character |
| Escape.EscapeInvertible | src/doxy2swig.py:119-120 | a left-to-right decoder recovers every text from its escaped form |
| Escape.QuoteRuns | src/doxy2swig.py:119-120 | every quote of the escaped text is the image of a quote of the original and stands after a maximal run of exactly 4k+1 backslashes, k being the run before the original |
| Escape.TrailingRun | src/doxy2swig.py:119 | a run of k backslashes at the end becomes a run of exactly 4k |
| Escape.EscapedStaysInLiteral | src/doxy2swig.py:119-120 | read inside a string literal, escaped text never ends it, and leaves no backslash pending |
| Escape.EscapedIsNotCloser | src/doxy2swig.py:119-120 | no escaped text equals the piece that closes a docstring |
| Escape.BlankEscaped | src/doxy2swig.py:121-124 | whitespace is unchanged by escaping, so the blank test may look at the escaped text |
| Escape.ReplaceChar | src/doxy2swig.py:119-120 | replacing by leftmost matches is replacing character by character |
| DoxygenTree.SearchSound | src/doxy2swig.py:226 | `getElementsByTagName` finds descendants only, each once, in document order |
| DoxygenTree.SearchFindsAll | src/doxy2swig.py:226 | a node is found if and only if it carries the tag and can be reached through lists of children |
| DoxygenTree.SearchPruned | src/doxy2swig.py:279 | a search of the document as it is, after any removals by headers, finds what it would have found in the document as it was read |
| DoxygenTree.PruneOne | src/doxy2swig.py:343 | a list that lost some descriptions, and then loses one more, is still the original without some descriptions |
| DoxygenTree.FirstDataPruned | src/doxy2swig.py:305 | `firstChild.data` does not change when descriptions are removed |
| DoxygenEmitter.SpecificInList | src/doxy2swig.py:158-167 | every entry of the dictionary is a child in the list that carries the name it is stored under |
| DoxygenEmitter.SectionsDisjoint | src/doxy2swig.py:226-228 | the sections a file or namespace parses have disjoint subtrees, so parsing one leaves the others intact |
| DoxygenEmitter.NameFacts | src/doxy2swig.py:283-284 | a public member has a name child with text in it |
| DoxygenEmitter.ScopeFacts | src/doxy2swig.py:299-313 | a documented member of a class always finds the name of its class |
| Doxy2Swig.Converter.constructor | src/doxy2swig.py:77-79 | the list of pieces starts with the line that names the file |
| Doxy2Swig.Converter.Generate | src/doxy2swig.py:98-103 | the pieces of a whole document are the first piece and those of the pure emitter |
| Doxy2Swig.Converter.Parse | src/doxy2swig.py:105-112 | parsing any node appends exactly what the emitter gives for it and changes no list of children outside its subtree, except that a header may take the description after it out of its parent's list and write that too |
| Doxy2Swig.Converter.ParseDocument | src/doxy2swig.py:114-115 | a document writes what its first child element writes |
| Doxy2Swig.Converter.ParseText | src/doxy2swig.py:117-126 | text is appended escaped and filled, text of whitespace only appends nothing; `DocumentContent.ContentWritten` says that this is so of every text, once each and in order |
| Doxy2Swig.Converter.ParseElement | src/doxy2swig.py:128-145 | ignored tags write nothing, named tags go to their handler, all others to the generic one, and in each case the emitter's pieces are appended |
| Doxy2Swig.Converter.GenericParse | src/doxy2swig.py:169-192 | for pad 1 the length test decides exactly whether the children wrote something; for pad 2 the newline at the end always comes |
| Doxy2Swig.Converter.ParseNext | src/doxy2swig.py:188-189 | one turn of a loop over a list that may shrink under it: what was written and what is left to write is what was left before |
| Doxy2Swig.Converter.ParseChildren | src/doxy2swig.py:222-224 | the loop over the live list writes the visits of the original list, with the excluded nodes left out |
| Doxy2Swig.Converter.SpaceParse | src/doxy2swig.py:194-196 | inline markup writes a space and its children |
| Doxy2Swig.Converter.DoCompoundName | src/doxy2swig.py:204-207 | the name of a compound opens a docstring directive |
| Doxy2Swig.Converter.DoCompoundDef | src/doxy2swig.py:209-228 | a public class, a file, a namespace and any other compound write what the emitter says, also after earlier removals |
| Doxy2Swig.Converter.WriteClass | src/doxy2swig.py:215-224 | the named children, the closing piece, then the others |
| Doxy2Swig.Converter.ParseNamed | src/doxy2swig.py:217-220 | the named children in the fixed order, and the other children are left intact |
| Doxy2Swig.Converter.ParseSections | src/doxy2swig.py:226-228 | all sections found, in document order |
| Doxy2Swig.Converter.DoIncludes | src/doxy2swig.py:230-232 | the include line |
| Doxy2Swig.Converter.DoParameterList | src/doxy2swig.py:234-248 | the heading that belongs to the kind, then the parameters |
| Doxy2Swig.Converter.DoPara | src/doxy2swig.py:250-252 | a paragraph after a newline, padded |
| Doxy2Swig.Converter.DoParameterName | src/doxy2swig.py:254-263 | the name in the node or in the element around it, followed by a colon unless it names an exception |
| Doxy2Swig.Converter.DoMemberDef | src/doxy2swig.py:274-318 | a member writes a docstring or nothing, by access, name, kind and definition, named by the compound it is in |
| Doxy2Swig.Converter.WriteMember | src/doxy2swig.py:296-318 | opening, documentation without name and definition, closing |
| Doxy2Swig.Converter.NameMember | src/doxy2swig.py:299-313 | the scope is that of the namespace inside, the namespace around or the class, as the kind of compound demands |
| Doxy2Swig.Converter.DoDefinition | src/doxy2swig.py:320-322 | a definition outside a member writes its text twice around an opening quote |
| Doxy2Swig.Converter.DoSectionDef | src/doxy2swig.py:324-327 | a section writes its children or nothing, by its kind; `Members.DirectivesAreOfMembers` says which kinds |
| Doxy2Swig.Converter.DoHeader | src/doxy2swig.py:329-346 | the header in a comment; a description two places further on is removed from the live list and written in a comment too |
| Doxy2Swig.Converter.WriteAside | src/doxy2swig.py:344-346 | the removed description stands between comment markers |
| Doxy2Swig.Converter.DoSimpleSect | src/doxy2swig.py:348-360 | dates and versions write nothing, warnings and references get a label |
| Doxy2Swig.Converter.DoMember | src/doxy2swig.py:365-369 | only functions of a namespace write anything |
| Doxy2Swig.Converter.LiveSearch | src/doxy2swig.py:279 | at any time of the walk a search finds what it would have found at the start |
| Doxy2Swig.Converter.ChildReady | src/doxy2swig.py:338-342 | wherever a loop stands, the header it is about to parse finds itself at that position of the live list, and the description after it intact |
| VisitOrder.EachVisitedOnce | src/doxy2swig.py:188-189 | removal during iteration is safe: as multisets, the nodes visited are the children not excluded, removed descriptions included |
| VisitOrder.AsidesFollowHeaders | src/doxy2swig.py:338-346 | a description is taken aside only by the header visited right before it |
| VisitOrder.DictionaryKeepsLast | src/doxy2swig.py:164-167 | the dictionary has an entry for a name if and only if some child carries it, and holds the last such child |
| VisitOrder.NamedThenRest | src/doxy2swig.py:217-224 | named nodes and the children not among them are together all children, each once |
| VisitOrder.ClassVisitsOnce | src/doxy2swig.py:215-224 | for a public class the two loops visit every child exactly once, even when a name is carried by several children |
| DocstringBalance.TextInert | src/doxy2swig.py:117-126 | a text node writes nothing that leaves the literal, or ends the comment, around it; in a comment its asterisks do no harm unless the comment would end |
| DocstringBalance.EmitInert | src/doxy2swig.py:128-272 | no subtree of documentation writes anything that leaves the literal or comment around it, at any depth |
| DocumentContent.ContentWritten | src/doxy2swig.py:117-272 | for every documentation node, however deep: what is written is, once each and in document order and with nothing but newlines between, every text below it that is not blank, escaped and filled, the name of every parameter, the labels of lists, includes, warnings and references, and the blank of inline markup; nothing of ignored elements, dates and versions |
| DocumentContent.AsideSays | src/doxy2swig.py:344-346 | a description taken aside by a header is written whole, in this sense, between comment marks |
| DocumentContent.MemberBodySays | src/doxy2swig.py:315-317 | the docstring of a member is, after its definition, the content of all its children in their order |
| DocumentContent.ClassBodySays | src/doxy2swig.py:215-220 | the docstring of a class is the content of its last brief description, then its last detailed description, then its last include |
| DocumentContent.DefinitionLeavesOpen | src/doxy2swig.py:320-322 | a definition outside a member opens a docstring that it does not close |
| Members.PassesIff | src/doxy2swig.py:282-290 | the filters let a member through if and only if it is public, neither a variable nor a type, has a definition, and the first eight characters of its name are not "operator" |
| Members.DirectivesAreOfMembers | src/doxy2swig.py:209-228 | for every document of Doxygen's shape: a member puts its directive in the text if and only if it passes the filters and stands in a section whose kind is public-func, func, user-defined or the empty string, of a public class or struct, or anywhere below a file or namespace; the directives of the document are that of the class, if it is one, and theirs, once each, in document order |
| Members.WrittenMemberSays | src/doxy2swig.py:293-317 | every such directive has the member's name, qualified by its class or by the first namespace inside or around it, its last definition as it stands, and the content of its documentation |
| Members.ClassSays | src/doxy2swig.py:204-221 | the directive of a class has its name, no definition, and the content of its descriptions |
| Directives.LeadReads | src/doxy2swig.py:205-207 | blanks, the feature mark, a name in plain code and a quote are read as the opening of the directive for that name: one literal holding "docstring", then the name, then a literal left open |
| Directives.ResumesIff | src/doxy2swig.py:306-313 | when a text stays in a literal both with and without a backslash in front: exactly when, after the backslashes it starts with, it has a character that is not a quote |
| Directives.FitsIff | src/doxy2swig.py:293-313 | a raw definition followed by inert documentation stays in its literal if and only if every quote in it is escaped and the documentation takes a backslash left pending |
| Directives.DirectiveReads | src/doxy2swig.py:296-318 | for every name, definition and documentation: the text ends in code after exactly two literals if and only if the definition fits; then it is read as the directive, and otherwise the reading differs from it at some place whatever follows |
| Directives.DocstringsRecovered | src/doxy2swig.py:296-318 | from the reading of any number of directives their docstrings are recovered, unchanged, in number and in order |
| InterfaceBalance.HeaderReads | src/doxy2swig.py:333-334 | a header whose text does not end the comment is read as nothing, and the scanner is in code again |
| InterfaceBalance.AsideReads | src/doxy2swig.py:344-346 | so is a removed description |
| InterfaceBalance.CompoundOfMember | src/doxy2swig.py:278-280 | with one compound in the document, the compound that decides how a member is named is the one it is in |
| InterfaceBalance.MemberReads | src/doxy2swig.py:274-318 | what a member writes is read from code as its one directive, or as nothing if it is not documented, and ends in code, if its definition fits; otherwise the reading differs |
| InterfaceBalance.SectionReads | src/doxy2swig.py:324-327 | what a section writes is read as the directives of its documented members, in order, with headers and descriptions between them, if and only if all their definitions fit |
| InterfaceBalance.ClassReads | src/doxy2swig.py:211-224 | so is a public class, its own directive first, with the text of the named children as its docstring |
| InterfaceBalance.FileReads | src/doxy2swig.py:225-228 | so is a file or a namespace |
| InterfaceBalance.GeneratedTextIsBalanced | src/doxy2swig.py:98-103 | for every document of Doxygen's shape: the text of the whole walk is read as the name of the file and the directives of the document and nothing else, if and only if every definition fits; then it ends in code |
| InterfaceBalance.DocstringsReadBack | src/doxy2swig.py:98-103 | if every definition fits, the literals of the text are, in turn, the word "docstring" and the docstring of each directive: none is left open, ends early or swallows another |
| InterfaceBalance.MemberBalancedIff | src/doxy2swig.py:293-318 | what the walk writes for a documented member, whatever its documentation, ends in code after exactly two literals if and only if its definition fits |
| QuotedSample.SampleHasShape | src/doxy2swig.py:209-346 | a document with a class, a section, a header with its description, and a documented member is of that shape, whatever the member's definition |
| QuotedSample.SampleSays | src/doxy2swig.py:209-327 | the directives of that document, letter by letter, for every kind of section and every definition |
| QuotedSample.QuotedDefinitionBreaks | src/doxy2swig.py:293 | with an attribute string in the definition no exception is raised, but the member does not end in code after two literals and the whole text is not read as the directives of the document |
| DocstringBalance.UnfilledKeepsQuoting | src/doxy2swig.py:126 | what is assumed of filling can be met |
| CleanPieces.ShortenRuns | src/doxy2swig.py:399-413 | the loop computes the specification of the first pass |
| CleanPieces.RunsAreAll | src/doxy2swig.py:401-413 | the runs of newlines, the pieces that end them and the trailing newlines are the whole list, nothing lost or reordered |
| CleanPieces.ShortenByRuns | src/doxy2swig.py:401-413 | each run of k newlines becomes min(k, 2), or min(k, 1) before the closing piece; other pieces are unchanged and in order; the trailing run goes |
| CleanPieces.ShortenStable | src/doxy2swig.py:401-413 | the first pass is idempotent |
| TripleNewlines.JoinedNewlinesIff | src/doxy2swig.py:399-415 | the joined text has no three newlines in a row if and only if no piece holds three and, at each junction, the newlines that end the text before, the shortened run and those that start the next piece are at most two |
| TripleNewlines.CleanedNewlinesIff | src/doxy2swig.py:394-426 | the returned text has no three newlines in a row if and only if no paragraph after the first is wrapped to nothing and no file line that starts with a newline follows anything but a file line |
| SparseSample.EmptyMarkupKeepsThree | src/doxy2swig.py:393-426 | the text returned for a class with empty markup alone in a paragraph has three newlines in a row, whatever the name of the file |
| CleanPieces.ShortenReads | src/doxy2swig.py:401-413 | for every list of pieces and every mode of the scanner, the first pass changes nothing that is read but blanks in literals |
| CleanPieces.CleanPieces | src/doxy2swig.py:393-426 | both loops together compute the specification |
| CleanPieces.HeadingsUnderlined | src/doxy2swig.py:418-419 | the three headings, each underlined to its length |
| CleanPieces.OthersWrapped | src/doxy2swig.py:420-425 | every other paragraph is left alone if it contains the mark of a file line, and else wrapped |
| CleanPieces.ParagraphsRead | src/doxy2swig.py:417-425 | reading the paragraphs written is reading the text they were cut from, blanks and hyphens aside |
| CleanPieces.CleanedReads | src/doxy2swig.py:393-426 | for every list of pieces, the returned text is read as the pieces were, blanks in literals and hyphens aside |
| Conversion.Convert | src/doxy2swig.py:429-432 | the text written is the cleaned form of the emitter's pieces, read off the document alone |
| Conversion.WrittenTextIsBalanced | src/doxy2swig.py:385-391 | the written file of every document of Doxygen's shape whose definitions fit is read as the directives of the document, each name in code and each docstring in a literal of its own, blanks in docstrings and hyphens aside, and ends in code |
| Nrf8001.Application.Send | src/nrf8001/hal_aci_tl.cpp:394-415 | a command is accepted if and only if the queue has a place |
| Nrf8001.Application.UartTx | examples/c++/nrf8001-helloworld.cxx:112-126 | a packet is sent if and only if the pipe is open, a credit is there and the queue takes it, and exactly then one credit is used |
| Nrf8001.Application.UartProcessControlPointRx | examples/c++/nrf8001-helloworld.cxx:128-198 | the four control bytes, each with its whole effect; the result says whether one of them was acted on |
| Nrf8001.Application.StoreReceived | examples/c++/nrf8001-helloworld.cxx:325-329 | the buffer starts with the valid bytes of the packet and is unchanged behind them |
| Nrf8001.Application.LibAciEventGet | src/nrf8001/lib_aci.cpp:539-601 | pipes and credits change with pipe status and disconnection, and with nothing else |
| Nrf8001.Application.OnPipeStatus | examples/c++/nrf8001-helloworld.cxx:288-303 | the whole new state, and the commands sent, for a pipe status |
| Nrf8001.Application.OnDataReceived | examples/c++/nrf8001-helloworld.cxx:322-342 | the whole new state, the commands and the buffer, for received data |
| Nrf8001.Application.OnEvent | examples/c++/nrf8001-helloworld.cxx:220-369 | the whole new state and the commands for every event are those of the specification; `Nrf8001.CommandsAnswerEvents` says which command answers which event |
| Nrf8001.Application.LoopTurn | examples/c++/nrf8001-helloworld.cxx:208-385 | one turn of the loop is one step of the specification, setup included |
| Nrf8001.MainLoop | examples/c++/nrf8001-helloworld.cxx:208-385 | for every run: the state, the transcript of commands and the buffer are those of the specification |
| Nrf8001.BufferHoldsLatest | examples/c++/nrf8001-helloworld.cxx:322-329 | in every run the buffer starts with the latest UART packet and keeps what stood behind it |
| Nrf8001.CommandsAnswerEvents | examples/c++/nrf8001-helloworld.cxx:216-369 | over every run each command but the hello is sent exactly as often as there are turns with a free place whose event asks for it: advertising for a disconnection, a hardware error or a sound start in standby, the version for a connection, local data for a change of timing or a version, the end of the link and the four little-endian timing values for control bytes 1 and 2 while the control pipe is open, the preferred timing for the first open TX pipe of a connection |
| Nrf8001.StateIsHistory | src/nrf8001/lib_aci.cpp:299-321 | the open pipes and the total of credits are functions of the inputs: the last pipe status unless the link was lost or its end accepted since, and the credits of the last start |
| Nrf8001.SetupIsHistory | examples/c++/nrf8001-helloworld.cxx:378-382 | a setup is pending if and only if the device has started in setup mode and no setup has succeeded since |
| Nrf8001.TimingDoneIsHistory | examples/c++/nrf8001-helloworld.cxx:278 | the flag holds if and only if a pipe status with the TX pipe open has come since the last CONNECTED, or since the start |
| Nrf8001.RtsIsHistory | examples/c++/nrf8001-helloworld.cxx:174-193 | the local RTS holds if and only if a CONNECTED or an accepted OK has come and no STOP has been accepted since |
| Nrf8001.TurnSends | examples/c++/nrf8001-helloworld.cxx:288-303 | a turn sends at most one hello and one timing request, exactly when they are due and there is room |
| Nrf8001.IssuedInTranscript | examples/c++/nrf8001-helloworld.cxx:290-302 | the counts below are counts in the transcript of the run |
| Nrf8001.OncePerConnection | examples/c++/nrf8001-helloworld.cxx:290-302 | timing requests, and hello packets, number at most the CONNECTED events plus one, and at most the CONNECTED events while the flag is down |
| Nrf8001.CreditsConserved | examples/c++/nrf8001-helloworld.cxx:344-359 | if the device returns credits only for packets it holds, then in every run available credits and outstanding packets add up to the total captured at the last CONNECTED or DISCONNECTED; neither is negative, and the byte-wide counter never wraps |
| Nrf8001.DishonestDeviceBreaks | examples/c++/nrf8001-helloworld.cxx:344-359 | any credits beyond what the device owes, after any honest run and short of a wrap of the counter, and the available credits exceed the total |
| Nrf8001.NothingOutstandingBeforeHello | examples/c++/nrf8001-helloworld.cxx:288-303 | as long as the flag is down the device holds no packet |
| Nrf8001.HelloFindsCredit | examples/c++/nrf8001-helloworld.cxx:288-303 | the first pipe status with the TX pipe open finds all credits of the connection; the hello goes out if and only if there is at least one and the queue takes two commands, and is not tried again |
| Nrf8001.DataBeforeConnectedIff | src/nrf8001/lib_aci.cpp:569-582 | in a run that never connects, a turn sends data if and only if it is the first pipe status with the TX pipe open, the queue takes two commands, and a disconnection has handed out a credit |
| Nrf8001.DataWithoutConnection | src/nrf8001/lib_aci.cpp:569-582 | a run of three events, none of them CONNECTED, that sends data |
| Lpd8806.Strip.constructor | src/lpd8806/lpd8806.cxx:46-57 | a new strip is dark, and has as many pixels as fit one byte |
| Lpd8806.Strip.SetPixelColor | src/lpd8806/lpd8806.cxx:66-74 | one pixel of the strip changes, in green-red-blue byte order; off the strip nothing does |
| Lpd8806.TopBitSet | src/lpd8806/lpd8806.cxx:70-72 | a colour byte goes out with its top bit set and its other seven bits unchanged |
| Lpd8806.Strip.Show | src/lpd8806/lpd8806.cxx:76-84 | the buffer goes out whole, latch bytes included, and its bytes are the colours of the frame |
| Lpd8806.DrawPulse | examples/c++/lpd8806.cxx:64-72 | full, half and quarter colour at distance 0, 1 and 2, clipped at both ends though offsets are unsigned, all else unchanged |
| Lpd8806.ErasePulse | examples/c++/lpd8806.cxx:79-81 | the five pixels are dark and the others unchanged |
| Lpd8806.CursorIsWave | examples/c++/lpd8806.cxx:60-90 | in every turn the cursor is the triangle wave of period 2(L-1) and on the strip |
| Lpd8806.VisitsOverPeriods | examples/c++/lpd8806.cxx:63-90 | how often any pixel has been the centre after any number of turns |
| Lpd8806.ExactCoverage | examples/c++/lpd8806.cxx:63 | one call centres the pulse four times on each end and eight times on every pixel between |
| Lpd8806.Scanner | examples/c++/lpd8806.cxx:55-92 | for every strip, the frames shown and the frame left behind are those of the specification |
| Lpd8806.DarkStaysDark | examples/c++/lpd8806.cxx:76-81 | between turns a strip that was dark is dark |
| Lpd8806.FramesAreGlow | examples/c++/lpd8806.cxx:64-74 | from a dark strip, every frame shown is the pulse around the cursor and darkness elsewhere |
| Lpd8806.GlowBytes | examples/c++/lpd8806.cxx:64-74 | the bytes of a lit frame: full, half and quarter of each colour at distance 0, 1 and 2 from the cursor, with the top bit set, 0x80 elsewhere, and the latch bytes |
| Lpd8806.RedBytes | examples/c++/lpd8806.cxx:44 | in a red frame the red byte is 0xFF at the cursor, 0xBF next to it, 0x9F two places off and 0x80 elsewhere, and all other colour bytes are 0x80 |
| Lpd8806.DarkOnExitIff | examples/c++/lpd8806.cxx:63-91 | every pixel is dark on exit whatever the strip held, if and only if the strip has not exactly one pixel, or that one was dark |
| Lpd8806.RedThenBlue | examples/c++/lpd8806.cxx:42-47 | the two calls of a round compose: on the wire 8(L-1) red frames and then as many blue ones, byte by byte, with the cursor on the triangle wave, and a dark strip at the end |
| Lol.Shield.SetPixel | src/lol/lol.cxx:155-163 | exactly one byte changes, or none and an error for coordinates off the frame |
| Lol.Shield.GetPixel | src/lol/lol.cxx:165-172 | whether the pixel is lit, or an error |
| Lol.CursorIsRaster | examples/c++/lol.cxx:38-46 | after k turns the cursor is at (k mod 13, k div 13 mod 9), and on the frame |
| Lol.Raster | examples/c++/lol.cxx:38-48 | the frame after any number of turns is that of the specification |
| Lol.PixelIsFlipped | examples/c++/lol.cxx:40 | after k turns every pixel is its first value, inverted once for each earlier turn whose cursor was on it |
| Lol.FlipsPerScan | examples/c++/lol.cxx:40-46 | turn 13y + x of each scan of 117 turns flips pixel (x, y), and no other turn does; column 13 is never flipped |
| Lol.ScansComplement | examples/c++/lol.cxx:40-46 | after q scans a pixel is complemented if and only if q is odd and the pixel is not in the last column |
| RingCoder.ShiftOneHot | examples/c++/rgbringcoder.cxx:69 | the 16-bit shift moves the one lit bit up, and loses it at the top |
| RingCoder.OneLedRunsRound | examples/c++/rgbringcoder.cxx:56-69 | the ring value of turn k is 1 << (k mod 16), never blank |
| RingCoder.ReportsReplay | examples/c++/rgbringcoder.cxx:71-83 | for every sequence of samples the reports chain, none of them is without a change, and replaying them gives the last sample |
| RingCoder.Run | examples/c++/rgbringcoder.cxx:63-86 | the loop sets those values and makes those reports for every sequence of samples, and a reader of the reports ends with the last button state and position sampled |
| Zfm20.Reader.Exchange | src/zfm20/zfm20.cxx:279-293 | one command goes out and, if an answer comes, the protocol has made one step |
| Zfm20.Reader.SpinUntil | examples/c++/zfm20-register.cxx:63-64 | however long it spins, it ends only on the wanted code, on a fault, or not at all |
| Zfm20.CaptureFirst | examples/c++/zfm20-register.cxx:50-75 | either the program has ended as the protocol says or the first image is in slot 1 |
| Zfm20.CaptureSecond | examples/c++/zfm20-register.cxx:77-95 | either the program has ended or it waits for the model, as the protocol says; `Zfm20.StoredConversation` says with which commands |
| Zfm20.Enrol | examples/c++/zfm20-register.cxx:50-121 | for every sequence of answers, what is sent and how it ends is what the protocol says |
| Zfm20.HistoryHolds | examples/c++/zfm20-register.cxx:50-113 | in each phase the answers so far are those the phase needs |
| Zfm20.HistoryDecides | examples/c++/zfm20-register.cxx:50-113 | answers of that form lead to that phase and no other |
| Zfm20.StoresOnlyWhenReady | examples/c++/zfm20-register.cxx:50-113 | the program is about to store the model if and only if the answers are those of a complete enrolment: the password acknowledged, a spin that ends in OK, an OK, a spin that ends in no finger, a later spin that ends in OK, and two more OKs |
| Zfm20.StoredConversation | examples/c++/zfm20-register.cxx:50-113 | the whole conversation of such a run, command by command: the password, images until one is captured, its conversion into slot 1, images until the finger is lifted and until one is captured again, its conversion into slot 2, the model, and the store command with slot 1 and id 1 |
| Zfm20.OrdinaryEnrolment | examples/c++/zfm20-register.cxx:50-120 | an ordinary enrolment code by code: the eight commands sent, and the return of 0 |
| Zfm20.StoreSentIff | examples/c++/zfm20-register.cxx:109-113 | the store command is among the commands sent if and only if the answers so far, or some of the first of them, are those |
| Zfm20.ReturnsZeroIffStored | examples/c++/zfm20-register.cxx:109-120 | the exit code is 0 if and only if the store command was reached and answered OK |
| Zfm20.ThrewIffFault | src/zfm20/zfm20.cxx:144-182 | the program ends with an exception if and only if a fault comes while it waits; every other end is a return of 0 or 1 |
| Zfm20.EndedStays | examples/c++/zfm20-register.cxx:69-120 | once the program has ended nothing more is sent |
| Zfm20.PasswordCodeIgnored | src/zfm20/zfm20.cxx:184-203 | for every run, another confirmation code to the password changes nothing that is sent and nothing of how the run ends |

## Left out

- Doxygen-to-SWIG: `textwrap.fill`, the stripping and the regular expression that pulls the first word up to the opening quote are unknown functions; the theorems assume of them only that they change blanks without changing what is read (`FillKeepsQuoting`, `WrapKeeps`) and, for newlines, that they leave no newline at the ends and no empty line (`WrapTidies`).
- Doxygen-to-SWIG: XML parsing, opening and writing files, and the index mode `do_doxygenindex`, which repeats the conversion for each file of an index.
- Doxygen-to-SWIG: minidom's linked node objects; nodes are numbers in document order and the lists of children one mutable list of lists. Processing instructions and CDATA sections are not modelled.
- Doxygen-to-SWIG: documents at which Python would raise an exception (a missing attribute, an empty name, a header with exactly one node after it) are excluded by `Renderable`, also at nodes the walk would not reach; so are sections within sections, and definitions within a `<description>`.
- InterfaceBalance.GeneratedTextIsBalanced: is about documents of Doxygen's shape: one compound, definitions only in members, names that are plain code, comments that the text in them does not end.
- Conversion.WrittenTextIsBalanced: says nothing of documents with a definition that does not fit, and leaves out hyphens, because `clean_pieces` underlines headings with them.
- SwigLexer: reads line comments as code and hands on no slashes; the name of the file, in the one line comment, is assumed to be plain code.
- StringParser.Parse: excludes the empty delimiter on a non-empty string, for which the source's loop never ends; `size_t` does not overflow on strings that fit in memory.
- nRF8001: pipe bitmaps are sets of pipe numbers, the bitmap of closed pipes and the link parameters of a timing event are not kept, `do_aci_setup` is an input that succeeds or not, the command queue is its number of free places at the start of each turn, and the tables that map pipes to their types are taken to be those of the example.
- Nrf8001.Application.StoreReceived: received packets have between 2 and 22 bytes, as the 20-byte buffer needs.
- Nrf8001.CreditsConserved: needs an honest device, which DishonestDeviceBreaks shows; within the epoch after a DISCONNECTED the total is the one captured there.
- LPD8806: SPI and GPIO traffic other than the bytes of `show`, the delay of each frame, and a failed allocation.
- LoL: the thread that shows the framebuffer, and the pins.
- Lol.ScansComplement: is about the pixels being lit; a byte other than 0 and 1 comes back as 1 after two flips.
- RGB ring coder: SPI, interrupts, and the floating-point duty cycles of the status LED.
- ZFM20: the layout and checksums of packets, the code's exception for a slot other than 1 or 2, and the failure of `setupTty`, which returns 1 before anything is sent.
- Signal handlers, which end the loops; a run is any finite number of turns.
- The programs that only print readings of a sensor or offer a menu.
