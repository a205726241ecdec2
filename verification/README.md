# gethamquestions — a Dafny model of the question-pool parser

The gethamquestions repository turns an amateur-radio question pool into a tree:
Element → Subelement → Group → Question. The pool is published by the FCC as a
text or Word file with an element header, subelement and group headings, and
five-line question blocks closed by `~~`. This project models the parser and
its companions as pure Dafny functions over immutable datatypes, and proves
properties of them.

| file | module | models |
|---|---|---|
| `wrappers.dfy` | `Wrappers` | `Option` |
| `seqs.dfy` | `Seqs` | `IndexOf`: Python's `list.index` and JavaScript's `indexOf`, with -1 for "absent" |
| `text.dfy` | `Text` | `str.isspace`, `strip`, `rstrip(ch)`, `split(';')`, `';'.join`, `in` on strings, ASCII `upper` |
| `lines.dfy` | `LineSource` | `Filelines` (numbered lines, then one `''` sentinel), `fix_line`, `read_fline` |
| `classifier.dfy` | `Classifier` | `regex_dict` as an ordered table of abstract recognizers; `_parse_line` |
| `figure.dfy` | `Figure` | the figure search `(^|\s)[fF]igure\s+(?P<fig>[TGE]\d?-\d+)` over a question body |
| `pool.dfy` | `Pool` | the element classes: constructors, `Group.get_topics`, `set_description`, `Question.get_topics` |
| `diagnostics.dfy` | `Diagnostics` | the log of `msg` calls and the two print filters |
| `parser.dfy` | `Parser` | the parse context `State`, `close_group`, `close_subelement`, question assembly, the loop of `get_element_pool` |
| `parser_props.dfy` | `ParserProps` | properties of one pass of the loop, by state and kind of line |
| `lookup.dfy` | `Lookup` | `ElementPool.getQuestionsByIds` of the web page |
| `docx.dfy` | `Docx` | the paragraph and symbol folding loop of `get_docx_text`, with `SYMDICT` |

Modelling choices:

- **Diagnostics.** Each `msg` call of the parser is a `Diag` record (type, id,
  line number) appended to a log. Which records print is a separate filter.
- **Patterns.** The regular expressions of the classifier are abstract
  recognizers, `string -> Option<map<string, string>>`, kept in the table's
  declared order. Only first-match dispatch is modelled.
- **Figure search.** This one pattern is modelled concretely, because the
  question's `figure` field depends on it.
- **Source file.** The parser takes the file's already extracted lines. The
  file name and file type are a `Source` parameter.
- **Word documents.** The Word extractor walks an abstract sequence of events:
  paragraph mark, symbol with its code, text run, and other.

The step function `Parser.Step` is one pass of the `while` body. `Parser.Run` is
the loop. `Run` terminates on every input: each pass consumes a line, or meets
the exhausted source and moves to `end`. `GetElementPool` takes the pattern
table as a parameter, so that the table as written and the corrected table of
the finding below run through the same code.

`gethamquestions/gethamquestionclasses.py` repeats `Filelines` (lines 150-208)
and `close_group`/`close_subelement` (lines 79-95), identically apart from
whitespace, so the members that model them serve both copies. The second
`msg` differs from the parser's and is modelled separately
(`Diagnostics.ClassesMsg`). `get_element_pool` does not import the element
classes: it builds the tree from the copies of `Question`, `Group`, `Subelement`
and `Element` in `gethamquestions/gethamquestions.py` (lines 50-361). Those are
the same as the classes of `gethamquestions/gethamelementclasses.py`, except
that the `Element` copy also prints its timestamp (line 336). The `Pool`
members therefore model both copies.

Behaviours of the code that are easy to misread:

- **Line normalisation.** `fix_line` rewrites only the en dash and the four
  curly quotes. It neither maps a legacy symbol to `x` nor warns about
  non-ASCII text; that mapping happens only in the Word extractor's `SYMDICT`.
- **Blank and empty lines.** `read_fline` skips lines that are non-empty and
  blank. A line of length zero is not skipped, and `_parse_line` reports it as
  `end`.
- **Group descriptions.** A group header read in `group` state keeps its
  description untrimmed. Only one read in `subelement` state is trimmed.
- **Print filter.** The classes' `msg` mutes every id that occurs inside
  `"W403"`, the empty id included, and never prints `Debug`. The parser's own
  `msg` prints only `zero`, `Error` and `Warning`, so it prints no `Info`, and
  an unknown type there raises `ValueError`.
- **Correct letter.** No constructor checks that `correct` names one of the
  four answers. The lookup reports it as an index, -1 when it is not A–D, and
  does not strip it.
- **Lookup output.** The lookup's title is `Question #<qid> <text>`, and the
  lookup returns no topics.

## Model

| member | source | states |
|---|---|---|
| LineSource.NewFilelines | gethamquestions/gethamquestions.py:494-505 | a new line source holds the given lines and is positioned at the first |
| LineSource.Iter | gethamquestions/gethamquestions.py:507-513 | `__iter__` keeps the lines and resets the position to the start |
| LineSource.Len | gethamquestions/gethamquestions.py:515-520 | `__len__` is the number of lines, the sentinel not counted |
| LineSource.Next | gethamquestions/gethamquestions.py:522-537 | `__next__` gives the next line with its 1-based number, `''` once past the last line, then StopIteration exactly when nothing remains; each call uses up one position |
| LineSource.DrainFresh | gethamquestions/gethamquestions.py:522-537 | iterating a fresh source yields every line in order numbered from 1, then exactly one `('', len + 1)`, then stops |
| LineSource.ExhaustedStaysExhausted | gethamquestions/gethamquestions.py:530-537 | after the sentinel every call raises StopIteration |
| LineSource.FixChar | gethamquestions/gethamquestions.py:735-741 | the en dash becomes `-`, both curly single quotes `'`, both curly double quotes `"`; other characters are kept and no smart punctuation is left |
| LineSource.FixLine | gethamquestions/gethamquestions.py:735-741 | `fix_line` keeps the length and rewrites character by character |
| LineSource.FixLineNormalises | gethamquestions/gethamquestions.py:735-741 | after `fix_line` no smart punctuation remains, other characters are untouched, and fixing twice is fixing once |
| LineSource.FixLinePreservesBlank | gethamquestions/gethamquestions.py:745-746 | `fix_line` keeps a line empty, or blank, exactly when it was |
| LineSource.ReadLine | gethamquestions/gethamquestions.py:730-753 | `read_fline` returns the next line normalised with its number; with blank-skipping the result is `''` or has non-blank content; without it exactly one line is consumed; an exhausted source gives `('', len)` and stays where it is |
| LineSource.SkipBlank | gethamquestions/gethamquestions.py:745-749 | the skipping loop stops at a line that is empty or not blank, returning it normalised with its own number |
| LineSource.SkippedLinesAreBlank | gethamquestions/gethamquestions.py:746-748 | every line passed over was non-empty and blank after normalisation, and none is passed over without blank-skipping |
| Text.Strip | gethamquestions/gethamquestions.py:929-935 | `strip()` leaves no whitespace at either end and never lengthens the line |
| Text.StripAt | gethamquestions/gethamquestions.py:929-935 | the stripped line stands at a position of the line with only whitespace before and after it |
| Text.StripOfPadded | gethamquestions/gethamquestions.py:929-935 | a slice with non-space ends and only whitespace around it is exactly what `strip()` returns |
| Text.StripOfStripped | gethamquestions/gethamquestions.py:929-935 | stripping a line with no whitespace at either end returns it unchanged, so stripping twice is stripping once |
| Text.StripLeadingSpace | gethamquestions/gethamquestions.py:929-935 | a leading whitespace character does not change what `strip()` returns |
| Text.RStripChar | gethamquestions/gethamquestions.py:857 | `rstrip('-')` is a prefix of the string, everything removed is `-`, and the result does not end with `-` |
| Text.Split | gethamquestions/gethamelementclasses.py:188 | `split(';')` gives one piece more than there are `;`, no piece holds `;`, and the pieces joined with `;` are the string |
| Text.StripIsSlice | gethamquestions/gethamquestions.py:929-935 | `strip()` gives a contiguous slice of the line with only whitespace before and after it |
| Text.StripEmptyIffAllSpace | gethamquestions/gethamquestions.py:746 | `len(line.strip()) == 0` holds exactly when the line is all whitespace |
| Text.JoinSplit | gethamquestions/gethamelementclasses.py:188 | `split(';')` loses nothing: joining the pieces with `;` gives the string back |
| Text.SplitJoin | gethamquestions/gethamelementclasses.py:188 | pieces without `;`, joined and split again, come back unchanged |
| Text.IsSubstringIff | gethamquestions/gethamquestionclasses.py:30 | the `in` test on strings holds exactly when the needle occurs at some position of the hay |
| Classifier.TableOf | gethamquestions/gethamquestions.py:556-587 | the dispatch table has one entry per pattern, pairing each key with its recognizer in declared order |
| Classifier.AsWrittenKeysFacts | gethamquestions/gethamquestions.py:556-563 | the first key of the table as written is the docstring joined to `element_onel`, so no key equals `element_onel`; the other twelve keys are the pattern names |
| Classifier.FirstMatch | gethamquestions/gethamquestions.py:627-630 | the search returns the first pattern at or after a position that matches, and no pattern matches when it returns none |
| Classifier.Promote | gethamquestions/gethamquestions.py:631-666 | a one-line header records all four header fields and reports `element`; a name line records the name and years, an element-number line the number, and both report `data`; effective-date lines record the dates and report `element` once a number is recorded, otherwise `data`; `subelement2` reports `subelement`; every other key leaves the header fields alone |
| Classifier.ParseLine | gethamquestions/gethamquestions.py:625-670 | an empty line is `end` with no captures; otherwise no key exactly when no pattern matches; when one matches, the first matching pattern decides the key and the captures |
| Classifier.FirstMatchWins | gethamquestions/gethamquestions.py:627-668 | when pattern `i` is the first to match a non-empty line, the line gets pattern `i`'s key, captures and header update |
| Figure.FigureAt | gethamquestions/gethamquestions.py:918 | a match with the word at a position yields a figure code (T, G or E, at most one digit, a dash and digits), and the word `figure` or `Figure` stands there at the start or after whitespace |
| Figure.FigureAtMatches | gethamquestions/gethamquestions.py:918 | `FigureAt` agrees with the pattern in both directions: what it returns is a match (the word at the start or after whitespace, a gap of whitespace, the code, no digit after it), and any match forces it to return that very code |
| Figure.FindFigureMatches | gethamquestions/gethamquestions.py:917-921 | `figure` is `''` exactly when the pattern matches at no position, and otherwise is the code of a match with no match at any earlier position |
| Figure.FirstFigure | gethamquestions/gethamquestions.py:918-919 | the search finds the leftmost position where the figure pattern matches, and none when it matches nowhere |
| Figure.FindFigure | gethamquestions/gethamquestions.py:917-921 | `figure` is `''` exactly when the body holds no figure reference, and otherwise is the code of the leftmost one |
| Pool.NewQuestion | gethamquestions/gethamelementclasses.py:61-71 | every field is stored as given, with no check on the answer count or the letter, and the topics are empty |
| Pool.QuestionTopics | gethamquestions/gethamelementclasses.py:100-107 | `Question.get_topics` leaves no topic, whatever list is offered |
| Pool.GetTopics | gethamquestions/gethamelementclasses.py:180-190 | one topic more than there are `;`, each stripped, with no `;` in it, and no longer than its piece |
| Pool.NewGroup | gethamquestions/gethamelementclasses.py:147-151 | the fields are stored as given and the topics are those of the description |
| Pool.SetDescription | gethamquestions/gethamelementclasses.py:172-178 | the description is replaced, the topics follow it, and the other fields are unchanged |
| Pool.SetDescriptionIdempotent | gethamquestions/gethamelementclasses.py:172-178 | setting the same description twice is setting it once; on a consistent group, re-setting its own description changes nothing |
| Pool.TopicsArePieces | gethamquestions/gethamelementclasses.py:187-190 | each topic is the stripped piece of the description at its position, and the pieces rejoined with `;` give the description back |
| Pool.TopicsOfPlainDescription | gethamquestions/gethamelementclasses.py:188-189 | a description without `;` has itself, stripped, as its only topic, so an empty description gives one empty topic |
| Pool.TopicsOfTwoPieces | gethamquestions/gethamelementclasses.py:188-189 | `a;b` gives the topics `a` and `b`, stripped, in order |
| Diagnostics.ParserMsgPrinted | gethamquestions/gethamquestions.py:776-778 | the parser's `msg` prints exactly the types `zero`, `Error` and `Warning`, and fails on a type outside its list |
| Diagnostics.ClassesMsg | gethamquestions/gethamquestionclasses.py:25-31 | an unknown type gives the invalid-type line; a printed message is neither `Debug` nor muted; a known, non-`Debug`, unmuted message prints |
| Diagnostics.SuppressedIff | gethamquestions/gethamquestionclasses.py:29-31 | a known message is suppressed exactly when it is `Debug` or its id occurs inside `W403` |
| Diagnostics.DebugNeverPrinted | gethamquestions/gethamquestionclasses.py:29-30 | a `Debug` message is never printed |
| Diagnostics.MutedExamples | gethamquestions/gethamquestionclasses.py:30 | `W403` and `40` are muted even as errors, while the error `E005` prints |
| Parser.CloseGroup | gethamquestions/gethamquestions.py:407-414 | an open group is appended to the open subelement's groups and no group is open afterwards; with none open nothing changes; the tree stays well formed |
| Parser.CloseSubelement | gethamquestions/gethamquestions.py:416-423 | an open subelement is appended to the element's subelements and none is open afterwards; with none open nothing changes |
| Parser.TrimDescription | gethamquestions/gethamquestions.py:857 | `strip().rstrip('-').strip()` gives a slice of the description with only whitespace before it and only whitespace and dashes after it, and no whitespace at either end; it is the stripped description with its whole trailing run of dashes cut, stripped again |
| Parser.IsTerminator | gethamquestions/gethamquestions.py:939 | a line counts as the terminator exactly when it is `~~` with only whitespace before and after it |
| Parser.Pass | gethamquestions/gethamquestions.py:791-968 | one pass after the read and the classification: the header fields become the classifier's; a removed or blank-boundary line changes nothing else and logs nothing; an end moves to `end`; an open element stays open; leaving `initial` without an element logs E001 |
| Parser.HeaderSubelement | gethamquestions/gethamquestions.py:832-835 | the new subelement belongs to the open element, takes id, trimmed description and declared counts from the header, and has no groups |
| Parser.HeaderGroup | gethamquestions/gethamquestions.py:879-883 | the new group takes subelement, id and description from the header, has consistent topics and no questions |
| Parser.AppendQuestion | gethamquestions/gethamquestions.py:946 | appending puts the question last, changes nothing else, and keeps the group well formed |
| Parser.QuestionReads | gethamquestions/gethamquestions.py:916-938 | the body and four answers are read skipping blank lines and the terminator without skipping, each read starting where the previous stopped, all from the same lines |
| Parser.BuildQuestion | gethamquestions/gethamquestions.py:909-944 | qid is subelem+group+qnum; the text is the stripped body; the figure is the body's figure; exactly four stripped answers; E005 with the terminator's number is logged exactly when the terminator is not `~~` |
| Parser.ReadQuestion | gethamquestions/gethamquestions.py:909-946 | qid is subelem+group+qnum; the text and figure come from the next meaningful line after the header; the question has four answers; the source ends up six reads further on, past the terminator or at the end of the lines, and moves whenever lines remain |
| Parser.StepInitial | gethamquestions/gethamquestions.py:799-820 | an element line builds the Element from the recorded header fields and moves to `element`; an end logs E001 and moves to `end`; a data line logs I002 and anything else I001, both leaving the context as it was |
| Parser.StepElement | gethamquestions/gethamquestions.py:823-844 | a subelement header opens a subelement and moves to `subelement`; anything else moves to `end` with an error and changes nothing else |
| Parser.StepSubelement | gethamquestions/gethamquestions.py:846-869 | a group header opens a group with a trimmed description; anything else moves to `end` with an error and changes nothing else |
| Parser.StepGroup | gethamquestions/gethamquestions.py:871-960 | a group header closes the open group and opens one with the description untrimmed; a subelement header closes group and subelement and opens the new subelement; a question header appends the question read; an end closes both and stops; anything else stops with E010 and attaches nothing |
| Parser.Dispatch | gethamquestions/gethamquestions.py:797-966 | every state answers an end by moving to `end`; an open element stays open; leaving `initial` without an element is E001 |
| Parser.Step | gethamquestions/gethamquestions.py:790-968 | one pass keeps the context well formed, consumes a line unless it moves to `end`, never loses the element, and logs E001 when it leaves `initial` without one |
| Parser.Run | gethamquestions/gethamquestions.py:790-968 | the loop stops in `end` with a well-formed context, and if no element was opened from `initial` it logged E001 |
| Parser.GetElementPool | gethamquestions/gethamquestions.py:780-970 | the returned element is a well-formed tree, and no element is returned only after the premature end E001 |
| ParserProps.CloseGroupKeepsQuestions | gethamquestions/gethamquestions.py:407-414 | closing a group moves its questions to the open subelement without losing, duplicating or reordering any |
| ParserProps.CloseSubelementKeepsQuestions | gethamquestions/gethamquestions.py:416-423 | closing a subelement moves its questions to the element without losing, duplicating or reordering any |
| ParserProps.CloseIdempotent | gethamquestions/gethamquestionclasses.py:79-95 | closing twice is closing once, and the declared question and group counts are never reconciled with the groups |
| ParserProps.SkippedLineIsNoOp | gethamquestions/gethamquestions.py:790-796 | in any state, a pass that reads a removed or blank-boundary line returns the context unchanged (state, tree and header fields), logs nothing, and only moves the source past the line |
| ParserProps.EndIsAbsorbing | gethamquestions/gethamquestions.py:962-963 | in `end` a pass changes nothing and logs nothing, and the loop stops at once |
| ParserProps.ExhaustedSourceEnds | gethamquestions/gethamquestions.py:751-753 | on an exhausted source the sentinel `''` is read, classified `end`, and every state moves to `end` |
| ParserProps.InitialTolerates | gethamquestions/gethamquestions.py:816-820 | in `initial`, a line that is neither an element line nor an end leaves state and tree as they were |
| ParserProps.UnexpectedLineEnds | gethamquestions/gethamquestions.py:838-869 | in `element`, `subelement` or `group`, a line the state does not expect moves to `end` with an error and attaches nothing |
| ParserProps.AppendQuestionExtends | gethamquestions/gethamquestions.py:946 | appending to the open group adds exactly that question at the end of the questions gathered |
| ParserProps.QuestionLogE005 | gethamquestions/gethamquestions.py:938-940 | a question's log holds E005 exactly when its terminator is not `~~` |
| ParserProps.QuestionAppends | gethamquestions/gethamquestions.py:903-946 | a question header in `group` appends exactly the question read to the open group, changes nothing else, and logs E005 exactly when the terminator is not `~~` |
| ParserProps.GroupStateKeepsQuestions | gethamquestions/gethamquestions.py:874-953 | in `group`, a group header, a subelement header or an end keeps every question gathered so far, in order |
| ParserProps.AsWrittenOneLineHeaderKey | gethamquestions/gethamquestions.py:557-563 | with the table as written, a one-line header is reported under the concatenated key and records no header field |
| ParserProps.AsWrittenOneLineHeaderUnknown | gethamquestions/gethamquestions.py:631-638 | with the table as written, a one-line header is reported under a key no state branch tests, and the header fields stay as they were |
| ParserProps.InitialUnknownKey | gethamquestions/gethamquestions.py:818-820 | in `initial`, a line under a key no branch tests is tolerated with I001 |
| ParserProps.AsWrittenIgnoresOneLineHeader | gethamquestions/gethamquestions.py:631-638 | with the table as written, a one-line header in `initial` leaves the context unchanged and only logs I001 |
| ParserProps.CorrectedOneLineHeaderKey | gethamquestions/gethamquestions.py:631-638 | with the corrected table, a one-line header reports `element` and records all four header fields |
| ParserProps.InitialElementKey | gethamquestions/gethamquestions.py:802-810 | in `initial`, an element line opens the element described by the recorded header fields |
| ParserProps.CorrectedOpensOneLineHeader | gethamquestions/gethamquestions.py:802-810 | with the corrected table, a one-line header in `initial` opens the element with the number, name, years and effective date of that line |
| Lookup.DecimalString | gethamquestions/elementpool.js:136 | an index is rendered as decimal digits without leading zeros |
| Lookup.DecimalRoundTrip | gethamquestions/elementpool.js:136 | reading the rendered index back gives the index, so distinct holes have distinct messages |
| Lookup.HoleMsg | gethamquestions/elementpool.js:136-137 | a hole's message is the prefix followed by its index, and is never `question found` |
| Lookup.Substr | gethamquestions/elementpool.js:124 | `substr(start)` is the suffix after `start` characters, empty when the string is shorter |
| Lookup.ToPage | gethamquestions/elementpool.js:110-126 | id and figure are copied; the title is `Question #` + qid + ` ` + text; the answers keep their count and each loses its first `start` characters; `correct` is the letter's index in A–D, -1 exactly when it is not one of them |
| Lookup.AnswerStart | gethamquestions/elementpool.js:118-121 | answers lose three characters exactly when the options contain `strip-answer-prefix`, otherwise none |
| Lookup.Collect | gethamquestions/elementpool.js:100-132 | every filled position is below the length, every matched question's position is below it, and the last position is some question's |
| Lookup.CollectKeys | gethamquestions/elementpool.js:108-127 | a position is filled exactly when some question of the pool has its id first requested there |
| Lookup.LastAt | gethamquestions/elementpool.js:127 | the reference definition of the winning question: the last in file order whose position is `i` |
| Lookup.CollectLastWins | gethamquestions/elementpool.js:127 | a filled position holds the last question in file order placed there |
| Lookup.Densify | gethamquestions/elementpool.js:133-140 | every position below the length holds its question and `question found`, or `{}` and the hole message |
| Lookup.GetQuestionsByIds | gethamquestions/elementpool.js:86-143 | an empty element gives `[[''], ['this.element is empty']]`; a non-array gives `[[''], ['input is not an array']]`; otherwise there is one message per entry, no more entries than ids, and each entry is a question with `question found` or `{}` with its hole message |
| Lookup.RequestedQuestionIsReturned | gethamquestions/elementpool.js:108-128 | every pool question whose id is requested is returned at the first position of its id, with `question found` |
| Lookup.ReturnedQuestionIsRequested | gethamquestions/elementpool.js:100-140 | a position holds a question exactly when some pool question's id is first requested there, and then it is the page form of the last such question, with answers shortened exactly as the options ask |
| Lookup.NoTrailingHole | gethamquestions/elementpool.js:127-140 | the result ends with a question, so ids requested after the last match give no entry |
| Seqs.IndexOf | gethamquestions/elementpool.js:108 | `indexOf` is -1 exactly when the value is absent, and otherwise the position of its first occurrence |
| Docx.Flush | gethamquestions/gethamexternalfunctions.py:51-53 | finishing the pending pieces keeps the paragraphs, adds one exactly when pieces are pending (even empty ones), and loses no text |
| Docx.Visit | gethamquestions/gethamexternalfunctions.py:39-49 | visiting one element never removes a finished paragraph |
| Docx.VisitKeepsText | gethamquestions/gethamexternalfunctions.py:40-49 | one element adds exactly its own text to the document text, at the end |
| Docx.Walk | gethamquestions/gethamexternalfunctions.py:39-49 | the walk never removes a finished paragraph |
| Docx.WalkKeepsText | gethamquestions/gethamexternalfunctions.py:39-49 | the walk adds the text of every run and symbol, in document order, and nothing else |
| Docx.DocxText | gethamquestions/gethamexternalfunctions.py:23-55 | the paragraphs, joined, are exactly the text of all runs and symbols in document order |
| Docx.SymbolText | gethamquestions/gethamexternalfunctions.py:45-46 | a symbol becomes `x` or `u\unkn` |
| Docx.SymbolTextCases | gethamquestions/gethamexternalfunctions.py:18-21 | a symbol is `x` exactly when its upper-cased code is `F0B4`, and every other code, `0000` included, is `u\unkn` |
| Docx.LowerCaseSymbol | gethamquestions/gethamexternalfunctions.py:45 | the lower-case code `f0b4` is `x` too |
| Docx.WalkAppend | gethamquestions/gethamexternalfunctions.py:39-49 | walking two runs of elements is walking the first, then the second |
| Docx.WalkWithoutMarks | gethamquestions/gethamexternalfunctions.py:44-49 | without a paragraph mark the walk appends the pieces in element order and finishes no paragraph |
| Docx.WalkKeepsParagraphs | gethamquestions/gethamexternalfunctions.py:40-43 | paragraphs finished earlier stay in front and do not influence the rest of the walk |
| Docx.OneParagraph | gethamquestions/gethamexternalfunctions.py:51-53 | a document without paragraph marks gives nothing when it has no pieces, and otherwise one paragraph joining all of them |
| Docx.MarkSplits | gethamquestions/gethamexternalfunctions.py:40-43 | a paragraph mark splits the document: the paragraphs before it, then those after it, and a paragraph with no pieces gives no entry |

## Left out

- File and operating-system input and output are not modelled, because they do not affect the parse. This covers `get_file`, `get_file_type` (libmagic), the Word and zip reading, and the JSON and text writing of `close_element`. The parser takes the extracted lines; file name and file type are a parameter.
- `print_summary`, `__str__`/`__repr__`, the text layout of `msg`, and the per-character dump for question T5C08 are left out: they only print.
- The `datetime` timestamp of an Element is left out. It is a clock reading.
- `print_summary` runs in the `end` branch of `group` state and reads `yrvalid["begin"]`. When no name-and-years line was seen, `yrvalid` is still `''`, and that read raises `TypeError`, so `get_element_pool` raises instead of returning, after `close_element` has already written its files (gethamquestions/gethamquestions.py:950-954). The model returns the element in that case: where the program fails with that `TypeError`, the model succeeds. The failure is left out because it comes from the print-only summary, not from the parse.
- `close_element` is not modelled, because it only writes files. The `end` branch of `group` state does everything else it does.
- The `print_summary` of `gethamquestions/gethamquestionclasses.py` reads a `subtopics` attribute of groups that no class defines. There is no subtopic split in the code, so none is modelled.
- `getElementByFileName` and its callbacks are jQuery network I/O and are left out, as are the `debug` calls.
- Python's regular-expression semantics are not modelled. Every pattern except the figure search is an abstract recognizer.
- Figure.FigureAt: `\d` is modelled as the ASCII digits and `\s` as the `str.isspace` characters. Python 3 string patterns also accept other Unicode decimal digits.
- Text.Upper: upper-cases ASCII letters only, while Python's `upper()` covers all of Unicode. Symbol codes are hexadecimal, so the lookup is unaffected.
- Lookup.Substr: counts characters, while JavaScript's `substr` counts UTF-16 code units. They differ only for characters outside the Basic Multilingual Plane.
- Lookup.GetQuestionsByIds: `options` is taken to be a string, as its default is. `!this.element` is modelled as the element being absent.
- Text.Strip: its own contract states only that no whitespace is left at the ends; that the result is the slice between the leading and trailing whitespace is stated by `Text.StripAt`, `Text.StripIsSlice` and `Text.StripOfPadded`, to keep the function cheap to unfold.
- Docx.Visit: its own contract states only that finished paragraphs stay; its effect on the text is stated by `Docx.VisitKeepsText`.
- Docx.Walk: its own contract states only that finished paragraphs stay; its effect on the text is stated by `Docx.WalkKeepsText` and `Docx.WalkKeepsParagraphs`.
- Docx.DocxText: a text element whose text is `None` makes Python's `''.join` fail. A symbol without a `w:char` attribute raises `KeyError`. Both failures are left out: every text run carries a string and every symbol a code.
- ParserProps.QuestionAppends: stated for the `group` branch of the step, which is given the header's captures and the source after the header, rather than for a whole pass. The whole-pass statement adds only the read and the classification of the header line, which `ParserProps.StepLine` and `Classifier.FirstMatchWins` describe.
- Parser.Step: does not state that I004 follows every state change. The trace record is only observational.

## Findings

| source | as written | input that shows it | evidently intended | confidence | as-written member | corrected member |
|---|---|---|---|---|---|---|
| gethamquestions/gethamquestions.py:557-563 | the triple-quoted example text before `'element_onel'` is joined to it by implicit string concatenation, so the first key is that text followed by `element_onel`; the test `key == 'element_onel'` at line 631 never holds, and a one-line header is returned under the long key, which no state handles | any line the `element_onel` pattern matches, such as `2019-2023 General Class - FCC Element 3 Question Pool - Effective July 1, 2019`: in `initial` it is tolerated with I001, no header field is recorded and no element is opened | the line is reported as `element`, its name, years, effective date and element number are recorded, and the element is opened | not executed | ParserProps.AsWrittenIgnoresOneLineHeader | ParserProps.CorrectedOpensOneLineHeader |
