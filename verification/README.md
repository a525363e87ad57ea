# Quiz markdown parser and filename sanitiser, in Dafny

This project models the core of a small quiz generator. The core turns a
markdown document of multiple-choice questions into question records. It also
builds the file names the records and the quiz page are saved under.

- **Segmenter** (`Segmenter`). The document is split with `re.split` on the
  capturing marker pattern `(\n\s*\*\*\d+\.\s*)`. Each captured marker is glued
  onto the text that follows it. The leading piece is kept only when its
  stripped form starts with `**`. The split is a list of marker spans. The
  spans are proved to be the one leftmost, non-overlapping choice that
  `re.split` makes.
- **Extractor** (`Extractor`, `Options`). One unanchored `search` per chunk,
  with MULTILINE, DOTALL and IGNORECASE. It is modelled as a scanner that
  fixes the leftmost start, the shortest (lazy) question and the longest
  (greedy) options group. It is proved equal to a declarative "preferred
  match" reading. The options group is read by the case-sensitive option
  pattern with `finditer`, and a dict comprehension in which the last value
  for a key wins.
- **Parser** (`Parser`). Chunks that match give one record each, in chunk
  order, and the others are skipped. A missing file is an absent text and
  gives no records.
- **Writer and round trip** (`Render`, `Document`). These give an independent
  reference for the parser. They write a question in the layout the parser
  expects, and prove that a whole document written that way parses back to
  exactly its questions, in order.
- **Sanitisers** (`Sanitize`). `sanitize_filename` of the web application
  lower-cases, transliterates Vietnamese vowels and `đ`, turns each whitespace
  run into `_`, and keeps only `-_.() `, ASCII letters and digits. The
  command-line tool's inline variant does the same without transliteration.
- **Callers** (`App`, `Cli`).
  - The web application's parser copy and its `/create` route, up to the two
    file names.
  - The command-line tool's parser copy and the order of the checks in its
    main routine.

Where the written description of the system and the code differ, the model
follows the code:

- The leading piece is kept whenever, once stripped, it starts with `**`.
  This includes a document with no marker at all, which then gives one chunk,
  not zero.
- The options group is not limited to consecutive option lines. Its `.*`
  matches line breaks (DOTALL) and the group is greedy. So it runs from the
  first option line to the last line break that is followed by an
  `đáp án:` / `Giải thích:` tail. Other lines, and earlier answer lines, can
  fall inside it.
- The chunk pattern is searched, not matched against the whole chunk. Text
  in front of the first `**<digits>.` of a chunk is skipped.
- In the option pattern, the `\s*` after the period can cross a line break.
  So `A.` alone on a line takes the next line as its value.
- The web application accepts a title that sanitises to nothing and writes
  `.json` and `.html`. The command-line tool refuses such a name.

## Model

| member | source | states |
|---|---|---|
| Segmenter.MarkerAt | parser.py:25 | a marker found at `i` starts with the line break at `i`, and its greedy trailing `\s*` is exhausted: the text after it does not start with whitespace |
| Segmenter.MarkerAtSound | parser.py:25 | what `MarkerAt` reports is a match of `\n\s*\*\*\d+\.\s*` |
| Segmenter.MarkerAtLongest | parser.py:25 | every match of the marker pattern at `i` is found by `MarkerAt`, and none is longer than the one found |
| Segmenter.NextMarker | parser.py:25 | the marker returned is the first from `from` on, and no marker starts before it; none is returned only when no marker starts in the rest |
| Segmenter.SpansFromSplitting | parser.py:25 | the spans `re.split` uses are markers, left to right and non-overlapping, with no marker starting before, between or after them |
| Segmenter.SplittingUnique | parser.py:25 | any list of spans meeting that reading is the one `re.split` uses |
| Segmenter.Split | parser.py:25 | the split has one more piece than twice the number of markers, and its pieces put together give the document back |
| Segmenter.SplitWithPieces | parser.py:25 | piece 0 is the text before the first marker, piece 2k+1 is marker k, and piece 2k+2 is the text from marker k to the next marker or the end |
| Segmenter.GluePairsAt | parser.py:30 | glued chunk k is captured marker k followed by the text piece after it |
| Segmenter.ChunkContents | parser.py:25-30 | glued chunk k is the document from marker k up to the next marker, or to the end |
| Segmenter.ChunkCount | parser.py:25-36 | there is one chunk per marker, plus one exactly when the stripped leading piece starts with `**` |
| Segmenter.PreambleIs | parser.py:25-32 | the leading piece is the document up to its first marker |
| Segmenter.ChunksConcat | parser.py:25-36 | the chunks put together give the whole document, or, when the leading piece is dropped, the document from its first marker on |
| Segmenter.LeadingQuestionKept | parser.py:32-36 | a document starting with `**` has no marker at offset 0, yet its leading piece is kept as the first chunk |
| Extractor.ToUpper | parser.py:64 | an answer letter in either case comes out as the capital `A`-`D` |
| Extractor.Head | parser.py:40 | a head found at `s` is `**`, a non-empty run of digits and a period |
| Extractor.OptionsStart | parser.py:41 | the options start at a line start, with a letter `A`-`D` in either case and a period |
| Extractor.AnswerAt | parser.py:42-43 | an answer tail found at `t` starts with the answer keyword in any case, and the answer letter lies after it, separated by whitespace only |
| Extractor.AnswerAtParts | parser.py:42-43 | after the answer letter and whitespace comes the explanation keyword, and the explanation starts after the keyword's whitespace |
| Extractor.LastOptionsEndIsLast | parser.py:41 | the greedy options group ends at or after every acceptable end |
| Extractor.QuestionEndIsFirst | parser.py:40 | the lazy question ends at or before every end from which the rest of the pattern matches |
| Extractor.SearchIsFirst | parser.py:50 | `search` reports a start at or before every start where the pattern matches |
| Extractor.MatchAt | parser.py:39-45 | the scan at `s` fails exactly when the pattern cannot match with its start at `s`; otherwise it reports a way the pattern matches there, with no match at `s` having a shorter question and none with that question a longer options group |
| Extractor.Record | parser.py:60-66 | the record built from a match has a single capital answer letter, stripped question and explanation, and option keys `A`-`D` with stripped values |
| Extractor.Extract | parser.py:50-66 | a record found in a chunk has the same shape |
| Extractor.PreferredUnique | parser.py:39-45 | at most one match is preferred: leftmost start, then shortest question, then longest options group |
| Extractor.ViableMatchAt | parser.py:39-45 | whenever the pattern can match at `s`, the scan at `s` succeeds with a question no longer than that match's and, for the same question, an options group no shorter |
| Extractor.MatchAtViable | parser.py:39-45 | what the scan finds at `s` is a way the pattern can match there |
| Extractor.SearchPreferred | parser.py:50 | the match `search` reports is the preferred one |
| Extractor.ExtractMeaning | parser.py:50-51 | a chunk gives no record exactly when the pattern cannot match anywhere in it; otherwise the record is built from the preferred match |
| Options.LineEnd | parser.py:46 | `.*$` without DOTALL stops at the first line break or at the end |
| Options.OptionHere | parser.py:46 | an option match starts with a capital `A`-`D` and a period, and its key is that letter |
| Options.OptionHereValue | parser.py:46-56 | an option value is stripped and holds no line break |
| Options.Scan | parser.py:57 | every entry `finditer` yields has a key `A`-`D` and a stripped, single-line value |
| Options.BuildMap | parser.py:55-58 | every key of the dict comes from some entry |
| Options.BuildMapValues | parser.py:55-58 | every value in the dict is the value of an entry with that key |
| Options.BuildMapLastWins | parser.py:55-58 | each key gets the value of the last entry with that key |
| Options.OptionsDict | parser.py:55-58 | the options dict has keys `A`-`D` and stripped single-line values |
| Options.OptionHereLine | parser.py:46 | a written option line `K. value` is read back as its key and value |
| Options.ScanOptionLines | parser.py:46-57 | reading written option lines with `finditer` gives back the written entries, in order |
| Parser.Outcomes | parser.py:49-51 | there is one search outcome per chunk, and every record found is well formed |
| Parser.Collect | parser.py:48-68 | there are no more records than chunks, and each is well formed |
| Parser.CollectIndices | parser.py:48-68 | the records are those of the matching chunks, one each, in strictly increasing chunk order, and no matching chunk is left out |
| Parser.CollectAll | parser.py:49-66 | when every chunk matches, the records are exactly the chunks' records, in order |
| Parser.CollectEmpty | parser.py:48-68 | no record comes out exactly when no chunk matches |
| Parser.ParseQuestions | parser.py:23-68 | there are at most as many records as markers, plus one for a kept leading piece, and all are well formed |
| Parser.ParseQuizFile | parser.py:16-18 | a missing file gives no records |
| Parser.NothingParsed | parser.py:16-68 | no records come out exactly when the file is missing or no chunk matches |
| Parser.ExplanationIsRest | parser.py:43-65 | the explanation is the stripped rest of its own chunk after an explanation keyword |
| Parser.AnswerRest | parser.py:43-65 | stripping the explanation group gives the stripped text after the explanation keyword |
| Parser.NoMarkerNoQuestion | parser.py:25-68 | a text with no line-break-led marker whose stripped form does not start with `**` gives no records |
| Parser.PreambleDropped | parser.py:32-34 | a leading piece that, stripped, does not start with `**` adds no record |
| Parser.LeadingChunkSearched | parser.py:32-50 | a text starting with `**` has its leading piece searched in front of the other chunks |
| Render.ExtractLaid | parser.py:50-66 | a chunk holding a written block, with no `*` before it and only whitespace after it, gives exactly the record the question describes |
| Render.ExtractPiece | parser.py:39-66 | round trip: a block written for a well-formed question, after any text without `*` and before any whitespace, is read back into that question's record |
| Document.QuizSpansAre | parser.py:25 | the markers `re.split` uses in a written quiz document are exactly those of its blocks |
| Document.QuizPreamble | parser.py:32-34 | the introduction of a written document is the leading piece, and it is dropped |
| Document.QuizExtract | parser.py:49-51 | each chunk of a written document gives the record of its block |
| Document.ParseQuiz | parser.py:25-68 | round trip: a document written from well-formed questions after a plain introduction parses back to those questions' records, one each, in order |
| Document.LeadSpansAre | parser.py:25 | in a document that opens directly with a block, the markers `re.split` uses are exactly those of the blocks after the first |
| Document.LeadKept | parser.py:32-36 | such a document keeps its opening block as the first chunk, in front of one glued chunk per further block |
| Document.LeadAlone | parser.py:25-36 | a lone block followed by whitespace is the only chunk of the text |
| Document.ParseLeading | parser.py:25-68 | round trip without an introduction: a document that opens directly with a well-formed block, followed by further blocks and whitespace, parses back to the opening block's record followed by the others', in order |
| Document.ParseOne | parser.py:25-68 | a document with one well-formed block parses to that block's record alone |
| Document.AnswerNotCrossChecked | parser.py:41-65 | a block whose answer letter names no listed option still gives a record, whose answer is not among its option keys |
| Document.OptionReadBack | parser.py:46-58 | each option reads back with the value of the last line for its key |
| Document.AnswerUpperCased | parser.py:42-64 | a lower-case answer letter comes back as its capital |
| Sanitize.LowerChar | app.py:108 | lower-casing leaves no ASCII capital, keeps whitespace as it is, brings in no whitespace, and leaves other ASCII characters unchanged |
| Sanitize.Lower | app.py:108 | a lower-cased name holds no ASCII capital |
| Sanitize.ReplaceClass | app.py:109-115 | one `re.sub` with a class keeps the length, and replaces exactly the characters of the class |
| Sanitize.PassesAreBase | app.py:109-115 | the seven passes in a row map each character to its base letter |
| Sanitize.TranslitByChar | app.py:109-115 | transliteration keeps the length and maps each character to its base letter |
| Sanitize.CollapseSpace | app.py:116 | after the `\s+` replacement no whitespace is left, and no ASCII capital is brought in |
| Sanitize.KeepValid | app.py:117-118 | the filter keeps only valid characters, taken from its input, and never lengthens it |
| Sanitize.SanitizeFilename | app.py:106-119 | the web application's name holds only `-_.()`, small ASCII letters and digits |
| Sanitize.InlineSanitize | create_quiz.py:258-262 | the command-line tool's name holds only `-_.()`, small ASCII letters and digits |
| Sanitize.SanitizedAlphabet | app.py:117-118 | every character of both names is valid, and none is whitespace or an upper-case letter |
| Sanitize.SafeUnchanged | app.py:108-118 | a name that is already safe comes through both sanitisers unchanged |
| Sanitize.SanitizeIdempotent | app.py:108-118 | sanitising twice is sanitising once, for both sanitisers |
| Sanitize.SanitizeAppend | app.py:108-118 | both sanitisers work piece by piece on a title cut anywhere except inside a whitespace run |
| Sanitize.OneUnderscorePerRun | app.py:116 | each whitespace run becomes exactly one `_`, and the text around it sanitises on its own |
| Sanitize.AccentedLetter | app.py:109-115 | an accented vowel or `đ`, in either case, becomes its plain small letter in the web application's name and disappears from the command-line tool's |
| Sanitize.CapitalLetter | app.py:108 | an ASCII capital becomes its small letter in both names |
| Sanitize.AsciiAgree | create_quiz.py:258-262 | on an ASCII title the two sanitisers agree |
| App.ParseQuizFromContent | app.py:73-104 | every record of the web application's parser copy is well formed |
| App.SameAsFileParser | app.py:76-79 | the copy gives what the file parser gives on a file with the same content: the `blocks and` guard always holds |
| App.NoMarkerNoQuestion | app.py:76-79 | content with no line-break-led marker whose stripped form does not start with `**` gives no records |
| App.PreambleAddsNothing | app.py:76-79 | a dropped leading piece adds no record, and the chunks after it are each searched |
| App.NamesFor | app.py:156-158 | the JSON and HTML names share the stem, differ only in the `.json` / `.html` suffix, and are distinct |
| App.CreateQuiz | app.py:144-158 | the route refuses exactly when a field is missing or empty, reports no questions exactly when the content yields none, and otherwise keeps the parsed records under two names built from the sanitised title |
| App.EmptyStemAccepted | app.py:156-158 | a title that sanitises to nothing is still accepted, with the names `.json` and `.html` |
| Cli.ParseQuizMd | create_quiz.py:209-243 | a missing input file gives no records |
| Cli.SameAsParser | create_quiz.py:215-243 | the tool's copy computes what the parser computes on the same input |
| Cli.RunMain | create_quiz.py:258-289 | the run stops with an invalid name exactly when the inline name is empty, stops with nothing extracted exactly when the name is usable and parsing gives no records, and otherwise names the two files after the inline name |
| Cli.NameCheckedFirst | create_quiz.py:264-266 | for a name that sanitises to nothing, the outcome does not depend on the input file |
| Cli.MissingFile | create_quiz.py:210-273 | a missing input file with a usable name ends with nothing extracted |
| Cli.AccentedNameRefused | create_quiz.py:258-266 | a name made of one accented letter is refused by the tool, although the web application maps it to a letter |

## Left out

- Reading and writing files, `os.path.exists`, `glob`, `argparse`, `print` and the Flask plumbing (reading the form, status codes, redirects, serving files). The file read becomes an optional text, absent when the path does not exist. The form fields become optional texts.
- `json.dump`, the HTML templates, their substitution, and the JavaScript quiz widget. These are presentation and foreign library code. The model stops at the records and the two file names.
- The index page and its `pretty_name` title-casing. This is presentation.
- Sanitize.LowerChar: `str.lower()` is modelled on ASCII, on the capitals of the Vietnamese letters in the transliteration classes, on the Kelvin sign and on the dotted capital I. Every other character is kept as it is, which Python would lower-case.
- Sanitize.Lower: intermediate strings are those of the modelled `lower()`. They differ from Python's wherever Python lower-cases a character outside the modelled alphabet.
- Text.IsDigit: `\d` and `int()` are read over the ASCII digits only. Python also accepts other Unicode decimal digits.
- Extractor.Record: the id is read with `int()` on an unbounded digit run. Since CPython 3.11, `int()` raises `ValueError` on a decimal string longer than 4300 digits (the default `sys.set_int_max_str_digits` limit). None of the three parser copies catches it (parser.py:61, app.py:98, create_quiz.py:237), so such a document aborts the whole parse. `parse_quiz_md` raises instead of returning a list, the `/create` route fails with a server error, and the command-line tool stops with a traceback. The model has no such limit and returns the record. This holds for `Document.ParseLeading` too.
- Options.OptionsDict: the options are an unordered map. Python's dict keeps the order of first insertion, and a repeated key keeps its first slot. `json.dump` writes that order to the `.json` file. The key order of the written JSON is not modelled; the quiz page sorts the keys itself.
- Extractor.FoldMatch: IGNORECASE is modelled for the characters of the two keywords, the answer letter and the letter that opens the options group. Those are the only literals in the pattern that have a case; `**`, `.`, `:` and the spaces have none.
- Document.ParseQuiz: the round trip is stated for documents written in one fixed layout and for questions the layout can carry. The layout has single spaces and line breaks, an introduction without `*` that does not end in whitespace (or no introduction at all, in `Document.ParseLeading`), and only whitespace after the last block. So `"Title\n\n**1. ..."` is not covered. The questions (`Render.Writable`, `Options.WritableEntry`) have no `*` anywhere in the question or the explanation, which rules out ordinary markdown emphasis. They have no explanation line that starts with the answer keyword, at least one option, and every option value non-empty and on one line. Ids of 10^4300 or more do not parse back under CPython 3.11 and later: the whole parse raises instead, as the `Extractor.Record` line above explains. Other layouts and questions the parser accepts are covered by `Extractor.ExtractMeaning` and `Parser.CollectIndices`, not by a round trip.
- Concurrency and the web server's process model are not part of this model.
