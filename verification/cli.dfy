/**
 The command-line tool: its own copy of the file parser, the inline
 sanitising of the quiz name, and the order of the checks in its main
 routine up to the names of the two files it writes. Argument parsing, the
 messages it prints and the file writes are not part of this model.
 */
module Cli {
  import opened Wrappers
  import opened Text
  import opened Segmenter
  import opened Extractor
  import opened Parser
  import opened Sanitize
  import opened App

  /** The tool's `parse_quiz_md`, with the input file given as its content or
      `None` when the path does not exist. This copy has no guard on the split
      being non-empty. */
  function ParseQuizMd(inputFile: Option<string>): (r: seq<Question>)
    ensures inputFile.None? ==> r == []
  {
    match inputFile
    case None => []
    case Some(content) =>
      var blocks := Split(content);
      var fullBlocks := GluePairs(blocks);
      Collect(if StartsWith(Strip(blocks[0]), "**") then [blocks[0]] + fullBlocks else fullBlocks)
  }

  /** The copy computes what the parser module computes. */
  lemma SameAsParser(inputFile: Option<string>)
    ensures ParseQuizMd(inputFile) == ParseQuizFile(inputFile)
  {
  }

  /** How a run of the tool ends. */
  datatype RunOutcome =
    | InvalidName
    | NothingExtracted
    | Generated(names: OutputNames, questions: seq<Question>)

  /** The main routine: the name is sanitised and checked first, the file is
      parsed only for a usable name, and the two names are built only when
      something was extracted. */
  function RunMain(inputFile: Option<string>, quizName: string): (r: RunOutcome)
    ensures r.InvalidName? <==> InlineSanitize(quizName) == []
    ensures r.NothingExtracted? <==> InlineSanitize(quizName) != [] && ParseQuizFile(inputFile) == []
    ensures r.Generated? ==>
      && |InlineSanitize(quizName)| > 0
      && r.questions == ParseQuizFile(inputFile) && |r.questions| > 0
      && SharedStem(r.names, InlineSanitize(quizName))
  {
    var name := InlineSanitize(quizName);
    if |name| == 0 then InvalidName
    else
      var data := ParseQuizMd(inputFile);
      SameAsParser(inputFile);
      if |data| == 0 then NothingExtracted
      else Generated(NamesFor(name), data)
  }

  /** The name is checked before the file: for a name that sanitises to
      nothing the outcome does not depend on the file at all. */
  lemma NameCheckedFirst(f1: Option<string>, f2: Option<string>, quizName: string)
    requires InlineSanitize(quizName) == []
    ensures RunMain(f1, quizName) == RunMain(f2, quizName) == InvalidName
  {
  }

  /** A missing input file with a usable name ends with nothing extracted. */
  lemma MissingFile(quizName: string)
    requires InlineSanitize(quizName) != []
    ensures RunMain(None, quizName) == NothingExtracted
  {
  }

  /** A one-letter name whose letter is accented is refused by the tool,
      which drops the letter, although the web application would map it to
      its base letter. */
  lemma AccentedNameRefused(inputFile: Option<string>, c: char, v: char)
    requires LowerChar(c) == [v] && InAnyClass(v)
    ensures RunMain(inputFile, [c]) == InvalidName
    ensures SanitizeFilename([c]) == [Base(v)]
  {
    AccentedLetter(c, v);
  }
}
