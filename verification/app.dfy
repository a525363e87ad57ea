/**
 The web application's side of the pipeline: its own copy of the parser,
 working on the submitted text, and the `/create` route up to the point where
 it knows which two files it will write. Reading the form, writing the files,
 the page templates and the redirect are not part of this model.
 */
module App {
  import opened Wrappers
  import opened Text
  import opened Segmenter
  import opened Extractor
  import opened Parser
  import opened Sanitize

  // ---- The parser copy ----

  /** The chunks `parse_quiz_from_content` searches. Unlike the file parser it
      guards the leading piece with a test that the split is not empty. */
  function ContentChunks(content: string): seq<string>
  {
    var blocks := Split(content);
    var fullBlocks := GluePairs(blocks);
    if |blocks| > 0 && StartsWith(Strip(blocks[0]), "**") then [blocks[0]] + fullBlocks else fullBlocks
  }

  /** `parse_quiz_from_content`. */
  function ParseQuizFromContent(content: string): (r: seq<Question>)
    ensures forall k :: 0 <= k < |r| ==> WellFormed(r[k])
  {
    Collect(ContentChunks(content))
  }

  /** The copy computes what the file parser computes on a file holding the
      same text: the extra guard always holds, since a split has at least one piece. */
  lemma SameAsFileParser(content: string)
    ensures ParseQuizFromContent(content) == ParseQuizFile(Some(content))
  {
    assert |Split(content)| > 0;
  }

  /** Text with no newline-preceded marker whose stripped form does not start
      with `**` gives no question. */
  lemma NoMarkerNoQuestion(content: string)
    requires NoMarkerIn(content, 0, |content|) && !StartsWith(Strip(content), "**")
    ensures ParseQuizFromContent(content) == []
  {
    SameAsFileParser(content);
    Parser.NoMarkerNoQuestion(content);
  }

  /** A preamble before the first marker adds no question, and the questions
      after it are each searched. */
  lemma PreambleAddsNothing(content: string)
    requires !KeepsPreamble(content)
    ensures ParseQuizFromContent(content) == Collect(GluePairs(Split(content)))
  {
    SameAsFileParser(content);
    PreambleDropped(content);
  }

  // ---- The two output files ----

  /** The names of the JSON data file and the HTML page. */
  datatype OutputNames = OutputNames(json: string, html: string)

  /** Two names that share a stem and differ only in the `.json` / `.html` suffix. */
  predicate SharedStem(n: OutputNames, stem: string) {
    && |n.json| == |stem| + 5 && |n.html| == |stem| + 5
    && n.json[..|stem|] == stem && n.html[..|stem|] == stem
    && n.json[|stem|..] == ".json" && n.html[|stem|..] == ".html"
  }

  /** The two file names built from a stem. */
  function NamesFor(stem: string): (r: OutputNames)
    ensures SharedStem(r, stem)
    ensures r.json != r.html
  {
    var r := OutputNames(stem + ".json", stem + ".html");
    assert r.json[|stem| + 1] != r.html[|stem| + 1];
    r
  }

  // ---- The create route ----

  /** What the `/create` route does with a submission. */
  datatype CreateOutcome =
    | MissingInput
    | NoQuestions
    | Created(names: OutputNames, questions: seq<Question>)

  /** Python's truth test on a form field: absent or empty is false. */
  predicate Given(field: Option<string>) {
    field.Some? && |field.value| > 0
  }

  /** The `/create` route from the two form fields to the files it writes: both
      fields must be given, the text must yield a question, and only then is
      the title turned into the stem of the two file names. */
  function CreateQuiz(title: Option<string>, content: Option<string>): (r: CreateOutcome)
    ensures r.MissingInput? <==> !Given(title) || !Given(content)
    ensures r.NoQuestions? <==> Given(title) && Given(content) && ParseQuizFromContent(content.value) == []
    ensures r.Created? ==>
      && Given(title) && Given(content)
      && r.questions == ParseQuizFromContent(content.value) && |r.questions| > 0
      && SharedStem(r.names, SanitizeFilename(title.value))
  {
    if !Given(title) || !Given(content) then MissingInput
    else
      var data := ParseQuizFromContent(content.value);
      if |data| == 0 then NoQuestions
      else Created(NamesFor(SanitizeFilename(title.value)), data)
  }

  /** Unlike the command-line tool, the route does not refuse a title that
      sanitises to nothing: such a title gives the names `.json` and `.html`. */
  lemma EmptyStemAccepted(title: string, content: string)
    requires |title| > 0 && |content| > 0 && SanitizeFilename(title) == []
    requires ParseQuizFromContent(content) != []
    ensures CreateQuiz(Some(title), Some(content)).Created?
    ensures CreateQuiz(Some(title), Some(content)).names == OutputNames(".json", ".html")
  {
    var data := ParseQuizFromContent(content);
    assert CreateQuiz(Some(title), Some(content)) == Created(NamesFor(SanitizeFilename(title)), data);
    EmptyStemNames();
  }

  lemma EmptyStemNames()
    ensures NamesFor([]) == OutputNames(".json", ".html")
  {
    assert [] + ".json" == ".json" && [] + ".html" == ".html";
  }
}
