/**
 * The submission path of app.py: the gate in front of the loop, the loop, the
 * document and the name of the file offered for download. Widgets are reduced to
 * the values they deliver: the question, the selected schools in selection order
 * and whether the button was pressed on this run.
 */
module App {
  import opened Wrappers
  import opened Text
  import opened Answers
  import opened Pipeline
  import opened Docx

  /** The options of the schools multiselect. */
  const Catalogue: seq<string> := [
    "Escuela Austríaca de Economía", "Socialismo", "Keynesianismo", "Monetarismo",
    "Mercantilismo", "Marxismo", "Neoclasicismo", "Fisiocracia", "Economía del Desarrollo",
    "Economía Conductual", "Escuela de Chicago", "Institucionalismo", "Económica Feminista",
    "Poskeynesianismo", "Escuela de Fráncfort"
  ]

  const MaxSchools := 5

  const TooManyWarning := "Has seleccionado más de 5 corrientes. Por favor, selecciona un máximo de 5."
  const MissingWarning := "Por favor, selecciona un problema y al menos una corriente."

  /** What a multiselect can deliver: catalogue entries, each at most once. */
  predicate FromMultiselect(schools: seq<string>)
  {
    Distinct(schools) && forall i :: 0 <= i < |schools| ==> schools[i] in Catalogue
  }

  /** The branch the script takes on one run. */
  datatype Gate = TooManySchools | Waiting | MissingInput | Proceed

  /**
   * The nested `if`s in front of the loop: more than five schools warns whether
   * or not the button was pressed; otherwise nothing happens until it is
   * pressed, and then the loop runs only with a non-empty question and at least
   * one school.
   */
  function Decide(question: string, schools: seq<string>, pressed: bool): (g: Gate)
    ensures g == Proceed <==> pressed && question != "" && 1 <= |schools| <= MaxSchools
    ensures g == TooManySchools <==> |schools| > MaxSchools
    ensures g == Waiting <==> |schools| <= MaxSchools && !pressed
  {
    if |schools| > MaxSchools then TooManySchools
    else if !pressed then Waiting
    else if question != "" && schools != [] then Proceed
    else MissingInput
  }

  /** The `file_name` of the download button. */
  function FileName(question: string): string
  {
    "Respuesta_" + ReplaceSpaces(question) + ".docx"
  }

  /** The file name is the prefix, the question with every space turned into an underscore, and the extension. */
  lemma FileNameLayout(question: string)
    ensures var name := FileName(question);
      && |name| == |question| + 15
      && name[..10] == "Respuesta_" && name[|name| - 5..] == ".docx"
      && name[10..|name| - 5] == ReplaceSpaces(question)
      && ' ' !in name
  {
    ReplaceSpacesNoSpace(question);
    var name := FileName(question);
    assert name[10..|name| - 5] == ReplaceSpaces(question);
    assert name == "Respuesta_" + name[10..|name| - 5] + ".docx";
    assert ' ' !in "Respuesta_" && ' ' !in ".docx";
  }

  /** Spaces and underscores are not told apart, so two questions can share a file name. */
  lemma FileNameCollision()
    ensures FileName("a b") == FileName("a_b")
  {
    assert ReplaceSpaces("a b") == "a_b";
    assert ReplaceSpaces("a_b") == "a_b";
  }

  /** What the page ends up showing. `Crashed` is an uncaught provider failure: no answers and no document. */
  datatype Screen =
    | Blank
    | Warning(message: string)
    | Crashed
    | Answered(bundle: Bundle, document: seq<Element>, fileName: string)

  /**
   * One run of the script from the selection to the download button. The
   * providers are called only when the gate lets the submission through, and
   * then exactly as the loop prescribes.
   */
  method Submit(problema: string, escuelas: seq<string>, pressed: bool, search: Searcher, generate: Generator)
    returns (screen: Screen, calls: seq<Call>)
    ensures calls != [] <==> Decide(problema, escuelas, pressed) == Proceed
    ensures Decide(problema, escuelas, pressed) == TooManySchools ==> screen == Warning(TooManyWarning)
    ensures Decide(problema, escuelas, pressed) == Waiting ==> screen == Blank
    ensures Decide(problema, escuelas, pressed) == MissingInput ==> screen == Warning(MissingWarning)
    ensures Decide(problema, escuelas, pressed) == Proceed ==>
      var run := Process(problema, escuelas, search, generate);
      && calls == run.calls
      && match run.bundle
         case None => screen == Crashed
         case Some(b) => screen == Answered(b, Document(problema, b.answers, b.sources), FileName(problema))
  {
    calls := [];
    if |escuelas| > MaxSchools {
      screen := Warning(TooManyWarning);
    } else if !pressed {
      screen := Blank;
    } else if problema != "" && escuelas != [] {
      var bundle;
      bundle, calls := AnswerAll(problema, escuelas, search, generate);
      CallsInOrder(problema, escuelas, search, generate);
      if bundle.None? {
        screen := Crashed;
      } else {
        var doc := CreateDocx(problema, bundle.value.answers, bundle.value.sources);
        screen := Answered(bundle.value, doc, FileName(problema));
      }
    } else {
      screen := Warning(MissingWarning);
    }
  }

  /**
   * For a selection a multiselect can make, a completed submission answers
   * every selected school once, in selection order, lists every school's links
   * in order, and its document has 5 + 2·|schools| + |sources| elements.
   */
  lemma AnsweredSubmission(question: string, schools: seq<string>, search: Searcher, generate: Generator)
    requires FromMultiselect(schools)
    requires Process(question, schools, search, generate).bundle.Some?
    ensures var b := Process(question, schools, search, generate).bundle.value;
      && Keys(b.answers) == schools
      && b.sources == AllLinks(question, schools, search, generate)
      && |Document(question, b.answers, b.sources)| == 5 + 2 * |schools| + |b.sources|
  {
    var b := Process(question, schools, search, generate).bundle.value;
    AnswerKeys(question, schools, search, generate);
    DedupDistinct(schools);
    SourcesConcatenated(question, schools, search, generate);
    DocumentLayout(question, b.answers, b.sources);
  }
}
