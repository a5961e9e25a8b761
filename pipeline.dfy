/**
 * The per-school loop of app.py: for each selected school, in selection order,
 * search, join the snippets into a context, generate an answer, record
 * `school -> answer` and append the school's links to one global source list.
 *
 * The search provider and the language model are oracles passed in as functions.
 * `None` from an oracle stands for any failure of that call (network error,
 * malformed JSON, a missing field): the source does not catch it, so it ends the
 * whole submission and no bundle is produced.
 */
module Pipeline {
  import opened Wrappers
  import opened Text
  import opened Search
  import opened Answers

  /** The search provider: the reply to a query. */
  type Searcher = string -> Option<SearchResponse>

  /** The language model: the raw completion text for (question, school, context). */
  type Generator = (string, string, string) -> Option<string>

  /** An outbound provider call, in the order the loop makes them. */
  datatype Call =
    | SearchCall(query: string)
    | GenerateCall(question: string, school: string, context: string)

  /** `respuestas` and `todas_fuentes` once the loop has run. */
  datatype Bundle = Bundle(answers: seq<Entry>, sources: seq<string>)

  /** What a run of the loop leaves: the bundle (`None` once a call failed) and the calls made. */
  datatype Run = Run(bundle: Option<Bundle>, calls: seq<Call>)

  /** `generar_respuesta`: the model's text with surrounding whitespace stripped. */
  function GenerateAnswer(generate: Generator, question: string, school: string, context: string): (r: Option<string>)
    ensures r.None? <==> generate(question, school, context).None?
    ensures r.Some? ==> r.value == [] || (!IsSpace(r.value[0]) && !IsSpace(r.value[|r.value| - 1]))
    ensures r.Some? ==> var text := generate(question, school, context).value;
      exists i :: 0 <= i <= |text| - |r.value| && r.value == text[i..i + |r.value|] && AllSpace(text[..i]) && AllSpace(text[i + |r.value|..])
  {
    match generate(question, school, context)
    case None => None
    case Some(text) =>
      StripSpec(text);
      Some(Strip(text))
  }

  /** What the loop body does for one school: the calls it makes, the answer it records (`None` when a call fails) and the links it collects. */
  datatype Visit = Visit(calls: seq<Call>, answer: Option<string>, links: seq<string>)

  function VisitSchool(question: string, school: string, search: Searcher, generate: Generator): Visit
  {
    var query := Query(question, school);
    match search(query)
    case None => Visit([SearchCall(query)], None, [])
    case Some(response) =>
      var context := Context(response);
      Visit([SearchCall(query), GenerateCall(question, school, context)],
            GenerateAnswer(generate, question, school, context), Links(response))
  }

  /** The context the loop builds for `school` ("" when its search fails and no generate call follows). */
  function ContextOf(question: string, school: string, search: Searcher): string
  {
    match search(Query(question, school))
    case None => ""
    case Some(response) => Context(response)
  }

  /** One iteration of the loop body, given what the school's visit produced; skipped once an earlier iteration has failed. */
  function Step(school: string, visit: Visit, run: Run): Run
  {
    if run.bundle.None? then run
    else
      var calls := run.calls + visit.calls;
      if visit.answer.None? then Run(None, calls)
      else Run(Some(Bundle(Put(run.bundle.value.answers, school, visit.answer.value),
                           run.bundle.value.sources + visit.links)), calls)
  }

  /** The loop over `schools`, starting from an empty dict and list, where iteration `i` visits with the outcome `visits[i]`. */
  function Fold(schools: seq<string>, visits: seq<Visit>): Run
    requires |visits| == |schools|
  {
    if schools == [] then Run(Some(Bundle([], [])), [])
    else Step(schools[|schools| - 1], visits[|visits| - 1], Fold(schools[..|schools| - 1], visits[..|visits| - 1]))
  }

  /** The links of all visits, concatenated in order. */
  function ConcatLinks(visits: seq<Visit>): seq<string>
  {
    if visits == [] then [] else ConcatLinks(visits[..|visits| - 1]) + visits[|visits| - 1].links
  }

  /** Each visit makes its first call, and the second only when the first succeeded; a recorded answer means both calls were made. */
  predicate WellFormedVisit(visit: Visit)
  {
    1 <= |visit.calls| <= 2 && (visit.answer.Some? ==> |visit.calls| == 2)
  }

  /** Once an iteration has failed, the remaining ones change nothing. */
  lemma {:induction false} FoldFailureIsFinal(schools: seq<string>, visits: seq<Visit>, k: nat)
    requires |visits| == |schools| && k <= |schools|
    requires Fold(schools[..k], visits[..k]).bundle.None?
    ensures Fold(schools, visits) == Fold(schools[..k], visits[..k])
  {
    if k < |schools| {
      var n := |schools| - 1;
      assert schools[..n][..k] == schools[..k] && visits[..n][..k] == visits[..k];
      FoldFailureIsFinal(schools[..n], visits[..n], k);
    } else {
      assert schools[..k] == schools && visits[..k] == visits;
    }
  }

  /** The fold produces a bundle exactly when every visit recorded an answer. */
  lemma {:induction false} FoldSucceedsIff(schools: seq<string>, visits: seq<Visit>)
    requires |visits| == |schools|
    ensures Fold(schools, visits).bundle.Some? <==> forall i :: 0 <= i < |visits| ==> visits[i].answer.Some?
  {
    if schools != [] {
      var n := |schools| - 1;
      FoldSucceedsIff(schools[..n], visits[..n]);
      assert forall i :: 0 <= i < n ==> visits[..n][i] == visits[i];
    }
  }

  /** After a successful fold the keys are the distinct schools in order of first occurrence. */
  lemma {:induction false} FoldKeys(schools: seq<string>, visits: seq<Visit>)
    requires |visits| == |schools|
    requires Fold(schools, visits).bundle.Some?
    ensures Keys(Fold(schools, visits).bundle.value.answers) == Dedup(schools)
  {
    if schools != [] {
      var n := |schools| - 1;
      var prev := Fold(schools[..n], visits[..n]);
      FoldKeys(schools[..n], visits[..n]);
      PutKeys(prev.bundle.value.answers, schools[n], visits[n].answer.value);
    }
  }

  /**
   * After a successful fold in which each visit's answer is a function of its
   * school, each school maps to that answer.
   */
  lemma {:induction false} FoldValues(schools: seq<string>, visits: seq<Visit>, answerOf: string -> Option<string>)
    requires |visits| == |schools|
    requires forall i :: 0 <= i < |schools| ==> visits[i].answer == answerOf(schools[i])
    requires Fold(schools, visits).bundle.Some?
    ensures forall i :: 0 <= i < |schools| ==> Lookup(Fold(schools, visits).bundle.value.answers, schools[i]) == answerOf(schools[i])
  {
    if schools != [] {
      var n := |schools| - 1;
      var before := Fold(schools[..n], visits[..n]).bundle.value.answers;
      var after := Put(before, schools[n], visits[n].answer.value);
      assert Fold(schools, visits).bundle.value.answers == after;
      assert forall i :: 0 <= i < n ==> visits[..n][i] == visits[i];
      FoldValues(schools[..n], visits[..n], answerOf);
      PutLookup(before, schools[n], visits[n].answer.value);
      forall i | 0 <= i < |schools|
        ensures Lookup(after, schools[i]) == answerOf(schools[i])
      {
        if schools[i] != schools[n] {
          assert schools[..n][i] == schools[i];
        }
      }
    }
  }

  /** After a successful fold the source list is the concatenation of the visits' links. */
  lemma {:induction false} FoldSources(schools: seq<string>, visits: seq<Visit>)
    requires |visits| == |schools|
    requires Fold(schools, visits).bundle.Some?
    ensures Fold(schools, visits).bundle.value.sources == ConcatLinks(visits)
  {
    if schools != [] {
      var n := |schools| - 1;
      FoldSources(schools[..n], visits[..n]);
    }
  }

  /** Concatenating the links of two runs of visits is concatenating their lists. */
  lemma {:induction false} ConcatLinksAppend(first: seq<Visit>, second: seq<Visit>)
    ensures ConcatLinks(first + second) == ConcatLinks(first) + ConcatLinks(second)
  {
    if second == [] {
      assert first + second == first;
    } else {
      var n := |second| - 1;
      assert (first + second)[..|first + second| - 1] == first + second[..n];
      assert (first + second)[|first + second| - 1] == second[n];
      ConcatLinksAppend(first, second[..n]);
    }
  }

  /**
   * The calls of a fold are the visits' calls, two per visit, in visit order, up
   * to and including the first visit that failed.
   */
  lemma {:induction false} FoldCalls(schools: seq<string>, visits: seq<Visit>)
    requires |visits| == |schools|
    requires forall i :: 0 <= i < |visits| ==> WellFormedVisit(visits[i])
    ensures var run := Fold(schools, visits);
      && |run.calls| <= 2 * |schools|
      && (run.bundle.Some? ==> |run.calls| == 2 * |schools|)
      && (schools != [] ==> run.calls != [])
      && forall j :: 0 <= j < |run.calls| ==> j / 2 < |visits| && j % 2 < |visits[j / 2].calls| && run.calls[j] == visits[j / 2].calls[j % 2]
  {
    if schools != [] {
      var n := |schools| - 1;
      assert forall i :: 0 <= i < n ==> visits[..n][i] == visits[i];
      FoldCalls(schools[..n], visits[..n]);
      var prev := Fold(schools[..n], visits[..n]);
      var run := Fold(schools, visits);
      assert WellFormedVisit(visits[n]);
      if prev.bundle.Some? {
        forall j | 0 <= j < |run.calls|
          ensures j / 2 < |visits| && j % 2 < |visits[j / 2].calls| && run.calls[j] == visits[j / 2].calls[j % 2]
        {
          if j < |prev.calls| {
            assert run.calls[j] == prev.calls[j];
          } else {
            assert j / 2 == n && j % 2 == j - |prev.calls|;
          }
        }
      }
    }
  }

  /** The outcome of each selected school's visit, in selection order. */
  function Visits(question: string, schools: seq<string>, search: Searcher, generate: Generator): seq<Visit>
  {
    seq(|schools|, i requires 0 <= i < |schools| => VisitSchool(question, schools[i], search, generate))
  }

  /** The loop over `schools`, as the iterations applied in order to an empty dict and list. */
  function Process(question: string, schools: seq<string>, search: Searcher, generate: Generator): Run
  {
    Fold(schools, Visits(question, schools, search, generate))
  }

  /** The sources of all schools, concatenated in school order. */
  function AllLinks(question: string, schools: seq<string>, search: Searcher, generate: Generator): seq<string>
  {
    ConcatLinks(Visits(question, schools, search, generate))
  }

  /** The call at position `j` when every call before it succeeded: search, then generate, school by school. */
  function ExpectedCall(question: string, schools: seq<string>, search: Searcher, j: nat): Call
    requires j < 2 * |schools|
  {
    var school := schools[j / 2];
    if j % 2 == 0 then SearchCall(Query(question, school))
    else GenerateCall(question, school, ContextOf(question, school, search))
  }

  lemma VisitsPrefix(question: string, schools: seq<string>, search: Searcher, generate: Generator, k: nat)
    requires k <= |schools|
    ensures Visits(question, schools[..k], search, generate) == Visits(question, schools, search, generate)[..k]
  {
  }

  /** Processing one more school is one more iteration of the loop body. */
  lemma ProcessStep(question: string, schools: seq<string>, search: Searcher, generate: Generator, i: nat)
    requires i < |schools|
    ensures Process(question, schools[..i + 1], search, generate)
         == Step(schools[i], VisitSchool(question, schools[i], search, generate), Process(question, schools[..i], search, generate))
  {
    var p := schools[..i + 1];
    var v := Visits(question, p, search, generate);
    assert p[..i] == schools[..i];
    VisitsPrefix(question, p, search, generate, i);
    assert v[i] == VisitSchool(question, schools[i], search, generate);
  }

  /**
   * The loop itself. `respuestas` and `todas_fuentes` are built up in place; a
   * failing call ends the loop with no bundle, and the calls made so far.
   */
  method AnswerAll(question: string, schools: seq<string>, search: Searcher, generate: Generator)
    returns (bundle: Option<Bundle>, calls: seq<Call>)
    ensures Run(bundle, calls) == Process(question, schools, search, generate)
  {
    var respuestas: seq<Entry> := [];
    var todasFuentes: seq<string> := [];
    calls := [];
    var i := 0;
    while i < |schools|
      invariant 0 <= i <= |schools|
      invariant Process(question, schools[..i], search, generate) == Run(Some(Bundle(respuestas, todasFuentes)), calls)
    {
      var escuela := schools[i];
      ProcessStep(question, schools, search, generate, i);
      var query := Query(question, escuela);
      var resultados := search(query);
      calls := calls + [SearchCall(query)];
      if resultados.None? {
        FailureIsFinal(question, schools, i + 1, search, generate);
        return None, calls;
      }
      var contexto := Context(resultados.value);
      var fuentes := Links(resultados.value);
      var respuesta := GenerateAnswer(generate, question, escuela, contexto);
      calls := calls + [GenerateCall(question, escuela, contexto)];
      if respuesta.None? {
        FailureIsFinal(question, schools, i + 1, search, generate);
        return None, calls;
      }
      respuestas := Put(respuestas, escuela, respuesta.value);
      todasFuentes := todasFuentes + fuentes;
      i := i + 1;
    }
    assert schools[..i] == schools;
    bundle := Some(Bundle(respuestas, todasFuentes));
  }

  /** Once a call has failed, the remaining schools change nothing: no partial result, no further calls. */
  lemma FailureIsFinal(question: string, schools: seq<string>, k: nat, search: Searcher, generate: Generator)
    requires k <= |schools|
    requires Process(question, schools[..k], search, generate).bundle.None?
    ensures Process(question, schools, search, generate) == Process(question, schools[..k], search, generate)
  {
    VisitsPrefix(question, schools, search, generate, k);
    FoldFailureIsFinal(schools, Visits(question, schools, search, generate), k);
  }

  /** The loop produces a bundle exactly when both calls succeed for every selected school. */
  lemma SucceedsIff(question: string, schools: seq<string>, search: Searcher, generate: Generator)
    ensures Process(question, schools, search, generate).bundle.Some? <==>
      forall i :: 0 <= i < |schools| ==> VisitSchool(question, schools[i], search, generate).answer.Some?
  {
    var visits := Visits(question, schools, search, generate);
    FoldSucceedsIff(schools, visits);
    assert forall i :: 0 <= i < |schools| ==> visits[i] == VisitSchool(question, schools[i], search, generate);
  }

  /**
   * After a successful loop the dict holds one key per distinct selected school,
   * in the order of first selection.
   */
  lemma AnswerKeys(question: string, schools: seq<string>, search: Searcher, generate: Generator)
    requires Process(question, schools, search, generate).bundle.Some?
    ensures Keys(Process(question, schools, search, generate).bundle.value.answers) == Dedup(schools)
  {
    FoldKeys(schools, Visits(question, schools, search, generate));
  }

  /** After a successful loop each selected school maps to the generator's stripped output for that school's context. */
  lemma AnswerValues(question: string, schools: seq<string>, search: Searcher, generate: Generator)
    requires Process(question, schools, search, generate).bundle.Some?
    ensures var answers := Process(question, schools, search, generate).bundle.value.answers;
      forall i :: 0 <= i < |schools| ==> Lookup(answers, schools[i]) == VisitSchool(question, schools[i], search, generate).answer
  {
    FoldValues(schools, Visits(question, schools, search, generate), s => VisitSchool(question, s, search, generate).answer);
  }

  /** After a successful loop the source list is every school's links, concatenated in order: nothing removed, nothing merged. */
  lemma SourcesConcatenated(question: string, schools: seq<string>, search: Searcher, generate: Generator)
    requires Process(question, schools, search, generate).bundle.Some?
    ensures Process(question, schools, search, generate).bundle.value.sources == AllLinks(question, schools, search, generate)
  {
    FoldSources(schools, Visits(question, schools, search, generate));
  }

  /** Splitting the selection splits the source list: a school selected twice contributes its links twice. */
  lemma AllLinksAppend(question: string, first: seq<string>, second: seq<string>, search: Searcher, generate: Generator)
    ensures AllLinks(question, first + second, search, generate) == AllLinks(question, first, search, generate) + AllLinks(question, second, search, generate)
  {
    var v1 := Visits(question, first, search, generate);
    var v2 := Visits(question, second, search, generate);
    assert Visits(question, first + second, search, generate) == v1 + v2;
    ConcatLinksAppend(v1, v2);
  }

  /**
   * The calls come in pairs, one pair per school in selection order: the search
   * for the school's query, then the generation on its context. A failure stops
   * the sequence; a successful loop makes exactly two calls per school.
   */
  lemma CallsInOrder(question: string, schools: seq<string>, search: Searcher, generate: Generator)
    ensures var run := Process(question, schools, search, generate);
      && |run.calls| <= 2 * |schools|
      && (run.bundle.Some? ==> |run.calls| == 2 * |schools|)
      && (schools != [] ==> run.calls != [])
      && forall j :: 0 <= j < |run.calls| ==> run.calls[j] == ExpectedCall(question, schools, search, j)
  {
    var visits := Visits(question, schools, search, generate);
    forall i | 0 <= i < |visits|
      ensures WellFormedVisit(visits[i])
    {
      VisitCalls(question, schools[i], search, generate);
    }
    FoldCalls(schools, visits);
    var run := Process(question, schools, search, generate);
    forall j | 0 <= j < |run.calls|
      ensures run.calls[j] == ExpectedCall(question, schools, search, j)
    {
      VisitCalls(question, schools[j / 2], search, generate);
    }
  }

  /** One school's calls: its search, then, when that succeeded, the generation on its context. */
  lemma VisitCalls(question: string, school: string, search: Searcher, generate: Generator)
    ensures var visit := VisitSchool(question, school, search, generate);
      && 1 <= |visit.calls| <= 2
      && visit.calls[0] == SearchCall(Query(question, school))
      && (|visit.calls| == 2 ==> visit.calls[1] == GenerateCall(question, school, ContextOf(question, school, search)))
      && (visit.answer.Some? ==> |visit.calls| == 2)
      && (|visit.calls| == 2 <==> search(Query(question, school)).Some?)
  {
  }
}
