/**
 * The search side of app.py: the query sent for a (question, school) pair in
 * `buscar_informacion`, and what the per-school loop reads from the JSON reply,
 * the snippets joined into a context and the links kept as sources.
 */
module Search {
  import opened Wrappers
  import opened Text

  /** One element of the reply's `organic` array. */
  datatype Item = Item(snippet: string, link: string)

  /** A decoded reply; `organic` is `None` when the reply has no such field. */
  datatype SearchResponse = SearchResponse(organic: Option<seq<Item>>)

  const Topic := " economía"

  /** The `q` field of the search request for `question` and `school`. */
  function Query(question: string, school: string): string
  {
    question + " " + school + Topic
  }

  /** The query is the question, a space, the school and the topic word, in that order. */
  lemma QueryLayout(question: string, school: string)
    ensures var q := Query(question, school);
      && |q| == |question| + 1 + |school| + |Topic|
      && q[..|question|] == question && q[|question|] == ' '
      && q[|question| + 1..|question| + 1 + |school|] == school
      && q[|q| - |Topic|..] == Topic
  {
  }

  /** For a fixed school the query determines the question. */
  lemma QueryDeterminesQuestion(question1: string, question2: string, school: string)
    requires Query(question1, school) == Query(question2, school)
    ensures question1 == question2
  {
    var q := Query(question1, school);
    QueryLayout(question1, school);
    QueryLayout(question2, school);
    assert |question1| == |question2|;
    assert question1 == q[..|question1|] == question2;
  }

  /** For a fixed question the query determines the school. */
  lemma QueryDeterminesSchool(question: string, school1: string, school2: string)
    requires Query(question, school1) == Query(question, school2)
    ensures school1 == school2
  {
    var q := Query(question, school1);
    var n := |question| + 1;
    QueryLayout(question, school1);
    QueryLayout(question, school2);
    assert |school1| == |school2|;
    assert school1 == q[n..n + |school1|] == school2;
  }

  /** `resultados_busqueda.get("organic", [])`. */
  function Organic(response: SearchResponse): seq<Item>
  {
    match response.organic
    case None => []
    case Some(items) => items
  }

  /** The `snippet` of every organic result, in result order. */
  function Snippets(response: SearchResponse): (r: seq<string>)
    ensures |r| == |Organic(response)|
    ensures forall i :: 0 <= i < |r| ==> r[i] == Organic(response)[i].snippet
  {
    var items := Organic(response);
    seq(|items|, i requires 0 <= i < |items| => items[i].snippet)
  }

  /** The `link` of every organic result, in result order: one school's sources. */
  function Links(response: SearchResponse): (r: seq<string>)
    ensures |r| == |Organic(response)|
    ensures forall i :: 0 <= i < |r| ==> r[i] == Organic(response)[i].link
  {
    var items := Organic(response);
    seq(|items|, i requires 0 <= i < |items| => items[i].link)
  }

  /** The context handed to the generator: the snippets joined by newlines. */
  function Context(response: SearchResponse): string
  {
    Join(Snippets(response), '\n')
  }

  /** A reply without `organic`, or with an empty one, gives an empty context and no sources. */
  lemma NoOrganicResults(response: SearchResponse)
    requires response.organic.None? || response.organic == Some([])
    ensures Context(response) == "" && Links(response) == []
  {
  }

  /**
   * The context is empty exactly when there are no snippets or a single empty one;
   * the generator cannot tell those two apart.
   */
  lemma EmptyContext(response: SearchResponse)
    ensures Context(response) == "" <==>
      |Organic(response)| == 0 || (|Organic(response)| == 1 && Organic(response)[0].snippet == "")
  {
  }

  /** When no snippet holds a newline and there is one at least, the context loses nothing: splitting it on newlines gives the snippets back. */
  lemma ContextKeepsSnippets(response: SearchResponse)
    requires |Organic(response)| >= 1
    requires forall i :: 0 <= i < |Organic(response)| ==> '\n' !in Organic(response)[i].snippet
    ensures Split(Context(response), '\n') == Snippets(response)
  {
    SplitJoin(Snippets(response), '\n');
  }
}
