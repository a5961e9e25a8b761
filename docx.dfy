/**
 * `create_docx` of app.py. The document is modelled as the sequence of elements
 * it is built from, in the order they are added: headings with their level,
 * plain paragraphs and "List Bullet" paragraphs.
 */
module Docx {
  import opened Answers

  datatype Element =
    | Heading(level: nat, text: string)
    | Paragraph(text: string)
    | Bullet(text: string)

  const Title := "Diccionario de Problemas Económicos"
  const ProblemTitle := "Problema"
  const AnswerTitlePrefix := "Respuesta según la corriente "
  const SourcesTitle := "Fuentes"
  const Note := "\nNota: Este documento fue generado por un asistente de IA. Verifica la información con fuentes académicas para un análisis más profundo."

  /** The two elements added for one dict entry: its heading and its answer. */
  function AnswerBlock(entry: Entry): seq<Element>
  {
    [Heading(2, AnswerTitlePrefix + entry.school), Paragraph(entry.answer)]
  }

  /** The elements added by `for escuela, respuesta in respuestas.items()`: a heading and a body per entry, in dict order. */
  function AnswerSection(answers: seq<Entry>): (r: seq<Element>)
    ensures |r| == 2 * |answers|
    ensures forall i :: 0 <= i < |answers| ==>
      r[2 * i] == Heading(2, AnswerTitlePrefix + answers[i].school) && r[2 * i + 1] == Paragraph(answers[i].answer)
  {
    if answers == [] then []
    else AnswerSection(answers[..|answers| - 1]) + AnswerBlock(answers[|answers| - 1])
  }

  /** The elements added by `for fuente in fuentes`: one bullet per source, all of them, in order. */
  function SourceList(sources: seq<string>): (r: seq<Element>)
    ensures |r| == |sources|
    ensures forall j :: 0 <= j < |sources| ==> r[j] == Bullet(sources[j])
  {
    if sources == [] then []
    else SourceList(sources[..|sources| - 1]) + [Bullet(sources[|sources| - 1])]
  }

  /** The document `create_docx(problema, respuestas, fuentes)` returns. */
  function Document(question: string, answers: seq<Entry>, sources: seq<string>): seq<Element>
  {
    [Heading(0, Title), Heading(1, ProblemTitle), Paragraph(question)]
      + AnswerSection(answers)
      + [Heading(1, SourcesTitle)]
      + SourceList(sources)
      + [Paragraph(Note)]
  }

  /** Where the parts of the document start: the answers at 3, the sources heading after them, the bullets after that. */
  lemma DocumentParts(question: string, answers: seq<Entry>, sources: seq<string>)
    ensures var doc := Document(question, answers, sources);
      && |doc| == 5 + 2 * |answers| + |sources|
      && doc[..3] == [Heading(0, Title), Heading(1, ProblemTitle), Paragraph(question)]
      && doc[3..3 + 2 * |answers|] == AnswerSection(answers)
      && doc[3 + 2 * |answers|] == Heading(1, SourcesTitle)
      && doc[4 + 2 * |answers|..|doc| - 1] == SourceList(sources)
      && doc[|doc| - 1] == Paragraph(Note)
  {
  }

  /** The heading and the body of the `i`-th answer. */
  lemma AnswerAt(question: string, answers: seq<Entry>, sources: seq<string>, i: nat)
    requires i < |answers|
    ensures var doc := Document(question, answers, sources);
      && 4 + 2 * i < |doc|
      && doc[3 + 2 * i] == Heading(2, AnswerTitlePrefix + answers[i].school)
      && doc[4 + 2 * i] == Paragraph(answers[i].answer)
  {
    var doc := Document(question, answers, sources);
    DocumentParts(question, answers, sources);
    assert doc[3 + 2 * i] == doc[3..3 + 2 * |answers|][2 * i];
    assert doc[4 + 2 * i] == doc[3..3 + 2 * |answers|][2 * i + 1];
  }

  /** The bullet of the `j`-th source. */
  lemma SourceAt(question: string, answers: seq<Entry>, sources: seq<string>, j: nat)
    requires j < |sources|
    ensures var doc := Document(question, answers, sources);
      && 4 + 2 * |answers| + j < |doc|
      && doc[4 + 2 * |answers| + j] == Bullet(sources[j])
  {
    var doc := Document(question, answers, sources);
    DocumentParts(question, answers, sources);
    assert doc[4 + 2 * |answers| + j] == doc[4 + 2 * |answers|..|doc| - 1][j];
  }

  /**
   * The layout of the document: title and problem heading, the question
   * verbatim, a level-2 heading and a body per answer in dict order, the sources
   * heading, one bullet per source and the closing note; 5 + 2·|answers| +
   * |sources| elements in all.
   */
  lemma DocumentLayout(question: string, answers: seq<Entry>, sources: seq<string>)
    ensures var doc := Document(question, answers, sources);
      && |doc| == 5 + 2 * |answers| + |sources|
      && doc[0] == Heading(0, Title) && doc[1] == Heading(1, ProblemTitle) && doc[2] == Paragraph(question)
      && (forall i :: 0 <= i < |answers| ==>
            doc[3 + 2 * i] == Heading(2, AnswerTitlePrefix + answers[i].school)
            && doc[4 + 2 * i] == Paragraph(answers[i].answer))
      && doc[3 + 2 * |answers|] == Heading(1, SourcesTitle)
      && (forall j :: 0 <= j < |sources| ==> doc[4 + 2 * |answers| + j] == Bullet(sources[j]))
      && doc[|doc| - 1] == Paragraph(Note)
  {
    var doc := Document(question, answers, sources);
    DocumentParts(question, answers, sources);
    assert doc[0] == doc[..3][0] && doc[1] == doc[..3][1] && doc[2] == doc[..3][2];
    forall i | 0 <= i < |answers|
      ensures doc[3 + 2 * i] == Heading(2, AnswerTitlePrefix + answers[i].school)
      ensures doc[4 + 2 * i] == Paragraph(answers[i].answer)
    {
      AnswerAt(question, answers, sources, i);
    }
    forall j | 0 <= j < |sources|
      ensures doc[4 + 2 * |answers| + j] == Bullet(sources[j])
    {
      SourceAt(question, answers, sources, j);
    }
  }

  /**
   * The document loses nothing: two documents are equal only when they were
   * built from the same question, the same answers in the same order and the
   * same sources.
   */
  lemma DocumentDeterminesInputs(question1: string, answers1: seq<Entry>, sources1: seq<string>,
                                 question2: string, answers2: seq<Entry>, sources2: seq<string>)
    requires Document(question1, answers1, sources1) == Document(question2, answers2, sources2)
    ensures question1 == question2 && answers1 == answers2 && sources1 == sources2
  {
    var doc := Document(question1, answers1, sources1);
    DocumentParts(question1, answers1, sources1);
    DocumentParts(question2, answers2, sources2);
    assert question1 == doc[..3][2].text == question2;
    if |answers1| != |answers2| {
      assert false;
    }
    assert answers1 == answers2 by {
      forall i | 0 <= i < |answers1|
        ensures answers1[i] == answers2[i]
      {
        AnswerAt(question1, answers1, sources1, i);
        AnswerAt(question2, answers2, sources2, i);
        var heading := doc[3 + 2 * i].text;
        var n := |AnswerTitlePrefix|;
        assert answers1[i].school == heading[n..] == answers2[i].school;
      }
    }
    assert sources1 == sources2 by {
      assert SourceList(sources1) == SourceList(sources2);
      forall j | 0 <= j < |sources1|
        ensures sources1[j] == sources2[j]
      {
        assert SourceList(sources1)[j] == Bullet(sources1[j]);
      }
    }
  }

  /** `create_docx`: the document is appended to element by element, as the source does. */
  method CreateDocx(problema: string, respuestas: seq<Entry>, fuentes: seq<string>) returns (doc: seq<Element>)
    ensures doc == Document(problema, respuestas, fuentes)
  {
    doc := [Heading(0, Title)];
    doc := doc + [Heading(1, ProblemTitle)];
    doc := doc + [Paragraph(problema)];
    ghost var front := doc;
    for i := 0 to |respuestas|
      invariant doc == front + AnswerSection(respuestas[..i])
    {
      assert respuestas[..i + 1][..i] == respuestas[..i];
      assert AnswerSection(respuestas[..i + 1]) == AnswerSection(respuestas[..i]) + AnswerBlock(respuestas[i]);
      doc := doc + [Heading(2, AnswerTitlePrefix + respuestas[i].school)];
      doc := doc + [Paragraph(respuestas[i].answer)];
    }
    assert respuestas[..|respuestas|] == respuestas;
    doc := doc + [Heading(1, SourcesTitle)];
    ghost var middle := doc;
    for j := 0 to |fuentes|
      invariant doc == middle + SourceList(fuentes[..j])
    {
      assert fuentes[..j + 1][..j] == fuentes[..j];
      assert SourceList(fuentes[..j + 1]) == SourceList(fuentes[..j]) + [Bullet(fuentes[j])];
      doc := doc + [Bullet(fuentes[j])];
    }
    assert fuentes[..|fuentes|] == fuentes;
    doc := doc + [Paragraph(Note)];
  }
}
