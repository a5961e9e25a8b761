# Diccionario de Problemas Económicos — a verified model of the submission path

The application is a Streamlit page: the user picks (or types) an economic
question and one to five schools of economic thought. For each school, in
selection order, it sends a web search for `"<question> <school> economía"`,
joins the snippets of the organic results into a context, asks a language
model for an answer in that school's voice, and records `school → answer` in
an insertion-ordered dict while appending the school's result links to one
global source list. It then shows the answers and offers a DOCX document
(title, the question, one heading and body per school, the sources as bullets,
a closing note) under the name `Respuesta_<question with '_' for ' '>.docx`.

This project models that data path in Dafny:

- `wrappers.dfy` — `Option`, used for absent JSON fields and failed calls.
- `text.dfy` — Python's `str.strip()` (with the exact set of characters
  `str.isspace()` accepts), `sep.join`, `str.split` as its inverse, and the
  `replace(' ', '_')` of the file name.
- `answers.dfy` — the `respuestas` dict as a sequence of entries with Python
  `dict` assignment semantics (a known key keeps its position).
- `search.dfy` — the search query, the search reply (`organic` may be
  absent), the snippets, links and context taken from it.
- `pipeline.dfy` — the per-school loop: the specification `Process` (the loop
  body `Step` applied to each school in turn), the imperative `AnswerAll`
  proved equal to it, and the lemmas about what the loop produces and which
  provider calls it makes in which order.
- `docx.dfy` — `create_docx` as the element sequence it appends
  (`Heading(level, text)`, `Paragraph(text)`, `Bullet(text)`), the imperative
  `CreateDocx` proved equal to the specification `Document`, its layout and
  the fact that the document determines its inputs.
- `app.dfy` — the gate in front of the loop, the download file name and one
  whole run of the script (`Submit`).

The search provider and the language model are oracles passed in as
functions: `search: string -> Option<SearchResponse>` receives the query
string, `generate: (question, school, context) -> Option<string>` returns the
raw completion text. `None` stands for any failure of that call (network error,
non-JSON reply, a missing `output`, `choices`, `snippet` or `link` field); the
source catches none of these, so the whole submission ends with no answers and
no document, and the model says exactly that.

## Model

| member | source | states |
|---|---|---|
| `App.Decide` | app.py:170-174 | the loop runs iff the button is pressed, the question is non-empty and 1 to 5 schools are selected; more than 5 warns whether or not the button was pressed; with at most 5 nothing happens until it is pressed |
| `App.Submit` | app.py:170-207 | providers are called (at least one call) iff the gate lets the run through; each other branch shows its warning or nothing and makes no call; a run that passes makes exactly the loop's calls and shows either the crash (a call failed) or the answers with the document built from them and the file name |
| `App.AnsweredSubmission` | app.py:176-196 | for a selection a multiselect can make (distinct catalogue entries), a completed loop has exactly the selected schools as keys in selection order, the concatenated links as sources, and a document of 5 + 2·|schools| + |sources| elements |
| `App.FileNameLayout` | app.py:203 | the file name is `Respuesta_`, the question with each space replaced by `_` (same length, no space left), and `.docx`; 15 characters longer than the question |
| `App.FileNameCollision` | app.py:203 | the file name does not determine the question: "a b" and "a_b" give the same name |
| `Search.QueryLayout` | app.py:111 | the query is the question, one space, the school and " economía", in that order |
| `Search.QueryDeterminesQuestion` | app.py:111 | for a fixed school, equal queries mean equal questions |
| `Search.QueryDeterminesSchool` | app.py:111 | for a fixed question, equal queries mean equal schools |
| `Search.Snippets` | app.py:181 | one snippet per organic result, in result order; none when `organic` is absent |
| `Search.Links` | app.py:182 | one link per organic result, in result order; none when `organic` is absent |
| `Search.NoOrganicResults` | app.py:181-182 | a reply without `organic` (or with an empty one) gives the context "" and no sources, not an error |
| `Search.EmptyContext` | app.py:181 | the context is "" exactly when there are no results or one result with an empty snippet |
| `Search.ContextKeepsSnippets` | app.py:181 | when there is at least one organic result and no snippet holds a newline, splitting the context on newlines gives the snippets back in order |
| `Text.Join` | app.py:181 | `sep.join(xs)` is empty exactly for `[]` and `[""]` |
| `Text.Split` | app.py:181 | `split` gives at least one piece and no piece holds the separator |
| `Text.JoinSplit` | app.py:181 | joining the pieces of a split restores every string |
| `Text.SplitJoin` | app.py:181 | splitting a join of a non-empty list of separator-free pieces restores the pieces |
| `Text.TrimStartSpec` | app.py:137 | `lstrip` removes a whitespace prefix and leaves a suffix that does not start with whitespace |
| `Text.TrimEndSpec` | app.py:137 | `rstrip` removes a whitespace suffix and leaves a prefix that does not end with whitespace |
| `Text.StripSpec` | app.py:137 | `strip` returns a slice of its input with only whitespace cut on either side, neither starting nor ending with whitespace, empty iff the input is all whitespace |
| `Text.StripKeepsTrimmed` | app.py:137 | `strip` leaves a string with no surrounding whitespace unchanged |
| `Text.StripIdempotent` | app.py:137 | `strip` twice equals `strip` once |
| `Text.ReplaceSpaces` | app.py:203 | `replace(' ', '_')` keeps the length and changes exactly the spaces, into underscores |
| `Text.ReplaceSpacesNoSpace` | app.py:203 | after the replacement no space is left, and replacing again changes nothing |
| `Text.ReplaceSpacesFree` | app.py:203 | on a string without spaces the replacement is the identity |
| `Answers.Lookup` | app.py:192 | a school has no value exactly when it is not a key |
| `Answers.PutKeys` | app.py:187 | `respuestas[school] = answer` as a Python dict does it: a known key keeps its place, a new key goes last |
| `Answers.PutLookup` | app.py:187 | after `respuestas[school] = answer` the school maps to the answer and every other school keeps its value (or stays absent) |
| `Answers.PutKeepsDistinct` | app.py:187 | assignment never makes a key appear twice |
| `Answers.Dedup` | app.py:176-187 | the first occurrences, in order: no repetitions and the same schools as the selection |
| `Answers.DedupFirstOccurrenceOrder` | app.py:176-187 | the deduplicated schools come in increasing order of their first occurrence in the selection |
| `Answers.DedupDistinct` | app.py:168 | a selection without repetitions (what a multiselect gives) is its own deduplication |
| `Pipeline.GenerateAnswer` | app.py:120-137 | the answer fails exactly when the model call fails; a successful answer is the model's own text with only whitespace cut off at either end: a slice of it whose margins are all whitespace and which neither starts nor ends with whitespace |
| `Pipeline.FoldFailureIsFinal` | app.py:178-188 | for any outcomes of the visits, once an iteration has failed the remaining iterations change neither the bundle nor the calls |
| `Pipeline.FoldSucceedsIff` | app.py:178-188 | for any outcomes of the visits, the loop ends with a bundle iff every visit recorded an answer |
| `Pipeline.FoldKeys` | app.py:176-187 | for any outcomes of the visits, a completed loop has the distinct schools as keys, in order of first occurrence |
| `Pipeline.FoldValues` | app.py:176-187 | when a visit's answer depends only on its school, a completed loop maps every school to that answer, even for a school visited twice |
| `Pipeline.FoldSources` | app.py:176-188 | for any outcomes of the visits, a completed loop's source list is the visits' links concatenated in order |
| `Pipeline.ConcatLinksAppend` | app.py:182-188 | concatenating the links of two runs of visits is concatenating the two link lists |
| `Pipeline.FoldCalls` | app.py:178-185 | for visits that each make one or two calls, and two calls whenever the visit recorded an answer, the loop's calls are the visits' calls two by two in visit order, at most 2·n and exactly 2·n when the loop completes |
| `Pipeline.ProcessStep` | app.py:176-188 | processing one more school is one more iteration of the loop body on that school's visit |
| `Pipeline.AnswerAll` | app.py:176-188 | the loop, run in place on the dict and the list, produces exactly what the specification `Process` gives: the bundle (none after a failure) and the calls made |
| `Pipeline.FailureIsFinal` | app.py:178-188 | once a call has failed, later schools change nothing: no partial result and no further calls |
| `Pipeline.SucceedsIff` | app.py:178-188 | the loop produces a bundle iff the search and the generation succeed for every selected school |
| `Pipeline.AnswerKeys` | app.py:176-187 | after the loop the keys are the distinct selected schools in order of first selection: one entry per distinct school |
| `Pipeline.AnswerValues` | app.py:176-187 | after the loop each selected school maps to the stripped model output for the context built from that school's search |
| `Pipeline.SourcesConcatenated` | app.py:176-188 | after the loop the source list is every school's links concatenated in processing order, with no deduplication and no truncation |
| `Pipeline.AllLinksAppend` | app.py:182-188 | the source list of a selection split in two is the concatenation of the two lists (a school selected twice contributes twice) |
| `Pipeline.CallsInOrder` | app.py:178-185 | the calls come in pairs per school in selection order, the school's search first and then its generation on that search's context; at most 2·n calls, exactly 2·n when the loop completes, and at least one when a school is selected |
| `Pipeline.VisitCalls` | app.py:180-185 | one school makes its search call first, and the generate call, on that search's context, exactly when the search succeeded |
| `Docx.AnswerSection` | app.py:146-148 | two elements per dict entry in dict order: a level-2 heading "Respuesta según la corriente " + school, then the answer paragraph |
| `Docx.SourceList` | app.py:151-152 | one bullet per source, every source, in order |
| `Docx.DocumentParts` | app.py:139-156 | the document is the three opening elements, the answer section from index 3, the "Fuentes" heading, the source list and the note last |
| `Docx.AnswerAt` | app.py:146-148 | the `i`-th dict entry gives the heading at index 3 + 2i and its answer paragraph right after |
| `Docx.SourceAt` | app.py:150-152 | the `j`-th source is the bullet at index 4 + 2·|answers| + j |
| `Docx.DocumentLayout` | app.py:139-156 | the document is the level-0 title, the level-1 "Problema" heading, the question verbatim, the answer blocks, the level-1 "Fuentes" heading, the bullets and the note: 5 + 2·|answers| + |sources| elements |
| `Docx.DocumentDeterminesInputs` | app.py:139-156 | equal documents come from equal questions, answer lists and source lists |
| `Docx.CreateDocx` | app.py:139-156 | appending element by element builds exactly the specified document |

## Left out

- Streamlit rendering and widgets (page setup, columns, radio, selectbox, text input, spinner, subheader, markdown display of the answers, download button): the model takes the values the widgets deliver and returns what the page would show, not how.
- Secret loading for the two API keys: external configuration.
- The HTTP requests, JSON encoding and decoding and the provider endpoints: the providers are the oracle parameters `search` and `generate`; every failure is `None`.
- The prompt wording and the decoding parameters (model name, token cap, temperature, top_p, top_k, repetition penalty, stop sequence): inputs to a foreign service with no behaviour to check; the oracle receives the question, the school and the context the prompt is built from.
- python-docx and saving to a buffer: the document is only the element sequence.
- App.Submit: python-docx refuses text with characters XML does not allow (a typed question holding `\x0b`, say), so `create_docx` at app.py:196 can raise after the answers are already shown at app.py:191-193; the model always returns `Answered` with a document for a completed loop and does not model that crash.
- The 101-question list: static data; the question is an input. The 15 schools are kept as `App.Catalogue` for `App.FromMultiselect`.
- Pipeline.AnswerAll: the oracles are functions, so a query issued twice gets the same reply within one run; the real provider may answer differently (a multiselect never repeats a school, so this only matters for selections the page cannot make).
- What the page shows for an uncaught exception (Streamlit's error box): modelled only as `Crashed`, with no answers and no document.

The document lists every source, untruncated, as app.py:151-152 writes them, and each answer's heading is "Respuesta según la corriente " followed by the school, as app.py:147 writes it.
