# QnA conversational front-end: routing and session model

A Dafny model of `process_question` in `clock-client.py`, the only decision
logic of the Streamlit front-end. The front-end sends a question to a
conversation-analysis service, then picks one of two QnA projects (`CrewAi`
or `LangGraph`) from the detected entities. It asks the QnA service on that
project and records the reply and the exchange in the session.

- `text.dfy` (module `Text`): ASCII lower-casing and substring containment.
  These stand in for Python's `str.lower()` and `needle in haystack`.
  The module also holds an `Option` type for fields the service may omit.
- `router.dfy` (module `Router`): the project router. `Examine` is one
  iteration of the `for` loop. `Route` is the recursive specification of the
  whole scan. `RouteScan` is the loop with `break`, proved equal to `Route`.
  The lemmas state the routing rules: sticky default, first match wins,
  nothing after the first match is examined, `"crewai"` before
  `"langgraph"`, non-routing and text-less entities ignored, and results
  staying within the configured projects.
- `session.dfy` (module `Session`): the class `ChatSession` holds the four
  session fields. It has the initialisation, the turn `ProcessQuestion` and
  the example-button handler `ClickExample`. The class invariant `Valid()`
  says the selected project is one of the configured projects. Every method
  preserves it, so by induction it holds in every reachable session.

The two Azure calls are parameters of the turn. `nlu: string -> Classification`
is the conversation-analysis call on the question. It gives either
`ClassifyFail` (any exception, including a response without `topIntent`) or
`Classified(topIntent, entities)`. `qa: (string, string) -> QaResponse` is the
QnA call on the question and the project it is sent to. It gives either
`QaFail` or `Answers(answers)`. The exception handler of line 117 becomes the
returned `TurnOutcome`: `Recorded`, or `Errored` at one of three failure points.
A failure keeps the writes made before it and makes none after it:

- classification fails: nothing changes;
- an examined entity has no `category` (a `KeyError` at line 92): only
  `intent_data` changed;
- the QnA call fails: `intent_data` and `selected_project` changed, but
  `qna_reply` and the history did not.

Notes on the code's behaviour:

- `process_question` rejects no input. Empty questions are skipped only by the
  form handler (line 137), and whitespace-only questions are processed. The
  model has no empty-input no-op.
- A failure leaves a partial update, as listed above: writes made before
  the failing step are kept.
- An entity without `category` is a failure of the turn, but only when the
  scan reaches it, that is, before the first match.
- The keyword test is substring containment (`"crewai" in txt`), not
  membership in a keyword set.

## Model

| member | source | states |
|---|---|---|
| `Text.LowerChar` | clock-client.py:91-92 | the result is never an upper-case ASCII letter; characters other than A-Z are unchanged; A-Z move up by exactly 32 code points |
| `Text.ToLower` | clock-client.py:91-92 | same length as the input; every position is the lower-cased character at that position |
| `Text.ContainsToLower` | clock-client.py:91-97 | matching is case-insensitive: if the needle occurs in the text in any case, its lower-cased form occurs in the lower-cased text |
| `Text.EmptyContainsOnlyEmpty` | clock-client.py:91 | only the empty string occurs in `""`, so a missing text (read as `""`) contains neither keyword |
| `Router.SearchText` | clock-client.py:91 | the text searched is lower-case, and is `""` when the entity has no `text` |
| `Router.Examine` | clock-client.py:91-98 | a missing category, and only that, raises; a selected project is always a configured project |
| `Router.Route` | clock-client.py:88-99 | a routed project is the current one or a configured one; a changed project was selected by some entity of the list; a `KeyError` comes from some entity without a category |
| `Router.RouteScan` | clock-client.py:88-99 | the `for`/`break` loop gives exactly the outcome of `Route` |
| `Router.RouteSkipsPassed` | clock-client.py:89-92 | entities that neither match nor raise can be removed from the front of the list without changing the outcome |
| `Router.RouteStaysWithoutMatch` | clock-client.py:88-99 | sticky default: when no entity matches or raises, including an empty list, the current project stays selected |
| `Router.RouteFirstDecisive` | clock-client.py:89-98 | first match wins: the first entity that matches decides the project; one without a category reached first raises |
| `Router.RouteIgnoresTail` | clock-client.py:89-98 | entities after the first decisive one are never examined: replacing them changes nothing, even if they name the other project |
| `Router.CrewAiTakesPrecedence` | clock-client.py:93-97 | a routing entity whose text contains both `"crewai"` and `"langgraph"` selects CrewAi |
| `Router.KeywordRule` | clock-client.py:93-98 | for a routing entity: CrewAi exactly when the text contains "crewai"; LangGraph exactly when it contains "langgraph" but not "crewai"; no selection exactly when it contains neither |
| `Router.IgnoredEntities` | clock-client.py:91-92 | an entity whose category is not agent/framework/tool, or that has no text, never selects a project |
| `Router.RouteStaysConfigured` | clock-client.py:88-99 | routing from a configured project always yields a configured project |
| `Router.RoutingCategoryIgnoresCase` | clock-client.py:92 | a category is a routing category exactly when its lower-cased form is |
| `Router.FirstMatchExample` | clock-client.py:88-99 | `[tool "LangGraph stuff", agent "CrewAi thing"]` routes to LangGraph even when CrewAi is selected |
| `Session.Reply` | clock-client.py:111 | the reply is the top answer when there is one, and otherwise exactly "No se encontró una respuesta relevante." |
| `Session.Exchange` | clock-client.py:115-116 | a turn records two entries: the user's question under "Usuario", then the reply under "Asistente" |
| `Session.ChatSession.constructor` | clock-client.py:44-51 | a new session selects the first configured project and has an empty history, the waiting intent and an empty reply |
| `Session.ChatSession.ProcessQuestion` | clock-client.py:53-118 | keeps the project invariant; the history only grows at its end; for each outcome of the two service calls it states which fields changed and to what, and which did not |
| `Session.ChatSession.ClickExample` | clock-client.py:125-130 | an example button selects its project (a configured one), then runs the turn from that project: for each outcome of the two service calls it states every field, as for `ProcessQuestion`; the invariant is kept |

## Left out

- Streamlit rendering is not modelled: the title, sidebar, form, markdown,
  expander and history display (lines 120-165). The `st.error` report of
  line 118 is modelled only as the returned `TurnOutcome`.
- Azure client construction, credentials and the network calls (lines 56-82
  and 102-110) are foreign calls. They are the parameters `nlu` and `qa`.
  The QnA deployment name is configuration and is not a parameter.
- Environment loading through `dotenv` and `os.getenv` (lines 9-12) is I/O.
- The example questions themselves (lines 16-41) are static configuration.
  Only the table's two keys, `ExampleProjects`, are modelled.
- `Text.ToLower`: ASCII case folding only, not Python's full Unicode
  `str.lower()`. Non-ASCII letters keep their case.
- A `text` or `category` that is present but not a string (for example
  JSON null) is not modelled. In the source, `.lower()` on it raises
  AttributeError at line 91 or 92; line 117 catches it after `intent_data`
  was written at line 85, as with a missing category. In the model both
  fields are optional strings, so only the missing-category failure exists.
- Streamlit re-runs the script per interaction and keeps `st.session_state`
  alive between runs. The model has one `Session` object and sequential
  calls. Concurrency is not modelled.
