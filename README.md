# LEWAS Lab chatbot: chat turn handling and source formatting

This project models the logic of the LEWAS Lab chatbot's two chat pages, written in Dafny.
The pages are a Streamlit front end for a water-quality question-answering service. The
modelled parts are:

- **The source-citation formatter** (`format_sources` in `src/pages/chat.py`). Each citation
  is stripped of surrounding whitespace and then of leading `*`, `-` and space characters.
  It is then split on `" - "`. When there is more than one part, the last part becomes a
  link and the others, joined again, are the link text. Every item is wrapped in `<li>` and
  the list in `<ul>`. An empty list gives `"No sources available."`.
- **The chat turn handler of `src/pages/chat.py`**. The session holds `messages`, a list of
  `{role, content}`, and `details`, a map from message index to a details string. Each prompt
  appends a user message. The outcome of the query endpoint (parsed 200, unparseable 200, 403,
  any other status, or a transport error) becomes an assistant message, which is appended.
  The turn's details are stored under the new message's index. "Clear Chat History" empties
  both. The history view shows `details.get(i, "No details available.")` under each
  assistant message.
- **The older single-page script `src/main.py`**. It has the same status dispatch and keeps
  only the transcript. The details (query id, time, source lines with a `- ` marker on the
  first line and `* ` on the others) are shown only when the answer was parsed.

Modules:

- `Wrappers`: an `Option` type.
- `Text`: the Python string operations used: `strip`, `lstrip`, `split`, `join`,
  `find`/`rfind` and `str(n)`.
- `Transcript`: roles, messages and the alternation invariant.
- `Backend`: the endpoint outcome, the status dispatch, the defaults and the error messages
  both pages share.
- `SourceList` and `SourceListExamples`: `format_sources`.
- `ChatPage`: `src/pages/chat.py`.
- `SinglePage`: `src/main.py`.

Every state-changing operation is a method on a class (`ChatPage.ChatState`,
`SinglePage.SinglePageChat`) whose fields are the session keys. Each such method is proved
against a pure function of the old state (`ChatPage.Turn`, `Transcript.AppendExchange`), and
the lemmas about those functions carry the invariants: two messages per turn, strict
user/assistant alternation, details keyed to exactly the assistant indices, and nothing
earlier changed. The loops of the source (`format_sources`, the history display, the
enumerated source lines) are `for` loops with invariants.

The HTTP call is an input, `Backend.Outcome`:
`Response(status, body)`, where `body` is `None` when the text is not valid JSON, or
`ConnectionError(reason)`. The parsed body is a record of optional fields, one per key the
pages read. Formatting the creation time with `datetime.fromtimestamp(...).strftime(...)` is
a parameter `formatTime: int -> string`.

### Where the code and a plain reading of it differ

The formatter is naturally described as "split at the last `" - "`". The code does something
else: `source.split(" - ")` cuts at every occurrence found by a left-to-right scan that
resumes after each match. It then rejoins all parts but the last. The two give different URLs
exactly when the URL the code takes starts with `"- "`, that is, when its cut overlaps a
later occurrence; other overlaps, as in `"a - - b - c"`, leave the same URL `"c"`.
`Text.SplitCutsLeftmost` proves that the modelled split cuts where Python's does: every
part but the last ends at the first occurrence that starts in it.
`SourceList.UrlAfterLastOccurrence` relates the URL to `rfind`: the URL follows the last
occurrence unless it begins with `"- "`. In that case the last occurrence is two characters
further on. That lemma holds for a cut at the last occurrence as well, so it does not by
itself say which cut the code makes; `Text.SplitCutsLeftmost` does.
`SourceListExamples.OverlappingSeparators` shows the difference on `"a - - b"`. The code
links `"- b"` with text `"a"`, while a cut at the last occurrence (index 3) would link
`"b"`. The model follows the code.

## Model

| member | source | states |
|---|---|---|
| Text.LStrip | src/pages/chat.py:18 | `lstrip(chars)` removes exactly the longest prefix made of `chars`: the result is a suffix, everything removed is in `chars`, and the result does not start with one of them |
| Text.RStrip | src/pages/chat.py:18 | the mirror image for the end of the string |
| Text.Strip | src/pages/chat.py:18 | `strip()` leaves neither end on a whitespace character and is empty exactly when the input is all whitespace |
| Text.StripKeepsMiddle | src/pages/chat.py:18 | `strip()` returns a slice of the input, and everything before and after that slice is whitespace |
| Text.FindFrom | src/pages/chat.py:21 | the scan `split` performs: the first occurrence of the separator at or after a position, or none at all |
| Text.SplitFrom | src/pages/chat.py:21 | splitting from a position: at least one part, no part contains the separator, one part exactly when no occurrence is found from that position |
| Text.JoinSplitFrom | src/pages/chat.py:21 | joining the parts of a split from a position with the separator gives the rest of the string back |
| Text.SplitFromCutsLeftmost | src/pages/chat.py:21 | every cut of a split from a position is at the first occurrence that starts in the part before it |
| Text.Split | src/pages/chat.py:21 | `split(" - ")`: `" - ".join(parts) == s`, no part contains `" - "`, and there is more than one part exactly when `s` contains `" - "` |
| Text.SplitCutsLeftmost | src/pages/chat.py:21 | `split(" - ")` cuts left to right: each part but the last, followed by `" - "`, has its first occurrence of `" - "` exactly at its end |
| Text.Join | src/pages/chat.py:23 | `sep.join(parts)`: an empty list joins to the empty string; `Text.JoinLength`, `Text.JoinLast` and `Text.JoinSplitFrom` state the rest |
| Text.JoinLength | src/pages/chat.py:23 | a join is as long as all the parts together and one separator fewer than there are parts |
| Text.JoinLast | src/pages/chat.py:23-24 | joining all parts equals joining all but the last, the separator, then the last part |
| Text.Decimal | src/pages/chat.py:126 | `str(status_code)`: non-empty, digits only, no leading zero |
| Text.ParseDecimalOfDecimal | src/pages/chat.py:126 | reading the rendered digits back gives the status code |
| Text.DecimalInjective | src/pages/chat.py:125-127 | two status codes render the same only when they are equal |
| Transcript.AppendExchange | src/pages/chat.py:73-139 | a turn grows the transcript by two, the user message then the assistant message, keeps every earlier message, and preserves alternation |
| Backend.StatusFailure | src/pages/chat.py:125-127 | `f"Error: Received status code {status_code}"` starts with the fixed prefix, followed by at least one character |
| Backend.StatusFailureCode | src/pages/chat.py:125-127 | the characters after the prefix are decimal digits that read back as the status code |
| Backend.Interpret | src/pages/chat.py:93-134 | the status dispatch gives an answer exactly for a parsed 200, and every failure message starts with `"Error: "` |
| Backend.InterpretCases | src/pages/chat.py:93-134 | an answer exactly for a parsed 200; 403, any other status N, an unparseable body and a transport error each give their literal message (`"Error: Received status code " + str(N)` for N); missing keys take `"Sorry, I couldn't process that request."`, `"N/A"`, `0` and `[]`; present `answer_text`, `query_id`, `create_time` and `sources` are passed through |
| Backend.FailureMessageDeterminesCause | src/pages/chat.py:93-134 | equal failure messages come from the same failure: the same status code or the same transport error text |
| SourceList.Clean | src/pages/chat.py:18 | a cleaned source never starts with `*`, `-` or a space, never ends with whitespace, and is no longer than the raw one |
| SourceList.CleanRemovesLeadingBullets | src/pages/chat.py:18 | the cleaned source is a suffix of the stripped source, and everything removed from its front is `*`, `-` or a space |
| SourceList.LinkText | src/pages/chat.py:21-23 | with a `" - "` in the source, link text + `" - "` + URL gives the cleaned source back; without one the link text is empty |
| SourceList.Url | src/pages/chat.py:24 | the URL part never contains `" - "` |
| SourceList.Anchor | src/pages/chat.py:26 | the link markup starts with the link text and ends with the URL as the label, then `</a>`; its length is the text's, twice the URL's and 34 |
| SourceList.ItemBody | src/pages/chat.py:21-28 | a source without `" - "` is kept verbatim; one with it becomes longer markup |
| SourceList.Item | src/pages/chat.py:17-31 | one source's list item starts with `<li>` and ends with `</li>` |
| SourceList.ItemWrapsBody | src/pages/chat.py:31 | what lies between `<li>` and `</li>` is exactly the formatted source |
| SourceList.Items | src/pages/chat.py:15-31 | the `formatted_sources` list: one item per source, item k built from source k |
| SourceList.FormattedSources | src/pages/chat.py:11-33 | an empty list gives `"No sources available."`; any other list gives text starting with `<ul>` and ending with `</ul>` |
| SourceList.FormatSources | src/pages/chat.py:11-33 | the loop builds exactly the placeholder or `"<ul>"`, the items in input order, `"</ul>"` |
| SourceList.FormatItem | src/pages/chat.py:17-31 | the loop body builds the item of one source |
| SourceList.PlaceholderOnlyForEmpty | src/pages/chat.py:12-13 | the output is `"No sources available."` exactly for an empty list; otherwise it starts with `<ul>` and ends with `</ul>` |
| SourceList.PlainItem | src/pages/chat.py:21-28 | a cleaned source is emitted verbatim exactly when it holds no `" - "` |
| SourceList.LinkedItem | src/pages/chat.py:21-26 | with a `" - "`, text + `" - "` + URL is the cleaned source, the URL holds no `" - "`, and the item is the anchor markup around the URL |
| SourceList.UrlAfterLastOccurrence | src/pages/chat.py:20-24 | the split's URL follows the last `" - "` unless it starts with `"- "`, in which case the last occurrence is two characters later |
| SourceList.NoOccurrenceInsideUrl | src/pages/chat.py:21-24 | after text + `" - "` + URL with no separator in the URL, no occurrence starts more than two characters past the cut |
| SourceList.OccurrenceOverlapping | src/pages/chat.py:21-24 | one character past the cut there is never an occurrence; two past it there is one exactly when the URL starts with `"- "` |
| SourceListExamples.CleanKeeps | src/pages/chat.py:18 | a source with nothing to strip at either end is kept unchanged |
| SourceListExamples.ShortIsPlain | src/pages/chat.py:22-28 | a source shorter than the separator is emitted verbatim |
| SourceListExamples.FormattedPair | src/pages/chat.py:31-33 | two sources give `"<ul>"`, both items in order, `"</ul>"` |
| SourceListExamples.LinkedAndPlainCitations | src/pages/chat.py:11-33 | `["A - http://x", "B"]` gives a link to `http://x` with text `A`, then `B` verbatim |
| SourceListExamples.OverlappingSeparators | src/pages/chat.py:21-26 | `"a - - b"` links `"- b"` with text `"a"`, while the last `" - "` is at index 3 |
| ChatPage.DetailsHtml | src/pages/chat.py:112-117 | the details block ends with the formatted source list and is never the placeholder |
| ChatPage.ReplyFor | src/pages/chat.py:93-134 | the details of a turn are `"No details available."` exactly when the status dispatch failed |
| ChatPage.DetailsHtmlShape | src/pages/chat.py:112-117 | the details of an answered turn name the query id, hold the formatted source list and are not the placeholder |
| ChatPage.ReplyDetails | src/pages/chat.py:93-134 | the stored details are `"No details available."` exactly when the answer was not parsed; a failure shows its error message; an answer shows its text and details holding the query id and the formatted sources |
| ChatPage.Turn | src/pages/chat.py:73-144 | a turn grows the transcript by two messages and keeps every earlier message |
| ChatPage.AppendPreservesWellFormed | src/pages/chat.py:137-144 | appending an exchange and storing details under `len(messages) - 1` keeps alternation and "details exactly at assistant indices" |
| ChatPage.TurnPreservesWellFormed | src/pages/chat.py:137-144 | a turn keeps alternation and "details exactly at assistant indices", keeps every earlier message and details entry, and stores the new details at `len(messages) - 1` |
| ChatPage.ShownDetails | src/pages/chat.py:66 | `details.get(i, "No details available.")` is either the fallback or one of the stored details |
| ChatPage.ShownDetailsAreStored | src/pages/chat.py:62-68 | in a well-formed session every assistant message has its details entry, so the fallback is never shown |
| ChatPage.RunShape | src/pages/chat.py:71-144 | after N prompts: 2N messages alternating user/assistant, turn k's prompt at 2k, its reply at 2k+1 and its details shown under 2k+1 |
| ChatPage.TurnExtends | src/pages/chat.py:71-144 | one more prompt turns a session holding N turns into one holding those N turns and the new one |
| ChatPage.EarlierTurn | src/pages/chat.py:137-144 | a turn leaves every earlier message and the details shown under it unchanged |
| ChatPage.NewTurn | src/pages/chat.py:73-144 | a turn puts its prompt at index N, its reply at N+1 and shows its own details under N+1 |
| ChatPage.Respond | src/pages/chat.py:81-134 | the request block assigns the reply and details that the status dispatch prescribes |
| ChatPage.ChatState.constructor | src/pages/chat.py:56-59 | a new session starts with no messages and no details |
| ChatPage.ChatState.Submit | src/pages/chat.py:71-144 | the session after a prompt is exactly one turn applied to the old session, and stays well formed |
| ChatPage.ChatState.ClearHistory | src/pages/chat.py:169-171 | clearing empties both the messages and the details |
| ChatPage.ChatState.Render | src/pages/chat.py:62-68 | the history shows every message in order, with `details.get(i, "No details available.")` under assistant messages |
| SinglePage.InfoMarkdown | src/main.py:73-81 | the details start with the `**Query ID:**` heading followed by the query id |
| SinglePage.ResultFor | src/main.py:54-96 | the details are empty exactly when the status dispatch failed, and then there are no sources |
| SinglePage.DetailsOnlyWhenParsed | src/main.py:54-101 | details are non-empty exactly for a parsed 200; every other branch gives its error message, empty details and no sources; an answer keeps its text and sources |
| SinglePage.Marker | src/main.py:104-108 | the marker of source line i is two characters ending in a space, `-` exactly for the first line and `*` for every later one |
| SinglePage.Expander | src/main.py:101-109 | nothing is shown for empty details; otherwise the details, then source i prefixed by its marker, in order, then `"---"` |
| SinglePage.ExpanderLines | src/main.py:101-109 | the loop writes exactly the expander lines: the details, the marked sources in order, `"---"` |
| SinglePage.Respond | src/main.py:41-96 | the request block assigns the reply, details and sources the status dispatch prescribes |
| SinglePage.RunShape | src/main.py:31-114 | after N prompts: 2N messages alternating user/assistant, turn k's prompt at 2k and its reply at 2k+1 |
| SinglePage.SinglePageChat.constructor | src/main.py:21-23 | a new session starts with no messages |
| SinglePage.SinglePageChat.Submit | src/main.py:31-114 | a prompt appends the user message and then the assistant message, keeps alternation, and shows exactly the expander lines of this turn's result, which are non-empty only for a parsed answer |
| SinglePage.SinglePageChat.ClearHistory | src/main.py:130-131 | clearing empties the transcript |

## Left out

- `src/Home.py` is not part of this model. Sign-up, confirmation, login and password reset only pass calls through to the identity provider's SDK, whose behaviour is not visible here.
- The authentication gate and logout (`src/pages/chat.py:40-43`, `175-178`) are a flag the UI framework toggles. An unauthenticated session never reaches the turn handler.
- The HTTP request itself is not modelled: URL, headers, API key and the 30-second timeout. Only its outcome is an input.
- `datetime.fromtimestamp(...).strftime(...)` depends on the time zone and the library, so it is the parameter `formatTime`.
- The model assumes `datetime.fromtimestamp` succeeds: `formatTime` is total. In the source it raises on `NaN`, `Infinity` and `-Infinity` (which Python's JSON parser accepts) and on timestamps outside the platform's date range, such as the millisecond timestamp `1700000000000`. That exception is not a `requests.RequestException`, so the turn stops after the user message (`src/pages/chat.py:73`, `src/main.py:35`) with no assistant message and no details entry. `ChatPage.RunShape`, `SinglePage.RunShape` and the well-formedness of the session hold only for turns whose time formats.
- The whitespace, line breaks and indentation of the details templates are not modelled (`ChatPage.DetailsHtml`, `SinglePage.InfoMarkdown`). Only the text they embed is.
- All rendering and control flow of the UI framework is left out: chat bubbles, spinner, expander widgets, sidebar, footer, reruns and page configuration. `ChatPage.ChatState.Render` and `SinglePage.ExpanderLines` only model what is shown, as values.
- The history display loop of `src/main.py` (lines 25-28) only renders each message and is not modelled.
- The model's body is a typed record, so a JSON body of another shape is not modelled. Some such bodies make the source raise an uncaught exception, which leaves the user message without an assistant reply: a body that is not a JSON object (`.get` fails), a `create_time` that is null or not a number (`fromtimestamp` fails), a `sources` list holding a non-string (`.strip` fails in `src/pages/chat.py`), and a null `sources` in `src/main.py` (`enumerate(None)` fails).
- Other wrongly typed keys do not raise and are not modelled either: a null `sources` in `src/pages/chat.py` gives `"No sources available."`, a string `sources` is treated as a list of its characters, a non-string `query_id` is rendered by the f-string, and a finite, in-range floating-point `create_time` is accepted (the model's `createTime` is an integer).
- Status codes are natural numbers, as an HTTP status line gives them.
- `str.strip()` is modelled with the fixed set of characters for which Python's `str.isspace()` holds. No other Unicode handling is involved.
