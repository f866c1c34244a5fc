# qradar2telegram in Dafny

qradar2telegram is a small script. It fetches the open offenses from a QRadar
SIEM. It formats each offense it has not announced before as a Markdown alert
and posts the alert to a Telegram chat. It keeps the ids of the offenses it has
handled in a JSON cache file, so that a later run does not announce them again.

This project models the part of the script that can be stated precisely:

- `Orchestrator`: the notify-once run loop of the `__main__` block, as a
  method with a loop and invariants (`RunLoop`). It is specified by the
  function `Pending`: the fetched offenses whose id is neither cached nor
  carried by an earlier offense of the same list, in fetch order. `Run` is
  the whole block: load the cache, take the fetched list, run the loop, save.
  Lemmas about `Pending` state the dedup guarantees. The cache only grows.
  A cached id is never posted. Each id is posted at most once. Posts follow
  fetch order, taking the first occurrence of each id. A second run over the
  same list posts nothing.
- `Formatter`: `create_offense_for_telegram`, minus the clock. The offense is
  a record whose optional keys are `Option`s. The message is eight labelled
  lines in a fixed order, joined by newlines. `StripEscapes` is the
  `replace("\\n", "")` on the description. `OffenseUrl` is the deep link.
- `Offenses`: the offense record as the SIEM returns it, shared by the
  formatter and the run loop.
- `Severity`: `get_severity_appearance`, a six-cell bar with five tiers.
- `Decimal`: the decimal text Python prints for an integer id, with the parse
  that reads it back (used to show that the deep link identifies the offense).
- `NotifyCache`: `load_cache` and `save_cache`, reduced to the conversion
  between the list on disk and the set in memory.

The external calls are parameters:

- The SIEM response is an `Option<seq<Offense>>`. `None` is a failed request,
  which the script turns into an empty list.
- The Telegram request is `sink: string -> bool`. Each call is recorded in the
  log as a `Post` with the id, the text and the outcome. The run ignores the
  outcome.
- The conversion of the start time to local date-time text is
  `showTime: int -> string`.
- The console base URL (`SIEM_URL`) is the `siemUrl` parameter.

Three behaviours of the code are easy to misread:

- The id is cached whether or not the post succeeded. `RunLoop` states the
  final cache as `cache0 + IdSet(offenses)`. That statement does not mention
  `sink`, so it holds for a sink that always fails.
- The pattern `"\\n"` sits inside an f-string replacement field
  (qradar2telegram.py:63). Python accepts that only from version 3.12 on, and
  the model reads it as 3.12 does: a backslash followed by `n`.
- `replace` makes a single left-to-right pass. It removes every escaped
  newline (backslash then `n`) that the input holds (`StripSplits`). But the
  output can hold a new one, made from a backslash and an `n` that the
  removal brought together. For example, `\\nn` becomes `\n`
  (`StripCanLeaveEscape`). So "the message has no literal `\n`" is not a
  property of the code, and the model does not claim it.

## Model

| member | source | states |
|---|---|---|
| `Orchestrator.RunLoop` | qradar2telegram.py:90-95 | The final cache is the initial cache united with every fetched id, whatever the sink answered. The log is the attempt for each `Pending` offense, in order. No logged id was in the initial cache. No id is logged twice. The logged ids are exactly the fetched ids that were not cached. |
| `Orchestrator.Pending` | qradar2telegram.py:90-91 | The offenses a run posts, defined per fetched offense: it is posted when its id is neither cached nor carried by an earlier offense. There are never more posts than fetched offenses. |
| `Orchestrator.LoopStep` | qradar2telegram.py:91-95 | One iteration: the offense's id joins the cache. A post is appended exactly when the id was neither in the initial cache nor carried by an earlier offense. |
| `Orchestrator.AttemptsDedup` | qradar2telegram.py:91-95 | The log of posts for `Pending` never names a cached id, never names an id twice, and names every fetched id that was not cached. |
| `Orchestrator.PendingFresh` | qradar2telegram.py:91 | Every posted offense is a fetched one whose id was not in the cache at the start. |
| `Orchestrator.PendingDistinct` | qradar2telegram.py:91-95 | No id is posted twice in one run, even when the fetch returns it twice. The add on line 95 comes before the next check on line 91. |
| `Orchestrator.PendingIds` | qradar2telegram.py:90-95 | The ids posted are exactly the fetched ids minus the initial cache. |
| `Orchestrator.PendingSelects` | qradar2telegram.py:90-94 | The posts are, in fetch order and without re-sorting, the offenses at the positions that are first to carry a not-yet-cached id. Every such position is posted. |
| `Orchestrator.PendingEmpty` | qradar2telegram.py:90-95 | A run posts nothing if and only if every fetched id is already cached. |
| `Orchestrator.PendingAppend` | qradar2telegram.py:90-95 | A run over `os1 + os2` posts what a run over `os1` posts, then what a run over `os2` posts from the cache the first part left. |
| `Orchestrator.Rerun` | qradar2telegram.py:86-97 | Idempotence. After a run over `os`, whose final cache is `cache0 + IdSet(os)` by `RunLoop`, a rerun over `os` posts nothing. A rerun over `os + more` posts only what `more` brings. |
| `Orchestrator.Fetched` | qradar2telegram.py:41-43 | A failed fetch gives the run an empty offense list. A successful one gives the returned list. |
| `Orchestrator.Run` | qradar2telegram.py:85-97 | The saved list loads back as the loaded cache united with the fetched ids. The posts are those of `RunLoop` with the real formatter. A failed fetch posts nothing and saves a list that loads back as the cache it started with. |
| `NotifyCache.Load` | qradar2telegram.py:72-78 | A missing file gives the empty set. An existing file gives exactly the ids it lists. |
| `NotifyCache.Save` | qradar2telegram.py:80-83 | The saved list holds each id of the set once, in some order, and loading it gives the same set back. |
| `Severity.Bar` | qradar2telegram.py:45-55 | The bar always has six cells. |
| `Severity.BarShape` | qradar2telegram.py:45-55 | The number of coloured cells equals an arithmetic reference count. The coloured cells come first and all have the tier colour. The rest are blank. |
| `Severity.FillTiers` | qradar2telegram.py:47-55 | The fill is 2 cells for severity up to 2, 3 up to 4, 4 up to 6, 5 up to 8 and 6 above 8. Each boundary belongs to the lower tier. Each case holds in both directions. |
| `Severity.FillMonotone` | qradar2telegram.py:45-55 | A higher severity never shows fewer coloured cells. |
| `Severity.Glyph` | qradar2telegram.py:48-55 | A coloured cell is one character. The blank cell is two: a white square and the emoji variation selector. |
| `Severity.BarText` | qradar2telegram.py:45-55 | The bar's text is the tier colour's square repeated as many times as the fill count, then the blank square for each remaining cell of the six. The fill count is `ExpectedFill`, pinned per tier by `FillTiers`; the characters of each square are stated by `Glyph`. |
| `Severity.CellsTextLength` | qradar2telegram.py:48-55 | The text of a row of cells has one character per coloured cell and two per blank cell. |
| `Formatter.StripEscapes` | qradar2telegram.py:63 | Sanitising never lengthens the description and never adds a character it did not have. |
| `Formatter.StripWithoutEscape` | qradar2telegram.py:63 | A description without an escaped newline is kept as it is. |
| `Formatter.StripSplits` | qradar2telegram.py:63 | Each escaped newline is cut out. The text on either side is kept, each part sanitised on its own. |
| `Formatter.StripCanLeaveEscape` | qradar2telegram.py:63 | The single pass can create an escaped newline: backslash, backslash, `n`, `n` becomes backslash, `n`. |
| `Formatter.OffenseUrl` | qradar2telegram.py:60 | The deep link is exactly three parts: the console base URL, then the fixed summary path ending in `summaryId=`, then the id's decimal text. |
| `Formatter.Format` | qradar2telegram.py:63-70 | The message has eight lines in the fixed order: id and description, time, category, offense source, source network, destination networks, severity, URL. Every line's value is stated: the first by `FormatHeadline`, the time and severity by `FormatValues`, the four optional keys by `FormatDefaults`, the URL by `FormatLink`. |
| `Formatter.FormatDefaults` | qradar2telegram.py:65-68 | An absent category, offense source, source network or destination networks shows as `N/A`. A present one shows its own text. |
| `Formatter.FormatValues` | qradar2telegram.py:59-69 | The Time line shows the converted start time. The Severity line shows the offense's bar: the tier colour's square as many times as the fill count, then blank squares up to six cells. |
| `Formatter.FormatHeadline` | qradar2telegram.py:63 | The first line reads back as the offense id, then ` - `, then the description with each escaped newline cut out. |
| `Formatter.FormatLink` | qradar2telegram.py:60-70 | The URL line is `[click here](…)` around the deep link. The link's tail after `summaryId=` reads back as the offense id. Two offenses get the same URL line exactly when they share an id. |
| `Formatter.Message` | qradar2telegram.py:57-70 | The text sent opens with the bold id label, a space, the id's decimal text and ` - `. It closes with `(`, the deep link and `)`. Its full line structure is stated by `MessageLines`. |
| `Formatter.Render` | qradar2telegram.py:63-70 | Joining the lines with newlines gives a text that opens with the first line and closes with the last one. |
| `Formatter.Label` | qradar2telegram.py:63-70 | Every label is bold Markdown: it is non-empty and opens with `*`. |
| `Formatter.MessageLines` | qradar2telegram.py:63-70 | When no input text holds a newline character, the sent text splits into exactly eight lines in field order. Each line is its label, a space and its value. |
| `Formatter.SplitJoin` | qradar2telegram.py:63-70 | Joining newline-free lines with newlines and splitting the result gives the lines back. |
| `Decimal.IdText` | qradar2telegram.py:60 | The id's text is non-empty. It starts with a digit exactly when the id is not negative. Its characters are digits or a minus sign. |
| `Decimal.ParseIdText` | qradar2telegram.py:60 | The decimal text of an id parses back to that id. |
| `Decimal.IdTextInjective` | qradar2telegram.py:60 | Distinct ids have distinct texts. |

## Left out

- HTTP requests to the SIEM and to Telegram (qradar2telegram.py:20-43). They are parameters of the model: the fetch result and the `sink` function. Only their failure results matter here: an empty list from the fetch, `None` from the post. Headers, query parameters, TLS and timeouts are not modelled.
- Loading the environment and checking the configuration (qradar2telegram.py:8-18). This is process state; the console base URL is a parameter.
- The conversion of `start_time` from epoch milliseconds to local time (qradar2telegram.py:59). It uses float division and the host time zone, so it is the `showTime` parameter.
- JSON reading and writing in `load_cache`/`save_cache` (qradar2telegram.py:72-83). The file is `Option<seq<Id>>`, with `None` for a missing file. A corrupt file, which makes `json.load` raise, is not modelled.
- The unused local `source` (qradar2telegram.py:61). It has no effect on the output.
- How Python prints a present optional field: a list such as `categories` prints as its `repr`. The model takes that text as given, as the string inside `Some`. A key present with a JSON `null` value prints as `None`, which the model folds into that string too.
- Offense records that lack `id`, `description`, `start_time` or `severity`, or whose description is not a string. The script raises on them and stops before `save_cache`. In the model these fields are mandatory and typed.
- Telegram's Markdown rendering and URL-encoding of the text. The message is passed to the sink as it is built; the script does not encode it. Because the script puts the raw text into the query string (qradar2telegram.py:22), Telegram receives it only up to the first `&`: at the latest the one after `appName=Sem` inside the deep link. `FormatLink`, `Message` and `MessageLines` describe the text the script builds, not the text the chat shows.
- The console output of `print`.
- Orchestrator.RunLoop: takes the formatter as a parameter `format`. `Run` binds it to `Formatter.Message`. This keeps the loop's proof about dedup alone. The properties of the text posted are stated on `Formatter`.
