# openai-status-tracker in Dafny

A model of the core of the status-page tracker, with proofs of its properties. The tracker polls Atom and RSS status feeds and reports new and updated incidents. Three parts are modelled.

- **The embedded-HTML extractor of the feed parser** (`Html`, `Components`). Each of the parser's regular expressions is modelled by the match Python's `re` engine picks:
  - the leftmost start position;
  - a greedy `\s*` that gives characters back when it has to;
  - a lazy `(.+?)` that takes as few characters as it can;
  - `.` matching no newline unless the pattern is DOTALL;
  - case-insensitive matching on ASCII letters.

  Each search of `_STATUS_RE`, `_COMPONENT_RE` and `_COMPONENT_SPLIT_RE` is stated twice: as a function that computes the match, and as a predicate that says which spans match. A lemma ties the two together. The tag substitution of `_HTML_TAG_RE` is stated span by span instead: `Html.ReplaceTagsSpan` says a `<[^>]+>` span becomes one space, and `Html.ReplaceTagsPlain` says text without `<` is copied.
- **Field selection of the Atom and RSS parsers, and `parse_feed` dispatch** (`Feed`). The XML library's parsed tree is abstracted: each entry or item is a record of its child elements. A child is absent, or present with optional text.
- **The value types and the per-provider state machine `FeedMonitor`** (`Models`, `Backoff`, `Monitor`, `MonitorLemmas`).
  - `MonitorState` and `PollSpec` give the meaning of one call of `_poll`.
  - `StepSpec` gives the meaning of one turn of the `start` loop.
  - The class `Monitor.FeedMonitor` performs both step by step on its own fields, and is proved to agree with them.
  - The HTTP exchange is a parameter: a function from the request headers to a response or a network failure.
  - The XML parser is a parameter: a function from the body to the parsed tree.
  - What the notifier is asked to print is kept as a log of events.

Modules:

| module | contents |
|---|---|
| `Wrappers` | `Option` and `Result` |
| `Text` | ASCII text helpers with Python's semantics:<br>• `str.isspace()` (space, `\t \n \v \f \r` and 0x1C–0x1F);<br>• `str.lower()`;<br>• `str.strip()`;<br>• `str.split()`;<br>• `str.join()`. |
| `Models` | `Component`, `Incident`, `__str__`, `product_names`, and the fingerprint of `_incident_hash` |
| `Html` | `_strip_html`, `_parse_status` and `_parse_summary_text` |
| `Components` | `_parse_components`: the `<li>` scan, the de-duplication and the component split |
| `Feed` | `_get_text`, `parse_atom_feed`, `parse_rss_feed` and `parse_feed` |
| `Backoff` | `_backoff_delay` |
| `Monitor` | the `FeedMonitor` class, and the functions that specify it |
| `MonitorLemmas` | properties of one poll, of the diff and of whole runs |

Hashes are represented by their input text:
- the body text stands for its SHA-256 digest;
- the fingerprint text `status|summary|product_names` stands for its MD5 digest.

Both hash functions are taken to be injective.

Where the code and its written description differ, the model follows the code:
- `raise_for_status` raises only for status 400 and above. Any other status except 304 goes on to read the body, including 1xx and other 3xx codes.
- `_last_hash` is stored before the body is parsed (tracker/monitor.py:135, then :138). So a body that fails to parse is not parsed again when it is served a second time. `MonitorLemmas.MalformedBodySkippedAfter` proves this.
- `_first_run` is cleared before the incidents are seeded.
- Each id and fingerprint is stored before the counter is incremented.
- `_strip_html` can leave a `<` or a `>` that is not part of a tag, as in `a < b`. `Html.NoTag` states exactly what is left, and `Html.StripHtml` ensures it of the returned text.
- A status can be empty: `<b>Status:<i></i></b>` gives `""`.
- A 304 response returns (tracker/monitor.py:115-116) before the `ETag` and `Last-Modified` headers are read (:124-127), so it never refreshes the stored tokens. `MonitorLemmas.NotModifiedKeepsState` proves this.
- The new tokens are stored before the body is parsed, like `_last_hash`. So a malformed body still leaves the new tokens in place. `MonitorLemmas.HashStoredBeforeParse` proves this.

## Model

| member | source | states |
|---|---|---|
| Text.LowerString | tracker/feed_parser.py:195 | `str.lower()` on ASCII keeps the length and lower-cases each letter in place |
| Text.CollapseIsCollapsed | tracker/feed_parser.py:38 | `" ".join(s.split())` has no leading or trailing whitespace and no two adjacent whitespace characters; it is empty exactly when `s` is all whitespace |
| Text.TrimCollapsed | tracker/feed_parser.py:38 | the final `.strip()` changes nothing once the whitespace is normalised |
| Text.CollapseFixed | tracker/feed_parser.py:38 | normalised text is a fixed point of `" ".join(s.split())` |
| Html.CollapseKeepsChars | tracker/feed_parser.py:38 | every non-whitespace character of `" ".join(s.split())` occurs in `s` |
| Models.ComponentString | tracker/models.py:22-23 | `str(Component)` is the name when the status is empty, and `name (status)` otherwise |
| Models.ProductNames | tracker/models.py:51-56 | `"N/A"` without components; otherwise the component names in list order, joined by `", "` |
| Models.SplitJoinNames | tracker/models.py:56 | splitting the joined names at `", "` gives back the names, when no name contains a comma |
| Models.ProductNamesDetermineNames | tracker/models.py:51-56 | two non-empty component lists with comma-free names and the same product-names text have the same names |
| Models.FingerprintInjective | tracker/monitor.py:194-201 | equal fingerprints mean equal status, summary and product names, when neither the status nor the summary contains `\|` |
| Models.StatusChangeChangesFingerprint | tracker/monitor.py:200 | changing only the status always changes the fingerprint |
| Html.ReplaceTagsNoTag | tracker/feed_parser.py:32-37 | after the tag substitution no `<`, non-`>` characters, `>` span is left |
| Html.ReplaceTagsIdentity | tracker/feed_parser.py:37 | text without `<` passes the substitution unchanged |
| Html.StripHtml | tracker/feed_parser.py:35-38 | the result has no leading or trailing whitespace, every whitespace character in it is a single space, and no two are adjacent; it holds no `<[^>]+>` span |
| Html.CollapseNoTag | tracker/feed_parser.py:38 | `" ".join(s.split())` of a text without a tag span has no tag span either |
| Html.StripHtmlIdentity | tracker/feed_parser.py:35-38 | text without `<` and with normalised whitespace is returned unchanged |
| Html.StripHtmlEmptyIff | tracker/feed_parser.py:35-38 | the result is empty exactly when the text left after the tag substitution is all whitespace |
| Html.StripHtmlEmpty | tests/test_feed_parser.py:99-100 | `_strip_html("")` is `""` |
| Html.ReplaceTagsSpan | tracker/feed_parser.py:32-37 | a `<`, then one or more non-`>` characters, then `>` is replaced by a single space and the scan goes on after the `>` |
| Html.ReplaceTagsPlain | tracker/feed_parser.py:37 | a stretch of text without `<` is copied unchanged and the scan goes on after it |
| HtmlExamples.ReplaceTagsSuffix | tracker/feed_parser.py:37 | the substitution from a position depends only on the text from that position on |
| HtmlExamples.StripHtmlTwoTags | tracker/feed_parser.py:35-38 | two words each wrapped in a tag, with one space between the tags, come out as the two words joined by one space |
| HtmlExamples.TwoTagsExample | tests/test_feed_parser.py:94 | the shape of two tagged words covers the test's input `<b>Hello</b> <i>World</i>` |
| HtmlExamples.StripHtmlExample | tests/test_feed_parser.py:93-94 | `_strip_html("<b>Hello</b> <i>World</i>")` is `"Hello World"` |
| Html.LazyStatusGroup | tracker/feed_parser.py:29 | the lazy group is the shortest length that completes a match with `</b>`, and there is none when no length does; a newline stops it |
| Html.StatusWidths | tracker/feed_parser.py:29 | backtracking the greedy `\s*` finds the widest whitespace run that admits a match, and the shortest group for it |
| Html.StatusAt | tracker/feed_parser.py:29 | at one start index: the match with the widest `\s*` and then the shortest group, or no match at all |
| Html.FindStatus | tracker/feed_parser.py:41-43 | `re.search` returns the leftmost match with the widest `\s*` and the shortest group, or none when no index matches |
| Html.FirstStatusMatchUnique | tracker/feed_parser.py:29 | only one match meets that description |
| Html.ParseStatus | tracker/feed_parser.py:41-46 | `"Unknown"` when no status marker matches anywhere; otherwise the stripped and trimmed group of the first match |
| Html.RemoveMarkers | tracker/feed_parser.py:80 | `_STATUS_RE.sub("", ...)` leaves text without a marker unchanged and deletes at least one marker's length when there is a match |
| Html.RemoveMarkersSpan | tracker/feed_parser.py:80 | the substitution deletes exactly the leftmost marker the engine reports: the text before it is kept and the scan resumes after its `</b>` |
| Html.RemoveOneMarker | tracker/feed_parser.py:80 | a text with a single marker keeps everything before and after that marker |
| Html.SummarySource | tracker/feed_parser.py:80-84 | the cut text is a prefix of the marker-free text, contains no `<b>affected components</b>` in any case, and stops either at the end or at the first occurrence |
| Html.ParseSummary | tracker/feed_parser.py:74-85 | the summary is whitespace-normalised, and it is `_strip_html` of the marker-free text cut at the first affected-components marker (the final `.strip()` changes nothing) |
| Html.SummaryOfPlainText | tracker/feed_parser.py:74-85 | with neither a status marker nor an affected-components marker, the summary is `_strip_html` of the input |
| Components.ItemAt | tracker/feed_parser.py:30 | at one start index: the shortest `<li>...</li>` group, which may cross newlines, or none |
| Components.FindItem | tracker/feed_parser.py:30 | the next match is the leftmost one, with the shortest group |
| Components.ItemGroups | tracker/feed_parser.py:59 | `finditer` yields no group exactly when nothing matches, and every group is non-empty |
| Components.FirstItemGroup | tracker/feed_parser.py:59-60 | the first group `finditer` yields is the group of the leftmost, shortest match |
| Components.DistinctNoDuplicates | tracker/feed_parser.py:56-63 | the kept item texts are non-empty and pairwise different |
| Components.DistinctMembers | tracker/feed_parser.py:61-63 | a text is kept exactly when it occurs among the stripped items and is non-empty |
| Components.DistinctOfDistinct | tracker/feed_parser.py:61-63 | texts that are already non-empty and pairwise different are all kept, in order |
| Components.DistinctRepeat | tests/test_feed_parser.py:135-138 | an item repeated right after itself adds nothing |
| Components.DistinctLength | tracker/feed_parser.py:56-63 | no more texts are kept than there are items |
| Components.DistinctFirstOccurrenceOrder | tracker/feed_parser.py:56-63 | the kept texts appear in the order of their first occurrence among the items |
| Components.SplitWidthsUnique | tracker/feed_parser.py:31 | once the name length is fixed, the widths of `\s*` and of `[^)]+` are forced |
| Components.SplitWith | tracker/feed_parser.py:31 | with a given name length the split either matches, with those forced widths, or cannot match at all |
| Components.SplitWithNone | tracker/feed_parser.py:31 | in any match, `\s*` reaches the `(` and `[^)]+` reaches the first `)` after it |
| Components.FindSplit | tracker/feed_parser.py:31 | the lazy name group is the shortest length that admits a match, and a newline stops it |
| Components.SplitComponent | tracker/feed_parser.py:65-69 | a text starting with a non-space character has a non-empty name; without a match, the component is the whole text with an empty status |
| Components.SplitComponentMatch | tracker/feed_parser.py:65-67 | with a match whose name group is the shortest, the name and status are the trimmed groups |
| Components.FindSplitIs | tracker/feed_parser.py:31 | a match whose name group is the shortest is exactly the one the engine reports |
| Components.FindSplitFinds | tracker/feed_parser.py:31 | whenever some split matches, the engine reports one with the shortest name group |
| Components.SplitComponentNoMatch | tracker/feed_parser.py:68-69 | without a match the whole text is the name and the status is empty |
| Components.MinimalSplitUnique | tracker/feed_parser.py:31 | the match with the shortest name group is unique |
| Components.SplitWithoutParen | tracker/feed_parser.py:65-69 | text without `(` is never split |
| Components.SplitComponentString | tracker/feed_parser.py:65-69 | `str(Component)` splits back into the same component when the name has no `(`, the status has no `)`, and both are non-empty normalised text |
| Components.SplitComponentNameOnly | tracker/feed_parser.py:65-69 | a component with an empty status and no `(` in its name splits back into itself |
| Components.SplitComponentExample | tests/test_feed_parser.py:117-122 | `Chat Completions (Operational)` gives the name `Chat Completions` and the status `Operational` |
| Components.RawTexts | tracker/feed_parser.py:60 | each group is stripped of tags and trimmed |
| Components.SplitAll | tracker/feed_parser.py:65-69 | one component per kept text, in order |
| Components.ParseComponents | tracker/feed_parser.py:49-71 | the loop with its `seen` set returns the split of the distinct non-empty item texts, in first-occurrence order |
| Components.ComponentsFromDistinctTexts | tracker/feed_parser.py:56-63 | at most one component per item; no two components come from the same text; the kept texts are exactly the non-empty stripped ones |
| Components.ComponentNamesNonEmpty | tracker/feed_parser.py:61-69 | every component name is non-empty |
| Feed.GetText | tracker/feed_parser.py:203-208 | some text exactly when the child is present with non-empty text, and then that text |
| Feed.TextOr | tracker/feed_parser.py:114 | `_get_text(...) or fallback`: the child's text when there is some, the fallback otherwise |
| Feed.AtomSource | tracker/feed_parser.py:117-118 | the summary text, else the content text, else `""` |
| Feed.AtomLink | tracker/feed_parser.py:121-122 | the `href` of the link element, `""` when the element or the attribute is missing |
| Feed.AtomIncident | tracker/feed_parser.py:114-135 | each field of an Atom incident comes from the entry as stated: id, stripped title, link, provider, and status, summary and components of the source text |
| Feed.RssId | tracker/feed_parser.py:155 | the guid text, else the link text, else `""` |
| Feed.RssSource | tracker/feed_parser.py:159-165 | the `content:encoded` text, else the description text, else `""` |
| Feed.RssIncident | tracker/feed_parser.py:155-178 | each field of an RSS incident comes from the item as stated |
| Feed.AtomIncidents | tracker/feed_parser.py:113-137 | one incident per entry |
| Feed.RssIncidents | tracker/feed_parser.py:154-180 | one incident per item |
| Feed.ParseAtomFeed | tracker/feed_parser.py:99-137 | the loop appends the incident of each entry, in document order |
| Feed.ParseRssFeed | tracker/feed_parser.py:140-180 | the loop appends the incident of each item, in document order |
| Feed.ParseFeed | tracker/feed_parser.py:183-197 | the RSS parser when the feed type lower-cases to `rss`, the Atom parser otherwise, and a parse error for malformed XML |
| Feed.AtomIncidentsAt | tracker/feed_parser.py:113-135 | the k-th incident is built from the k-th entry |
| Feed.RssIncidentsAt | tracker/feed_parser.py:154-178 | the k-th incident is built from the k-th item |
| Feed.FeedShape | tracker/feed_parser.py:183-197 | a well-formed document always parses; there is one incident per item (RSS) or per entry (Atom), each carrying the provider name |
| Feed.DispatchExamples | tracker/feed_parser.py:195-197 | `RSS`, `Rss` and `rss` select the RSS parser; `atom`, `""` and `rss2` do not |
| Backoff.Pow2 | tracker/monitor.py:190 | `2 ** e` is positive for every integer exponent, including negative ones |
| Backoff.BackoffDelay | tracker/monitor.py:182-192 | the delay never exceeds 300 seconds |
| Backoff.DelayRange | tracker/monitor.py:189-192 | the delay lies between min(base, 300) and 1.5 · base |
| Backoff.JitterBounds | tracker/monitor.py:191 | the jitter lies between 0 and half the base |
| Backoff.Pow2Monotone | tracker/monitor.py:190 | `2 ** e` grows with `e` |
| Backoff.Pow2Step | tracker/monitor.py:190 | `2 ** (e + 1)` is twice `2 ** e` |
| Backoff.BaseMonotone | tracker/monitor.py:189-190 | more consecutive errors never give a smaller base delay |
| Backoff.BaseConstantAfterMax | tracker/monitor.py:189 | from `max_retries` errors on, the base delay no longer grows |
| Backoff.DefaultSchedule | tracker/monitor.py:189-190 | with `max_retries` 5 and `base_backoff` 2 the base delays are 2, 4, 8, 16 and then 32 seconds |
| Monitor.ConditionalHeaders | tracker/monitor.py:100-106 | `Accept` is always sent; `If-None-Match` exactly when the ETag is non-empty; `If-Modified-Since` exactly when Last-Modified is non-empty; no other header is sent |
| Monitor.MapGet | tracker/monitor.py:175 | `dict.get` gives a value exactly for a key in the map |
| Monitor.HistoricalSlice | tracker/monitor.py:151 | `incidents[:max_historical]` is a prefix of length min(n, len), with Python's meaning of a negative n |
| Monitor.Shown | tracker/monitor.py:153-154 | one printed line per historical incident |
| Monitor.SeedAll | tracker/monitor.py:156-159 | seeding changes only the seen ids, the fingerprints and the counter |
| Monitor.DiffAll | tracker/monitor.py:164-180 | the diff changes only the seen ids, the fingerprints, the counter and the reports |
| Monitor.FeedMonitor.constructor | tracker/monitor.py:40-57 | a new monitor has no tokens, no hash, no seen ids, no errors, the first-run flag set and the counter at 0 |
| Monitor.FeedMonitor.ShowHistorical | tracker/monitor.py:150-154 | the header line and one line per historical incident are added to the log |
| Monitor.FeedMonitor.SeedIncidents | tracker/monitor.py:156-159 | the seeding loop leaves the fields as `SeedAll` says |
| Monitor.FeedMonitor.DiffIncidents | tracker/monitor.py:164-180 | the diff loop leaves the fields as `DiffAll` says |
| Monitor.FeedMonitor.Poll | tracker/monitor.py:90-180 | one call of `_poll` leaves the fields and ends as `PollSpec` says |
| Monitor.FeedMonitor.HandleBody | tracker/monitor.py:135-180 | the part of `_poll` after the hash check stores the hash, parses, and then seeds or diffs, as `ProcessBody` says |
| Monitor.FeedMonitor.Step | tracker/monitor.py:72-88 | one turn of the `start` loop leaves the fields and sleeps as `StepSpec` says |
| MonitorLemmas.SeedAllIds | tracker/monitor.py:156-159 | seeding adds every parsed id to the seen ids and to the fingerprint map, and adds the number of incidents to the counter |
| MonitorLemmas.SeedAllLatest | tracker/monitor.py:156-158 | after seeding, each id maps to the fingerprint of its last incident in the feed |
| MonitorLemmas.SeedAllFacts | tracker/monitor.py:156-159 | all of the above, and seeding prints nothing |
| MonitorLemmas.DiffAllIds | tracker/monitor.py:167-172 | the diff adds every parsed id to the seen ids and to the fingerprint map |
| MonitorLemmas.DiffOneIds | tracker/monitor.py:167-179 | one pass of the diff leaves the incident's id among the seen ids and the fingerprint keys, and adds nothing else |
| MonitorLemmas.DiffAllLatest | tracker/monitor.py:164-179 | after the diff, each id maps to the fingerprint of its last incident in the feed |
| MonitorLemmas.DiffAllLog | tracker/monitor.py:164-180 | the diff only appends to the log; every appended line is a new or an updated incident; the counter grows by the number of lines appended |
| MonitorLemmas.DiffAllFacts | tracker/monitor.py:164-180 | all of the above together |
| MonitorLemmas.DiffAllUnchanged | tracker/monitor.py:175 | a feed whose ids are all known with their current fingerprints changes nothing |
| MonitorLemmas.DiffRepeatIsNoop | tracker/monitor.py:164-180 | diffing the same feed a second time changes nothing, when its ids are distinct |
| MonitorLemmas.DiffNew | tracker/monitor.py:167-173 | an unseen id is reported as new, added with its fingerprint, and counted |
| MonitorLemmas.DiffUpdated | tracker/monitor.py:175-180 | a seen id with a different fingerprint is reported as updated, its fingerprint overwritten, and counted; the seen ids stay the same |
| MonitorLemmas.DiffUnchanged | tracker/monitor.py:175 | a seen id with an equal fingerprint changes nothing |
| MonitorLemmas.NotModifiedKeepsState | tracker/monitor.py:115-118 | a 304 response completes with every field unchanged; only a DEBUG line may be logged |
| MonitorLemmas.TokensRefreshed | tracker/monitor.py:124-127 | after a successful response each token is overwritten when its header is present, and kept otherwise, even when the body is unchanged |
| MonitorLemmas.UnchangedBodySkipsParse | tracker/monitor.py:130-134 | a body equal to the last one is not parsed: the outcome does not depend on the parser; only the tokens and the log may change |
| MonitorLemmas.HashStoredBeforeParse | tracker/monitor.py:135-138 | a new body is remembered before it is parsed, so a malformed body raises with the hash already stored |
| MonitorLemmas.MalformedBodySkippedAfter | tracker/monitor.py:130-142 | the same malformed body served twice raises once and is then skipped, with the seen ids, fingerprints, first-run flag and counter unchanged |
| MonitorLemmas.EmptyFeedKeepsFirstRun | tracker/monitor.py:144-145 | an empty parse only refreshes the tokens and stores the hash; the first-run flag stays as it was |
| MonitorLemmas.FirstRunSeedsAll | tracker/monitor.py:148-161 | the first non-empty feed clears the flag, seeds every id with its latest fingerprint and counts every incident |
| MonitorLemmas.FirstRunLog | tracker/monitor.py:148-161 | the first run appends to the log the historical slice (when enabled), then the watching line, and nothing else |
| MonitorLemmas.LaterRunDiffs | tracker/monitor.py:164-180 | a later feed remembers every id with its latest fingerprint, appends only new or updated reports, and counts each one |
| MonitorLemmas.ProcessKeepsTokens | tracker/monitor.py:135-180 | processing a new body never changes the ETag or the Last-Modified token |
| MonitorLemmas.ProcessPreservesValid | tracker/monitor.py:135-180 | processing a new body keeps the seen ids equal to the keys of the fingerprint map and never shrinks the seen ids, the counter or the log |
| MonitorLemmas.PollPreservesValid | tracker/monitor.py:90-180 | a poll keeps the seen ids equal to the keys of the fingerprint map; the seen ids, the counter and the log never shrink; the error counter is unchanged |
| MonitorLemmas.StepAfterSuccess | tracker/monitor.py:74-76 | a successful poll resets the error counter and sleeps the poll interval |
| MonitorLemmas.PollKeepsErrors | tracker/monitor.py:90-180 | a poll never changes the error counter, whatever the state |
| MonitorLemmas.StepAfterError | tracker/monitor.py:79-88 | an exception increments the error counter before the delay is computed from it; the delay is at most 300 seconds |
| MonitorLemmas.StepPreservesValid | tracker/monitor.py:72-88 | the loop keeps the seen ids equal to the keys of the fingerprint map, and never shrinks them |
| MonitorLemmas.InitialValid | tracker/monitor.py:40-57 | the initial state satisfies the invariant, with the first-run flag set and the counter at 0 |
| MonitorLemmas.FirstPollOfTwo | tracker/monitor.py:135-161 | the first poll of a two-incident feed stores the body's hash, seeds both ids with their fingerprints, counts 2 and reports neither incident as new or updated |
| MonitorLemmas.FirstRunQuiet | tracker/monitor.py:148-161 | a first run adds no new-incident or update report to the log |
| MonitorLemmas.SecondFeedReportsOnlyTheNewIncident | tracker/monitor.py:90-180 | a fresh monitor gets a feed of two incidents, then the same two with a third in front: both polls complete, the first reports nothing, the second reports exactly the added incident, with three ids seen and a count of 3 |
| MonitorLemmas.LaterPollReportsOnlyTheNewOne | tracker/monitor.py:90-180 | a later poll of `[c, a, b]`, with `a` and `b` stored unchanged and `c` unseen, reports `c` alone, adds its id and counts one |
| MonitorLemmas.DiffAddsOnlyTheNewOne | tracker/monitor.py:164-180 | diffing `[c, a, b]` with `a` and `b` stored unchanged reports `c` alone |
| MonitorLemmas.ShownOnlyHistorical | tracker/monitor.py:150-154 | the historical lines include no new-incident or update report |
| MonitorLemmas.ShownAt | tracker/monitor.py:153-154 | the k-th historical line shows the k-th historical incident |
| MonitorLemmas.SeedAsWritten | tracker/monitor.py:156-159 | as written, the seeding loop hits the uninitialised package counter and raises on its first incident |
| MonitorLemmas.SeedAsWrittenStopsAtFirst | tracker/monitor.py:156-159 | as written, only the first incident's id is stored before the loop raises; the second incident stays unseen, so a later diff that meets it reports it as new |
| MonitorLemmas.DiffAsWritten | tracker/monitor.py:164-180 | as written, the diff loop raises on the missing package counter right after its first new incident is reported and stored |
| MonitorLemmas.DiffAsWrittenStopsAtFirst | tracker/monitor.py:167-173 | as written, a feed with two unseen incidents reports and stores only the first, where the intended diff reports both |

## Left out

- XML parsing (`ET.fromstring`, `findall`, `iter`, namespaces). The parsed tree is an input, and malformed XML is one value of it. The model takes it that the parser yields, in document order, the `atom:entry` children of the root and every `<item>`.
- Timestamp parsing with `dateutil`, and the fallback to the current time. A timestamp is kept as its raw text, which neither the diff nor the fingerprint reads.
- The network: `aiohttp`, the 15-second timeout and connection handling. The server is a function from the request headers to a response or a network failure. The feed URL is not passed to it.
- Decoding errors of `resp.text()`: the body is given as text.
- SHA-256 and MD5, which are taken to be injective. The body text and the fingerprint text stand for the digests.
- `random.uniform` and floating point. The random draw is a parameter `u` in [0, 1), and the arithmetic is on reals.
- asyncio: the endless loop, `asyncio.sleep`, cancellation, and several monitors sharing the counter. `Step` models one turn of the loop for one monitor, and returns the time it would sleep.
- The notifier's console output. Each printed line is an `Event` in the log, and the DEBUG-level "no changes" line is the `NoChanges` event. The separator lines the diff prints are not logged.
- The startup banner printed by `start`, `main.py` (orchestration, signals, health server) and `config.py` (YAML loading). These are not part of this model.
- Python's Unicode handling: the model treats text as ASCII, with no non-ASCII whitespace, case folding or length-changing `lower()`.
- Html.ParseStatus: the concrete test example `_parse_status("<b>Status: Resolved</b>...")` is not evaluated as a lemma. The general properties that cover it are proved instead: the first match's group is tag-stripped and trimmed.
- Html.ParseSummary: the concrete test example of tests/test_feed_parser.py:149-157 is not evaluated as a lemma. The general properties that cover it are proved instead: `RemoveMarkersSpan` and `RemoveOneMarker` keep the text around a marker, `SummarySource` cuts at the first affected-components marker, and `ParseSummary` is `_strip_html` of what is left.
- Components.SplitComponent: its own contract states only the non-empty name and the no-match case. The full characterisation is in `SplitComponentMatch`, `FindSplitFinds` and `SplitComponentNoMatch`.
- Feed.FeedShape: it states the count and the provider of the incidents; the other fields of each incident are given by `AtomIncidentsAt` and `RssIncidentsAt`.
- Models.FingerprintInjective: it needs a status and a summary without `|`, because otherwise two different incidents can share a fingerprint text.

## Findings

| source | as written | input that shows it | evidently intended | confidence | as-written member | corrected member |
|---|---|---|---|---|---|---|
| tracker/monitor.py:159 | `_tracker.incident_count += 1` reads an attribute the `tracker` package never defines. `tracker/__init__.py` sets only `__version__`, and `main.py` only reads the counter. So the first increment raises `AttributeError`. | A fresh monitor whose first feed is non-empty: the first seeded id and fingerprint are stored, then the poll raises; the remaining incidents are never seeded. | a counter that starts at 0 and grows by one per seeded, new or updated incident | not executed | MonitorLemmas.SeedAsWrittenStopsAtFirst | MonitorLemmas.FirstRunSeedsAll |
| tracker/monitor.py:173 | The same `_tracker.incident_count += 1` follows each new incident of a later poll, at :173, and each updated one, at :180. | A later feed with two unseen incidents: the first is reported and stored, then the poll raises; the second is neither reported nor stored. | every new or updated incident of the feed reported, stored and counted | not executed | MonitorLemmas.DiffAsWrittenStopsAtFirst | MonitorLemmas.DiffAllIds |
