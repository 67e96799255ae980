# API Recorder capture pipeline, in Dafny

A model of the capture pipeline of API Recorder, together with proofs about it. API Recorder watches a browser session and records the API traffic it sees as a session file. The model covers these parts:

- **Scope matcher** (`matcher.dfy`). Include patterns are tested against a request's path and query. Exclude patterns are tested against its full URL. An include pattern is `*` (everything), a `*`-glob tested without anchors, or a plain substring. An exclude pattern is either `*.ext` (a suffix test) or a plain substring.
- **Body sanitiser** (`body.dfy`):
  - `truncateBody` bounds a response body to the body size limit, with the three fallbacks of the source.
  - `parseResponseBody` and `parseRequestBody` are modelled once the body text has been read.
  - `JSON.parse` and `JSON.stringify` are the two functions of a `JsonCodec` parameter. Nothing is assumed about them.
- **Recorder** (`recorder.dfy`):
  - The header allow-list, as a loop (`FilterHeaders`) and as the map it must produce (`AllowedHeaders`).
  - The entry built for an accepted response.
  - The `APIRecorder` object with its sequence counter, entry list, browser flag, start time and base URL.
  - A ghost history of handled responses ties the entries to `Capture`, a function of that history. `Capture` is proved to number the entries 1..N in the order the responses were handled.
- **Command line** (`cli.dfy`):
  - `parseArgs` is an index-driven loop proved equal to a recursive specification `ParseFrom`.
  - The file-name sanitiser, and the default output path `timestamp_safeName.json`.
- **String primitives** (`strings.dfy`): `includes`, `startsWith`, `endsWith`, `slice(0, end)`, `split` and `trim`, with their JavaScript edge cases. For example, a negative `slice` end counts back from the end of the string.

Two places where the code does less than its own wording suggests; the model follows the code:

- The comment at src/recorder.js:200 says that anything other than http(s) is skipped. The test at line 201 is `url.startsWith('http')`, so a URL such as `httpfoo:x` passes it.
- Only the response body goes through `truncateBody` (src/recorder.js:211-212). The request body parsed at line 207 is stored whole at line 227 (`Recorder.MakeEntry` states it).

Consequences of the code as written, proved as lemmas:

- `Recorder.DefaultExcludesDropJsonUrls`: the default exclude `.js` is a substring test, so it also drops every `.json` resource under `/api/`.
- `Recorder.MakeEntry`: `body_original_size` is copied only when it is truthy. For a limit of 0 or more this means it is present exactly when `body_truncated` is true. With a negative `--body-limit` and an empty body, the entry is marked truncated but has no size (`Recorder.NegativeLimitDropsZeroSize`).

## Model

| member | source | states |
|---|---|---|
| `Strings.ContainsIffOccurs` | src/recorder.js:29 | `includes` holds exactly when the pattern occurs at some index of the URL |
| `Strings.SliceTo` | src/recorder.js:65 | `slice(0, end)` gives a prefix whose length is `end` clamped to the string, or the length minus `-end` for a negative `end` |
| `Strings.Split` | cli.js:68 | `split(',')` gives at least one piece, and no piece contains the separator |
| `Strings.JoinSplit` | cli.js:68 | joining the pieces of a split with the separator gives back the original string |
| `Strings.Trim` | cli.js:68 | `trim()` leaves a slice of the input that neither starts nor ends with white space; everything removed is white space |
| `Strings.TrimDropsOnly` | cli.js:68 | a character absent from a string is absent from its trim |
| `Matcher.GlobPrefixIffMatch` | src/recorder.js:25-27 | the prefix matcher accepts exactly when the glob matches some prefix of the URL in full |
| `Matcher.GlobSearchIsRegexTest` | src/recorder.js:25-27 | the computed glob search is the unanchored regular-expression test: some substring of the URL matches the glob in full |
| `Matcher.StarFreeSearchIsContains` | src/recorder.js:25-29 | for a pattern without `*`, the glob search is substring containment |
| `Matcher.TrailingStarSearch` | src/recorder.js:25-27 | appending `*` to a glob does not change which URLs an unanchored search accepts |
| `Matcher.MatchesIncludePatterns` | src/recorder.js:21-31 | an empty include list, or one holding `*`, accepts every URL |
| `Matcher.IncludeFilterMeaning` | src/recorder.js:21-31 | the include filter accepts exactly when the list is empty or some pattern matches: `*`, a glob in some substring, or a plain substring |
| `Matcher.WildcardSuffixIsSubstring` | src/recorder.js:24-29 | for `p` without `*`, both `p*` and `p` accept exactly the URLs containing `p` |
| `Matcher.MatchesExcludePatterns` | src/recorder.js:36-43 | an empty exclude list excludes nothing; an excluded URL is matched by some listed pattern |
| `Matcher.ExcludeFilterMeaning` | src/recorder.js:36-43 | a URL is excluded exactly when some listed pattern matches it: `*.ext` as a suffix `.ext`, any other pattern as a substring occurring at some index |
| `Matcher.ExtensionPatternIsSuffix` | src/recorder.js:38-39 | `*.ext` excludes exactly the URLs that end with `.ext` |
| `Matcher.PngExample` | src/recorder.js:38-41 | `*.png` excludes `https://x/y/z.png` and does not exclude `https://x/y/zpng` |
| `Body.TruncateBody` | src/recorder.js:48-88 | null gives null, not truncated and no size. A body is truncated exactly when its serialised length exceeds the limit. `originalSize` is present exactly when truncated, and then equals that length and exceeds the limit. An untruncated body is unchanged. An unparsable string becomes its first `limit` characters plus `...`. Any other truncated body becomes the parse of its first `limit` serialised characters, or, when that cut does not parse, the preview object `{_truncated: true, _preview: <first 500 characters of the cut>...}` |
| `Body.TruncateIdempotent` | src/recorder.js:55-59 | truncating an untruncated result again returns that result |
| `Body.ParseResponseBody` | src/recorder.js:93-112 | a failed read gives null. Parsable text gives the parsed value. Unparsable text gives null under a JSON content type; otherwise the text itself, cut to 1000 characters plus `...` when longer |
| `Body.ParseRequestBody` | src/recorder.js:117-130 | missing or empty post data gives null; otherwise the parsed value, or the raw text when it does not parse |
| `Recorder.DefaultExcludesDropJsonUrls` | src/recorder.js:11-16 | with the default patterns, any path `/api/<stem>.json` passes the include list, and its URL under any origin is excluded, because `.js` occurs in `.json` |
| `Recorder.ScenarioDropsAsset` | src/recorder.js:193-198 | with include `/api/` and exclude `.png`, a response for `/static/logo.png` is out of scope |
| `Recorder.DurationMs` | src/recorder.js:215-222 | the duration is present only when the timing is present and positive, and then equals it |
| `Recorder.MakeEntry` | src/recorder.js:204-240 | the entry carries the given number, timestamp and page URL, the request's method, the path and query as its URL, the filtered headers, the request body as parsed and not truncated, the status and status text, and the duration rule of `DurationMs`. Its response body, truncation flag and original size are those `TruncateBody` gives for the parsed body, except that a size of 0 is dropped. It is truncated exactly when the parsed body's serialised length exceeds the limit. A recorded original size always means truncated and above the limit. For a limit of 0 or more, the size is present exactly when truncated and equals that length |
| `Recorder.NegativeLimitDropsZeroSize` | src/recorder.js:211-240 | with a negative limit, an empty non-JSON response body becomes `...`, marked truncated, with no original size recorded, because the size 0 is falsy |
| `Recorder.AllowedHeaders` | src/recorder.js:249-266 | the kept names are a subset of the input's. Each has an allow-listed lower-case form and keeps its value. Every allow-listed input name is kept |
| `Recorder.AllowedHeadersExample` | src/recorder.js:249-266 | `X-Custom: 1, Content-Type: application/json` reduces to `Content-Type: application/json` |
| `Recorder.InScopeEvents` | src/recorder.js:193-201 | the responses kept are exactly the handled responses that pass the include, exclude and `http` checks |
| `Recorder.CaptureNumbering` | src/recorder.js:193-242 | handling responses one after another gives one entry per in-scope response: entry `i` is built, with number `i + 1`, from the `i`-th in-scope response in handling order |
| `Recorder.ScenarioName` | src/recorder.js:143 | a non-empty given name is used; a missing or empty one becomes `scenario_` plus the timestamp |
| `Recorder.APIRecorder.constructor` | src/recorder.js:136-145 | the config is the defaults overridden by the options. The counter is 0, there are no entries and no browser, and start time and base URL are null |
| `Recorder.APIRecorder.Start` | src/recorder.js:159-182 | records the start time and origin and marks the browser open; entries and counter are unchanged |
| `Recorder.APIRecorder.HandleResponse` | src/recorder.js:187-244 | a response rejected by include, exclude or the `http` check leaves counter and entries unchanged. An accepted one increments the counter and appends exactly one entry, built from the response and carrying the new number. Entries stay numbered 1..N |
| `Recorder.APIRecorder.FilterHeaders` | src/recorder.js:249-266 | the loop builds exactly the allow-listed part of the header map |
| `Recorder.APIRecorder.Snapshot` | src/recorder.js:277-287 | the record holds the scenario name, the start time, the base URL, the include and exclude patterns, the body limit and the current entries |
| `Recorder.APIRecorder.Stop` | src/recorder.js:271-291 | the browser is closed, and released exactly when it was open. The returned record is the snapshot, with entries numbered 1..seq. Nothing else changes |
| `Recorder.StopTwice` | src/recorder.js:271-291 | a second stop returns the same record and does not close the browser again |
| `Cli.SplitList` | cli.js:66-75 | pattern `k` is the `k`-th comma-separated piece of the value, trimmed, so no pattern holds a comma or starts or ends with white space |
| `Cli.ParseArgs` | cli.js:29-91 | the index-driven loop computes exactly the outcome of the recursive specification `ParseFrom` from the defaults |
| `Cli.NoArgumentsGiveDefaults` | cli.js:30-39 | no arguments give: no url, scenario or output; duration 60; include `/api/`; the eleven asset excludes; headless false; body limit 10000 |
| `Cli.FlagsAtPosition` | cli.js:46-78 | `--url`/`-u`, `--scenario`/`-s` and `--output`/`-o` set their field to the next argument and skip it. `--include`/`-i` and `--exclude`/`-e` set their list to the split-and-trimmed next argument, and fail when there is none. `--headless` sets headless without consuming anything |
| `Cli.UnknownArgumentsIgnored` | cli.js:41-88 | arguments that are not flags leave the options unchanged |
| `Cli.ApplyFlagSetsField` | cli.js:45-87 | a flag for an option takes the next argument and sets the option from it (as text, through `parseInt`, or split and trimmed); a list flag without a value stops parsing with that error |
| `Cli.ApplyFlagKeepsField` | cli.js:45-87 | any other argument leaves the option as it is |
| `Cli.ApplyFlagStride` | cli.js:45-87 | whether an argument consumes the next one depends only on the argument: exactly the value flags do |
| `Cli.FieldKeptWithoutFlag` | cli.js:41-88 | when no position parsing reads as a flag holds a flag for an option, parsing keeps the option's value |
| `Cli.LastFlagWins` | cli.js:41-88 | for each of `--url`, `--scenario`, `--output`, `--duration`, `--include`, `--exclude` and `--body-limit`, the option's value comes from the last occurrence of its flag at a position parsing reads as a flag, so a later occurrence overrides an earlier one and one consumed as another flag's value does not |
| `Cli.ConsumedFlagExample` | cli.js:46-55 | in `--url a -s --url` the second `--url` is the scenario name, and the URL stays `a` |
| `Cli.ReplaceUnsafe` | cli.js:127 | every character is kept when safe and replaced by `_` otherwise; the result has only safe characters |
| `Cli.CollapseUnderscores` | cli.js:128 | the result has no two consecutive `_`. It starts with the same character and draws only on the input's characters. It keeps every non-`_` character in order |
| `Cli.CollapseIsFilter` | cli.js:128 | collapsing is the filter that drops exactly each `_` directly following another `_`, so every run of `_` becomes one `_` |
| `Cli.SafeName` | cli.js:126-128 | the safe name is the name with unsafe characters replaced by `_` and then each `_` that follows another `_` dropped. It holds only `[a-zA-Z0-9_-]`, Hiragana, Katakana and CJK ideographs, and has no `__` |
| `Cli.SafeNameExample` | cli.js:126-128 | `a b` and `a  b` both become `a_b` |
| `Cli.SafeNameIdempotent` | cli.js:126-128 | making a safe name safe again changes nothing |
| `Cli.SafeNameKeepsSafeNames` | cli.js:126-128 | a name of safe characters without `__` is its own safe name |
| `Cli.GenerateOutputPath` | cli.js:118-131 | the path is the timestamp, `_`, the safe name of the scenario and `.json`; the middle part holds only safe characters and no `__` |

## Left out

- The browser is left out: Playwright's `chromium.launch`, `newContext`, `newPage`, the `page.on('response')` subscription, `page.goto`, `browser.close` and `getPage` (src/recorder.js:163-181, 272-275, 296-298). `browserOpen` stands for `this.browser`. A captured response is a `ResponseEvent` that already holds what the handler reads from it, including `page.url()`.
- Concurrency: `handleResponse` is modelled as one atomic step. In the source, `this.seq++` (src/recorder.js:203) comes before the body is awaited (line 208), and the entry reads `this.seq` only afterwards (line 219). When two responses interleave, both entries can carry the same number and a number can be skipped: A increments to 1 and waits, B increments to 2 and waits, and both entries are numbered 2. Nothing is awaited between building an entry and pushing it, so the pushed numbers never decrease. The model's numbering 1..N without repeats or gaps holds only for handlers that run one at a time. Also, the record `stop` returns shares the live `this.entries` array (src/recorder.js:286), so a handler that finishes after `stop` still appends to the returned record. The model does not capture either.
- `Recorder.APIRecorder.Start`: a failing navigation, or a second call to `start`, is not modelled. In the source, either one leaves a launched browser behind.
- `Recorder.APIRecorder.Stop`: a failing `browser.close()` is not modelled.
- `JSON.parse` and `JSON.stringify` come in as parameters. JSON numbers are integers; floating point is not modelled.
- Regular expressions: in an include glob, every character other than `*` is taken literally. The source hands the pattern to `RegExp`, so `.`, `?`, `(` and the like keep their regex meaning there. An invalid expression throws. `.*` does not cross line terminators. URLs normally hold none of these.
- `new URL(url)` is not modelled. The path and query are the event's `path`, and the origin is `Start`'s argument.
- Timestamps (`Date`, `toISOString`) are parameters. The timing duration is the already-rounded integer `Math.round(responseEnd - requestStart)`.
- `toLowerCase` is modelled on ASCII letters only. HTTP header names are ASCII.
- Characters outside the Basic Multilingual Plane are one character here and two UTF-16 units in the source. For the file-name sanitiser the result is the same, because the two `_` they become collapse into one. Elsewhere the lengths differ for such text: the body size limit, `originalSize`, the 1000-character cap and the `slice` cut positions all count UTF-16 units in the source and characters here.
- `parseInt(next, 10)` is an oracle parameter, applied to the following argument (None when there is none). NaN is not modelled.
- Console output, `printHelp`'s text, `process.exit`, `main`, the SIGINT/SIGTERM handlers, the `setTimeout` wait and `saveResult` (cli.js:93-116, 133-213) are process lifecycle and file I/O.
