# Web-log analyzer, modelled in Dafny

This project models the core of a small web-log analyzer (`assignment3.py`).
`process_file` reads a CSV log in which each record holds a request path, a
timestamp, a user agent, a status and a size. It reads every record once and
keeps four accumulators:

- the number of image requests: paths ending in `.jpg`, `.gif` or `.png`, in any case;
- the number of accepted records;
- a `Counter` of browser names found in the user agent (Firefox, Chrome,
  Internet Explorer, Safari), keyed by the text exactly as it appears;
- a `Counter` of hits per hour of the day, taken from the timestamp with
  `strptime("%m/%d/%Y %H:%M:%S")`.

The integer parts of `print_statistics` are modelled too: the choice of the
most popular browser and the 24-line hourly table.

Modules and files:

- `wrappers.dfy` (`Wrappers`): `Option` and `Result`.
- `text.dfy` (`Text`): case folding as Python's `re.IGNORECASE` applies it to
  these patterns, and matching a pattern at a position.
- `counters.dfy` (`Counters`): `collections.Counter`. It is an insertion-ordered
  list of key/count entries, so that `most_common(1)` can break ties the way
  Python does. Its operations are `Add` (`counter[k] += 1`), `Get`
  (`counter[k]` / `.get(k, 0)`) and `MostCommon`.
- `classify.dfy` (`Classify`): the image test, which is the search for
  `\.(jpg|gif|png)$`, and the browser search, which is the leftmost match of
  `(Firefox|Chrome|Internet Explorer|Safari)` with the matched text as the key.
- `timestamp.dfy` (`Timestamp`): `datetime.strptime` for the fixed format. It is
  written as the regular expression `strptime` builds from the format, followed
  by the "unconverted data remains" check and the calendar check of `datetime`.
  It also has the printed form of a date-time, which is used for round-trip
  lemmas.
- `analyzer.dfy` (`Analyzer`): the loop of `process_file`, as the pure fold
  `Analyze` and the method `Process`. Reference counts are defined record by
  record, and lemmas relate the fold to them.
- `report.dfy` (`Report`): the most popular browser, and the hourly table.
- `scenarios.dfy` (`Scenarios`): concrete records and what the model gives for them.

A CSV record arrives as a sequence of fields. A record with fewer than five
fields is skipped. A record with exactly five is counted. A record with more
than five makes the tuple unpacking `path, datetime_str, user_agent, status,
size = row` raise `ValueError`. Nothing catches that error, so the whole
analysis fails. The model returns `Failure(TooManyFields(index, fields))`,
where `index` is the record's position counting from 0. Extra fields are not
ignored: the code raises, and the model follows the code.

## Model

| member | source | states |
|---|---|---|
| Analyzer.Process | assignment3.py:16-51 | The loop returns exactly the fold `Analyze`. It succeeds if and only if no record has more than five fields. On success, the accumulators are consistent and the hit total equals the number of five-field records. |
| Analyzer.Tally | assignment3.py:31-47 | One accepted record adds one hit. It adds one image hit exactly when the path is an image. It adds one to the count of exactly the matched browser text, and to the count of exactly the parsed hour. Every other count is unchanged, and a counter is untouched when nothing matched. |
| Analyzer.TallyWellFormed | assignment3.py:31-47 | Tallying a record preserves consistency: image hits ≤ hits, each counter's total ≤ hits, every hour < 24, and both counters have distinct keys with positive counts. |
| Analyzer.AnalyzeAppend | assignment3.py:26-49 | Splitting the log at any point: the result on `a + b` is the result on `a`, or, if that succeeded, the loop resumed from its accumulators over `b`, front to back, with `b`'s records keeping their positions in the whole log. |
| Analyzer.AnalyzeIsLoop | assignment3.py:20-51 | The analysis equals the front-to-back loop started from zero hits and empty counters. |
| Analyzer.ShortRowIgnored | assignment3.py:27-28 | A record with fewer than five fields leaves every accumulator unchanged. |
| Analyzer.OverlongRowAborts | assignment3.py:30 | A record with more than five fields ends the analysis with an error naming that record and its field count, whatever records follow. |
| Analyzer.FailureIsFinal | assignment3.py:26-30 | Once the analysis has failed, later records cannot change the outcome. |
| Analyzer.UnparseableTimestamp | assignment3.py:44-49 | A record whose timestamp does not parse still counts as a hit, and as an image or browser hit when its path or user agent qualifies. Only the hourly counter is left as it was. |
| Analyzer.AnalyzeSucceedsIff | assignment3.py:26-30 | The analysis succeeds if and only if every record has at most five fields. |
| Analyzer.AnalyzeFailsAt | assignment3.py:26-30 | The analysis fails with (i, n) if and only if record i is the first with more than five fields and has n fields. |
| Analyzer.AnalyzeCounts | assignment3.py:20-51 | Each accumulator of a successful analysis equals its record-by-record count, for every browser key and every hour. The counts cover five-field records, the image records among them, the records whose matched browser text is b, and the records whose timestamp parses to hour h. |
| Analyzer.AnalyzeWellFormed | assignment3.py:20-51 | A successful analysis returns consistent accumulators. |
| Analyzer.AllRecordsCounted | assignment3.py:26-31 | If every record has exactly five fields, the analysis succeeds and counts them all. |
| Classify.ImageTestIsRegexSearch | assignment3.py:34 | The suffix test holds if and only if the image pattern matches at some position. That position is the end of the path, or just before a final newline. |
| Classify.ImageIffFoldedSuffix | assignment3.py:17 | A path that does not end in a newline is an image request if and only if its last four characters, case-folded, are ".jpg", ".gif" or ".png". |
| Classify.SearchFrom | assignment3.py:38 | The scan from a position finds the first start with a matching alternative, and the first alternative at that start, or reports that none matches from there on. |
| Classify.FindBrowser | assignment3.py:38 | The browser search returns the leftmost match, preferring the earlier alternative at the same start. It returns none if and only if no browser name occurs. |
| Classify.BrowserKey | assignment3.py:38-40 | The key is the user-agent text covered by the leftmost match, which folds to one of the four names. There is no key if and only if no name occurs. |
| Classify.LeftmostMatchUnique | assignment3.py:38 | There is only one leftmost match. |
| Classify.KeyOfLeftmostMatch | assignment3.py:38-40 | Any leftmost match determines the key: the literal text under it. |
| Timestamp.MatchFormat | assignment3.py:45 | The strptime regex yields a year up to 9999, a month 1-12, a day 1-31, an hour up to 23, a minute up to 59 and a second up to 61. |
| Timestamp.ParseHour | assignment3.py:45-46 | A parsed hour is always below 24. |
| Timestamp.FormatThenMatch | assignment3.py:45 | Round trip: any date-time whose fields fit the format (year up to 9999, month 1-12, day 1-31, hour up to 23, minute up to 59, second up to 61), once printed in zero-padded form "MM/DD/YYYY HH:MM:SS", is read back field for field by the strptime regex. |
| Timestamp.FormatThenParseHour | assignment3.py:45-46 | A printed date-time yields its hour if and only if the calendar accepts it (for example, not 30 February and not second 60 or 61). |
| Counters.Add | assignment3.py:41 | `counter[k] += 1` adds one to k's count and leaves every other count unchanged. It adds one to the total and adds k to the keys. It keeps keys distinct and counts positive, and keeps existing keys in their insertion positions. |
| Counters.GetPositiveIffKey | assignment3.py:64 | In a counter built by `Add`, `get(k, 0)` is positive if and only if k was added. |
| Counters.MostCommon | assignment3.py:60 | `most_common(1)` returns nothing for an empty counter. Otherwise it returns the first entry with the largest count, so a tie goes to the key inserted first. |
| Counters.FirstMaximumUnique | assignment3.py:60 | The first maximum is unique, so `MostCommon`'s answer is determined. |
| Report.MostPopularBrowser | assignment3.py:59-61 | The browser line is printed if and only if some browser was counted. It names the first entry of greatest count, which no other browser exceeds. |
| Report.HourlyReport | assignment3.py:63-64 | Exactly 24 lines, for hours 0 to 23 in order, each with that hour's count or 0. A line reads 0 if and only if its hour never occurred. The lines add up to every hourly hit. |
| Scenarios.ImageExamples | assignment3.py:17 | "a.jpg", "x.png" and "a.JPG" are image requests; "a.jpgx" is not. |
| Scenarios.FirefoxInMozilla | assignment3.py:38-40 | In "Mozilla Firefox 1.0" the key is "Firefox". |
| Scenarios.FirefoxSpellings | assignment3.py:38-40 | "firefox" and "Firefox" are each their own key. |
| Scenarios.OperaIsNoBrowser | assignment3.py:38-39 | "Opera/9.0" contains no recognised browser name. |
| Scenarios.HourOfTimestamp | assignment3.py:45-46 | "01/01/2024 10:00:00" has hour 10. |
| Scenarios.NoHourInText | assignment3.py:44-49 | "not-a-date" has no hour. |
| Scenarios.NoHourOnLeapSecond | assignment3.py:44-49 | "01/01/2024 10:00:60" has no hour: the regex reads second 60, and the calendar rejects it. |
| Scenarios.NoHourOnMissingDay | assignment3.py:44-49 | "02/30/2024 10:00:00" has no hour, because the calendar rejects the day. |
| Scenarios.OneImageRecord | assignment3.py:16-51 | One record for "a.jpg", at 10 o'clock, in Firefox gives 1 image hit, 1 hit, {"Firefox": 1} and {10: 1}. |
| Scenarios.ShortRecordSkipped | assignment3.py:27-28 | A three-field record leaves everything at zero. |
| Scenarios.LongRecordFails | assignment3.py:30 | A six-field second record fails the analysis at record 1 with 6 fields. |
| Scenarios.UnparseableTimestampRecord | assignment3.py:44-49 | A ".png" record with timestamp "not-a-date" counts 1 hit and 1 image hit, with no hour. |
| Scenarios.UnknownBrowserRecord | assignment3.py:38-41 | An "Opera/9.0" record counts 1 hit and no browser. |
| Scenarios.TwoSpellingsTwoKeys | assignment3.py:38-41 | Records with "firefox" and "Firefox" give two keys, one hit each, in the order first seen. |

## Left out

- `download_file`: it fetches the log over the network with `requests`, which is I/O. The model starts from the records.
- `csv.reader`: CSV tokenising (quoting, escapes, line endings) is not modelled. A record is given as its sequence of fields.
- `main` and the argument parsing: command-line and printing glue only.
- `print_statistics`: the image percentage uses floating point (`image_hits / total_hits * 100`, printed with one decimal), so it is left out. The text of the printed lines, and the closing line echoing the URL, are left out too. `Report` models which browser and which counts get printed.
- Timestamp.MatchFormat: `\d` in Python's `strptime` regex also matches non-ASCII decimal digits (for example Arabic-Indic digits), and `int()` converts them. The model accepts only the ASCII digits 0-9, so a timestamp spelled with other decimal digits parses in Python but not in the model.
- Timestamp.MatchFormat: the regex engine's backtracking is not modelled in general. Each field takes the first alternative followed by its separator. Every separator here (`/`, `:`, whitespace, end of input) is one no alternative can consume, so this is the alternative the engine settles on.
- Text.Fold: case-insensitive matching is modelled only for the characters that matter to the two patterns. These are the ASCII letters, plus U+0130, U+0131 and U+017F, which Python's `re` equates with `i` or `s`. The Kelvin sign U+212A, which it equates with `k`, is included for completeness; no pattern contains a `k`.
- Analyzer.Process: the `ValueError` raised on a record with more than five fields carries only a message in Python. The model's error carries the record's position and field count instead.
- Concurrency and performance are not modelled: the program is single-threaded and reads the log once.
