# mysterybox riddle server: a Dafny model

mysterybox serves a weekly riddle game. The configuration holds a start date and an ordered list of riddles, each with a title, a text and an expected answer. Two routes carry the game's logic:

- `GET /riddles/{id}` shows one riddle.
- `POST /riddles/{id}/answer` checks a submitted answer against that riddle. It then shows the next riddle, the same riddle with a message, or the end page.

Two clock helpers compute the weekly cadence of the game:

- `NextUpdate` gives the next weekly unlock instant.
- `WeeksPassed` gives the number of whole weeks since the start.

This project models `server/server.go` in four modules:

- `Schedule` (schedule.dfy): the weekly clock.
  - `NextUpdate` keeps its loop. It is an imperative method proved against the reference function `FirstUnlockAfter`, the first unlock instant strictly after `now`.
  - `WeeksPassed` is a pure function characterised by floor division into weeks.
- `Ids` (ids.dfy): how riddle ids are read and written.
  - `strconv.ParseInt(id, 10, 8)` is `ParseInt8`. It accepts an optional sign followed by decimal digits, and its result must lie in [-128, 127].
  - `strconv.FormatInt(n, 10)` is `FormatInt`.
  - The two round-trip on the int8 range.
- `Text` (text.dfy): the answer normalisation `strings.TrimSpace(strings.ToLower(s))`, called `Normalize`.
  - `Normalize` ignores surrounding white space and letter case.
  - `Normalize` is idempotent.
- `Server` (server.dfy): the `Conf` and `Riddle` records and the two handlers.
  - Each handler is a function from the configuration, the path id and the submitted form to a `Response`. A `Response` is a bare status, the data handed to the riddle template, or the end page.
  - `Decide` isolates the answer handler's choice among no answer configured, wrong answer, next riddle and end.
  - `Play` follows a visitor who posts each answer to the id of the page the previous answer returned.

The checks run in the code's order: the id is parsed (400 on failure), then range-checked (404), then the form is parsed (400), then the answer is decided. Answers are compared after normalisation, and an empty configured answer is reported as "no answer configured" whatever is submitted.

The code never clamps the week count to the last riddle index, and it does not gate a correct answer's next riddle on the clock; neither clamp is modelled. The code does not refuse an empty riddle list at load time either. With an empty list, every id that parses as int8 answers 404, and any other id answers 400.

A consequence the model proves: the answer handler writes the next riddle's id with `FormatInt`, but the view handler reads ids as int8. With more than 128 riddles, a correct answer to riddle 127 links to id "128", and `GET /riddles/128` is then a bad request. With at most 128 riddles, answering every riddle in order reaches the end page.

## Model

| member | source | states |
|---|---|---|
| Schedule.FirstUnlockAfter | server/server.go:53-61 | the next unlock lies strictly after `now`, lies on the weekly cadence from `start`, and is `start` itself or lies at most a week after `now` |
| Schedule.NextUpdate | server/server.go:53-61 | the loop stepping a week at a time from `start` returns the first cadence instant strictly after `now`, and returns `start` when the game has not begun |
| Schedule.FirstUnlockAfterIsLeast | server/server.go:54-59 | no cadence instant after `now` comes before the returned one |
| Schedule.FirstUnlockAfterUnique | server/server.go:54-59 | the three properties of the next unlock determine it uniquely |
| Schedule.FirstUnlockAfterMonotone | server/server.go:53-61 | the next unlock never moves backwards as `now` grows |
| Schedule.WeeksPassed | server/server.go:63-70 | the result is -1 exactly when `now` is before `from`; otherwise it is the number of whole weeks elapsed (`from + w*Week <= now < from + (w+1)*Week`) |
| Schedule.WeeksPassedMonotone | server/server.go:63-70 | the week count never decreases as `now` grows |
| Schedule.NextUnlockFollowsWeeksPassed | server/server.go:53-70 | once the game has started, the next unlock is the start of week `WeeksPassed + 1`: the two clock helpers agree |
| Ids.DigitChar | server/server.go:153 | a digit value is written as a decimal digit character |
| Ids.FormatNat | server/server.go:153 | the decimal form of a natural number is a non-empty string of digits without a leading zero |
| Ids.FormatInt | server/server.go:153 | `FormatInt` writes a string the base-10 parser accepts, with no plus sign |
| Ids.ParseInt8 | server/server.go:99-104 | an accepted id is a signed decimal whose value lies in [-128, 127]; a string that is not a signed decimal is refused |
| Ids.DigitsValueOfFormatNat | server/server.go:153 | reading the digits FormatNat writes gives back the number |
| Ids.ParseDigits | server/server.go:122-127 | a digit string, bare or after a minus sign, parses to its value exactly when that value fits int8; a leading plus sign parses like the bare digits |
| Ids.ParseFormatRoundTrip | server/server.go:122-153 | every int8 value written by FormatInt is parsed back to the same value |
| Ids.ParseRefusesWideIds | server/server.go:99-104 | every value outside [-128, 127] written by FormatInt is refused by the int8 parser |
| Ids.AcceptsSignAndLeadingZeros | server/server.go:99-104 | "+007" reads as 7, "-0" as 0 and "-128" as -128; "", "-", "1a" and "128" are refused |
| Text.LowerChar | server/server.go:139-140 | lower-casing maps an upper-case ASCII letter to its lower-case letter and leaves every other character alone |
| Text.SpacePrefix | server/server.go:139-140 | counts the white-space run `s` starts with: all of it is white space, and the next character is not |
| Text.SpaceSuffix | server/server.go:139-140 | counts the white-space run `s` ends with: all of it is white space, and the character before it is not |
| Text.TrimSpaceIsTrimmedSlice | server/server.go:139-140 | TrimSpace returns a slice of its input with only white space cut on either side, and the slice neither starts nor ends with white space |
| Text.TrimmedSliceUnique | server/server.go:139-140 | a string has only one trimmed slice with white space around it, so the TrimSpace result is determined by those two properties |
| Text.PaddedSlice | server/server.go:139-140 | adding white space around a string keeps a slice with white space around it |
| Text.TrimSpaceIgnoresPadding | server/server.go:139-140 | white space added around a string does not change its trimmed form |
| Text.NormalizeIsKey | server/server.go:139-140 | a normalised answer has no upper-case ASCII letter and no white space at either end |
| Text.NormalizeFixesKeys | server/server.go:139-140 | a string with no upper-case letter and no white space at either end is its own normal form |
| Text.LowerOfAllSpace | server/server.go:139-140 | lower-casing leaves white space unchanged |
| Text.LowerConcat | server/server.go:139-140 | lower-casing works character by character, so it distributes over concatenation |
| Text.NormalizeIgnoresPadding | server/server.go:139-140 | white space around a submission does not change its normal form |
| Text.NormalizeIgnoresCase | server/server.go:139-140 | two strings that differ only in the case of ASCII letters have the same normal form |
| Text.NormalizeIdempotent | server/server.go:139-140 | normalising a normalised answer changes nothing |
| Server.Decide | server/server.go:129-158 | an out-of-range index is not found; an empty configured answer gives "no answer configured"; otherwise a non-matching submission is wrong, and a matching one advances to `i + 1`, or ends the game when `i` is the last riddle; each case holds in both directions |
| Server.Render | server/server.go:142-158 | a bare status is sent exactly for not-found; the end page exactly for the end; a riddle page with no message, the no-answer message or the retry message exactly for the next riddle, no answer configured or a wrong answer; each riddle page shows the title and text of the riddle the outcome names, under the request's id, except a next-riddle page, which carries FormatInt of the next index |
| Server.HandleView | server/server.go:96-117 | 400 exactly when the id does not parse as int8; 404 exactly when it parses outside the riddle range; a riddle page exactly when it parses inside the range, and that page is the riddle at that index under the same id, with no message; never the end page |
| Server.HandleAnswer | server/server.go:119-159 | 400 on an unparsable id, 404 on an index out of range, 400 on an unparsable form, and otherwise the page rendered for the decided outcome, in that order of checks |
| Server.ShownRiddlesFitInt8 | server/server.go:99-116 | every riddle the view handler shows has an index in [0, 127] |
| Server.DecideIgnoresCaseAndPadding | server/server.go:139-147 | a submission padded with white space and differing in letter case has the same outcome as the bare submission |
| Server.NoAnswerWhateverSubmitted | server/server.go:140-145 | a riddle whose answer normalises to the empty string reports "no answer configured" for every submission |
| Server.WrongAnswerKeepsCursor | server/server.go:157-158 | a page carrying the retry message keeps the request's id; resubmitting the answer gives the same page; the view handler shows the same riddle, title and text, at that id |
| Server.WrongAnswerPage | server/server.go:139-158 | a non-matching answer to a riddle that has an answer re-renders that riddle's title and text under the request's id, with the retry message |
| Server.NoAnswerPage | server/server.go:139-145 | any answer to a riddle whose answer normalises to the empty string re-renders that riddle's title and text under the request's id, with the no-answer message |
| Server.AnswerPageAgreesWithView | server/server.go:142-158 | with at most 128 riddles, each riddle page sent after an answer shows the same riddle as a GET of the id it carries |
| Server.NextIdBeyondInt8IsRefused | server/server.go:147-153 | with more than 128 riddles, a correct answer to riddle 127 links to id "128", which the view handler refuses with 400 |
| Server.CorrectAnswerAdvances | server/server.go:147-154 | a correct answer posted to riddle `i` shows riddle `i + 1` under its own id, or the end page after the last riddle |
| Server.PlayAdvances | server/server.go:147-153 | in a session, one correct answer moves the visitor on to the next riddle's id |
| Server.PlayEnds | server/server.go:148-151 | the correct answer to the last riddle ends the session on the end page |
| Server.SolvingInOrderReachesEnd | server/server.go:119-159 | with at most 128 riddles, answering every riddle correctly in order from any riddle ends on the end page |
| Server.FoxKeys | server/server.go:139-140 | "fox" is its own normal form and "FOX" normalises to it |
| Server.FoxFirstAnswer | server/server.go:147-153 | with two riddles expecting "fox", posting "FOX" to id "0" shows riddle 1 under id "1" |
| Server.FoxLastAnswer | server/server.go:147-151 | posting "fox" to id "1", the last riddle, shows the end page |
| Server.FoxPlay | server/server.go:119-159 | the session "FOX" then "fox" from id "0" ends on the end page |
| Server.AnswerKeys | server/server.go:139-140 | "answer" is its own normal form, and "Answer" and "ANSWER" normalise to it |
| Server.PaddedUpperCaseScenario | server/server.go:139-154 | with "Answer" expected, "ANSWER" padded with spaces decides like "answer", and that outcome is not a rejection |

## Left out

- Loading the configuration from `./riddles.json` (`Riddles`, server/server.go:39-51) is file I/O and JSON decoding. The model takes the decoded `Conf` as a value. The JSON decoder's handling of the start date and malformed files is not modelled.
- Routing, the home and root pages, HTMX fragment selection, template rendering, the assets cache, gzip compression, the recovery and logging middleware, `Run` and `Stop` are not modelled. They are HTTP plumbing with no decision logic. The handlers return the data they hand to the templates.
- Log lines written by the handlers and by `WeeksPassed` are side effects and are not modelled.
- Schedule.WeeksPassed: the result is an unbounded integer. The model does not reproduce Go's float computation `Hours() / 24 / 7`, and it does not reproduce the `int8` conversion, which misbehaves beyond 127 weeks. It gives the exact floor of the elapsed weeks.
- Schedule.NextUpdate: `AddDate(0, 0, 7)` is modelled as adding exactly seven days of nanoseconds. Calendar and time-zone effects are left out, such as a daylight-saving change inside a week. Time is an unbounded integer, so `time.Duration` saturation and the range limits of `time.Time` are not modelled.
- Text.LowerChar: lower-casing is modelled on ASCII letters only. Go's `strings.ToLower` also maps non-ASCII upper-case letters, and the model leaves them unchanged.
- Server.HandleAnswer: `r.ParseForm` is reduced to an `Option<string>`. `None` stands for a form that cannot be parsed. A form without an `answer` field submits the empty string. The body parsing itself is not modelled.
- Server.Play: the model assumes the riddle page's form posts to `/riddles/{id}/answer` with the page's own id. The riddle template is not part of this model.
- The time gating of riddles is not modelled as a clamp on the index a visitor may reach, because `server/server.go` applies none. Neither handler calls `NextUpdate` or `WeeksPassed`.
