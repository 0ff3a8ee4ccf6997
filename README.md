# video50 core in Dafny

video50 is a browser video player for CS50 lectures. It shows timed quiz
questions and a transcript that stays in step with the video. This project
models the logic under the jQuery and DOM wiring of three files, and proves
properties of that model:

- `CS50.Video` (`js/cs50.video.js`):
  - the constructor's option checks and defaults;
  - the list of available questions that grows on every `timeupdate`;
  - the lookup and mode dispatch of `showQuestion`;
  - the SRT subtitle parser that builds the transcript;
  - the transcript highlight and the flag that suspends auto-scrolling.
- The question widgets of `CS50.Video.Render` (`js/cs50.video.render.js`):
  - multiple-choice and true/false correctness under JavaScript's loose equality;
  - the choice between local and remote checking;
  - the `checkUrl` requirement;
  - the alert that `displayCorrectness` leaves behind;
  - the visibility of the free-response submit button;
  - the numeric tolerance default.
- The demonstration page (`js/demo.js`): its own notification buttons, question display and answer check.

The DOM is replaced by plain state. This state is:

- sequences of question ids or button indices (the notification table);
- a sequence of transcript lines, with one highlight flag per line;
- booleans for the flip side, the back button, the submit button and the scroll flag;
- a sequence of alerts;
- the list of calls made on the media element (`play`, `pause`, `setCurrentTime`).

Modules:

- `Js`: the JavaScript values the code distinguishes (`undefined`, `null`, a value) and their truthiness.
- `Text`: `split`, `join`, `split(pat)[0]`, `\s`, and decimal digits read with `parseInt` and written with `String`.
- `Seqs`: distinctness and reversal.
- `Questions`: timed questions, `_.find` by id, and the flip/panel dispatch.
- `Options`: the constructor's option handling, modelled as a function from the given record to an error or the normalised record.
- `Notifications`: `checkQuestionAvailable` as a function and as the `Tick` method of a class that holds the rows, plus the row click.
- `Srt`: the payload split `/\n\s*\n/`, the per-block parse, the stamp regular expression `/(\d+):(\d+):(\d+)/`, and the whole parse with its abort.
- `Transcript`: the transcript panel as a class. The class covers the parse loop, the highlight, the scroll flag and line clicks.
- `VideoPlayer`: the `CS50.Video` object as a class. Its methods react to the player becoming ready, to time updates, to clicks and to the arrival of the subtitles.
- `Render`: alerts, the local/remote dispatch, the choice checks, and the three widget classes.
- `Demo`: the demonstration page as a class.

Behaviour of the code worth noting:

- A question joins the list only at the second equal to its timecode, not at any later second.
- New rows are put at the top, so questions due at the same second read in reverse array order.
- After a time update that matches a transcript line, every line starting at that second is highlighted, not at most one. The invariant kept is that all highlighted lines share one start second.
- A cue block whose second line holds no `H:M:S` stamp aborts the whole parse after the lines before it. It is not skipped. The model returns an explicit failure that records the lines already appended.
- The numeric tolerance defaults to 1, not 0, although the comment next to it says "exact answer".
- `displayCorrectness(correct, video)` (js/cs50.video.render.js:44-47) always writes into the player's `.question-content`, on the back of the player. A panel question's verdict therefore lands on the hidden flip side, not in the panel. `Render.AlertArea` is that one area.

## Model

| member | source | states |
|---|---|---|
| Js.OrDefault | js/cs50.video.js:22-28 | `x === undefined ? d : x`: the default replaces `undefined` only. `null` and other supplied values are kept, and the result is never `undefined`. |
| Options.Normalize | js/cs50.video.js:14-28 | Fails exactly when `playerContainer`, `notificationsContainer` or `video` is falsy, with the error of the first check that fails, in source order. On success the record is normalised: each optional field keeps a supplied value (`false` and `null` included) and takes its default (true, 360, `[]`, `null`, `./flashmediaelement.swf`, `""`, 640) only when `undefined`. The other fields pass through unchanged. |
| Options.NormalizeIdempotent | js/cs50.video.js:22-28 | Normalising the object a first constructor has already normalised changes nothing. |
| Options.NormalizeFixedPoints | js/cs50.video.js:14-28 | The constructor leaves a record unchanged exactly when the record is already normalised. |
| Questions.FirstWithId | js/cs50.video.js:286 | `_.find` by id: the index of the first question with that id, or none when no question carries it. |
| Questions.Show | js/cs50.video.js:284-316 | The question shown is the first one with that id. Its mode decides the presentation: flip or panel. No match, or a mode that is neither, shows nothing. A match of either mode always shows something. |
| Notifications.TickedMembers | js/cs50.video.js:117-129 | After a tick, an id is listed exactly when it was listed before or some question with that id has a timecode equal to the second. |
| Notifications.TickedNoDup | js/cs50.video.js:117-129 | A tick never lists an id twice. |
| Notifications.TickedNothingNew | js/cs50.video.js:119 | When every due question is already listed, a tick changes nothing. It follows that a question with an earlier timecode is never added. |
| Notifications.TickedIdempotent | js/cs50.video.js:117-129 | Two ticks at the same second give the same rows as one tick. |
| Notifications.FreshIdsMembers | js/cs50.video.js:119-120 | The ids a tick inserts are exactly the due ids not yet listed. |
| Notifications.TickedShape | js/cs50.video.js:123 | The new rows go in front of the old ones, which are untouched, in reverse of the order the questions come. |
| Notifications.SameSecondReversed | js/cs50.video.js:117-129 | When the due ids are distinct and none is listed, the rows become the due ids reversed, followed by the old rows. |
| Notifications.TickScenario | js/cs50.video.js:111-130 | Items 1 and 2 are at second 5 and item 3 at second 10, with ticks at 0, 4, 5, 9 and 10. The table is empty until second 5, then reads 2, 1. Second 9 changes nothing. After second 10 it reads 3, 2, 1. |
| Notifications.NotificationList.Tick | js/cs50.video.js:111-130 | The `_.each` loop leaves exactly the rows the tick function gives, and it keeps the rows distinct. |
| Notifications.NotificationList.Click | js/cs50.video.js:198-206 | A click shows the question for the row's id, using the first-match lookup. Exactly that row is removed, the order of the others is kept, and the id is no longer listed. |
| Srt.FirstSeparator | js/cs50.video.js:220 | Finds the leftmost match of `\n\s*\n` at or after a position. No match starts before it. |
| Srt.BlocksHaveNoSeparator | js/cs50.video.js:220 | No block that `split(/\n\s*\n/)` returns contains a blank line. |
| Srt.BlocksOfOne | js/cs50.video.js:220 | Text without a blank line is a single block. |
| Srt.BlocksCons | js/cs50.video.js:220 | One blank line between a block that ends in text and a rest that starts with text splits them. |
| Srt.StampOfDigits | js/cs50.video.js:243-244 | A stamp written `H:M:S` followed by a non-digit reads as those three numbers, so the `,mmm` part is dropped. |
| Srt.NoStampWithoutColon | js/cs50.video.js:243 | A line with no colon yields no stamp, so `time` is `null`. |
| Srt.ParseBlockSkips | js/cs50.video.js:231-232 | A block yields nothing exactly when it has fewer than two lines. |
| Srt.ParseTwoLineBlock | js/cs50.video.js:232-247 | A two-line block gives a line with empty text and no break, timed by the stamp before ` --> ` on its second line. If that line has no stamp, it throws. |
| Srt.ParseLongBlock | js/cs50.video.js:231-247 | In a longer block, the third and later lines become the text, joined by single spaces. A break is drawn exactly when that text starts with `>>` or `[`, and the time is taken from the second line. |
| Srt.CollectAppend | js/cs50.video.js:228-249 | The loop over block outcomes is compositional: the lines of the first part, then those of the second. The first failure wins. |
| Srt.ParseBlocksAppend | js/cs50.video.js:228-249 | Parsing keeps block order over a concatenation of blocks. A failure in the second part is reported at its index in the whole, after all the lines of the first part. |
| Srt.UnstampedAborts | js/cs50.video.js:243-244 | A block without a stamp aborts the parse at that block. The lines before it are kept, with its break marker if it had one, and no later block is looked at. |
| Srt.CollectStopped | js/cs50.video.js:243-244 | Once a prefix of the blocks has failed, the remaining blocks do not change the result. |
| Srt.CueParses | js/cs50.video.js:231-247 | A well-formed cue block gives the line with the cue's time `h*3600+m*60+s`, its text, and a break exactly for a new speaker turn. |
| Srt.BlocksFormatted | js/cs50.video.js:220 | A payload of well-formed cues separated by blank lines splits into exactly the cue blocks. |
| Srt.ParseCueBlocks | js/cs50.video.js:228-249 | The parse of well-formed cue blocks is the sequence of their lines, in order. |
| Srt.ParseFormatted | js/cs50.video.js:219-249 | Round trip: formatting well-formed cues and then parsing the result gives one line per cue, in cue order, with the cue's time, text and break. The empty list formats to the empty payload, which parses to no lines. |
| Srt.TwoCueScenario | js/cs50.video.js:219-249 | The payload of the cues `Hello` (at 00:00:01) and `>> Goodbye` (at 00:01:05) gives lines at 1 and 65 seconds. Only the second line has a break before it. |
| Text.Split | js/cs50.video.js:231 | `split` on one character always returns at least one piece. |
| Text.SplitPiecesFree | js/cs50.video.js:231 | No piece of a split contains the separator character. |
| Text.JoinSplit | js/cs50.video.js:231 | Joining the pieces of a split with the separator gives back the string. |
| Text.SplitHasTwo | js/cs50.video.js:231-232 | A string splits into two or more pieces exactly when it contains the separator. |
| Text.Before | js/cs50.video.js:234 | `split(" --> ")[0]` is the longest prefix before the first occurrence of the separator, or the whole string. |
| Text.BeforeAppend | js/cs50.video.js:234 | A prefix that cannot start the separator is kept whole in `split(" --> ")[0]`. |
| Text.JoinLinesWithSpaces | js/cs50.video.js:235-236 | Joining the lines with `" "` turns each newline into one space. |
| Text.DecimalStringValue | js/cs50.video.render.js:162 | Index `i`, written as the radio value `"i"`, reads back as `i`. |
| Transcript.TranscriptView.Load | js/cs50.video.js:219-267 | The loop builds exactly the lines of the parse. On success it installs the click and scroll handlers with the flag false. On an abort it keeps the lines appended so far and the failing block's break marker, and installs no handler. No line is highlighted. |
| Transcript.TranscriptView.AppendBlock | js/cs50.video.js:230-247 | One pass of the loop moves the transcript exactly as one step of the parse does. A parsed block adds its link, which is not highlighted. A block without a stamp keeps its break marker and stops the loop. A skipped block changes nothing. No handler is touched. |
| Transcript.TranscriptView.UpdateHighlight | js/cs50.video.js:344-362 | When some line starts at the second, exactly those lines are highlighted. Otherwise the highlights are unchanged. A scroll is requested exactly when a line matched and the flag is false. The lines and the flag are unchanged. |
| Transcript.TranscriptView.ScrollStart | js/cs50.video.js:262-264 | `scrollstart` raises the flag, once the handlers are installed. |
| Transcript.TranscriptView.ScrollStop | js/cs50.video.js:265-267 | `scrollstop` clears the flag. |
| Transcript.TranscriptView.ClickLine | js/cs50.video.js:252-258 | Clicking a line seeks to its second exactly when the handlers are installed. |
| VideoPlayer.Video.constructor | js/cs50.video.js:100-103 | Starts with an empty notification table, an empty transcript (no lines, no highlight, no break marker, no handlers, auto-seek flag false) and no player calls. Both are fresh objects. A subtitle request is outstanding exactly when `srt` is truthy. |
| VideoPlayer.Video.Create | js/cs50.video.js:10-28 | A missing required option throws that option's error. Otherwise a fresh player is built over the normalised options. Its notification list and transcript are fresh objects. It has no requests, no notification rows and no transcript lines. The transcript has no break marker, no highlight, no handlers and a false auto-seek flag. It is not ready, not flipped, shows no back button and holds no flip or panel question. A subtitle fetch is pending exactly when `srt` is truthy. |
| VideoPlayer.Video.PlayerReady | js/cs50.video.js:150-165 | From now on time updates are handled, and `play()` is called exactly when `autostart` is truthy. |
| VideoPlayer.Video.TimeUpdate | js/cs50.video.js:154-160 | Before the player is ready nothing happens. After that, the rows become the tick of the old rows and the transcript highlight moves as `UpdateHighlight` states. |
| VideoPlayer.Video.BackClicked | js/cs50.video.js:170-184 | The back button hides, `play()` is called and the player flips back. |
| VideoPlayer.Video.PanelClosed | js/cs50.video.js:329-335 | Closing the panel removes the panel question. |
| VideoPlayer.Video.ClickNotification | js/cs50.video.js:198-206 | The row is removed and the question is shown by mode. A flip question calls `pause()`, closes the panel, is rendered on the back and shows the back button. A panel question clicks the back button, which calls `play()` and flips back, and opens in the question container if that container is set. |
| VideoPlayer.Video.SubtitlesArrived | js/cs50.video.js:218-270 | With a transcript container, the transcript is the parse of the reply, or the partial transcript after an abort, ending in the failing block's break marker. A successful parse leaves no trailing break marker. Handlers are installed only on success. Without a container, the reply is dropped and the transcript is unchanged. Either way the auto-seek flag is false and no line is highlighted. |
| VideoPlayer.Video.ClickTranscriptLine | js/cs50.video.js:252-258 | `setCurrentTime` with the line's second is called exactly when the transcript handlers are installed. |
| Render.WithoutAlerts | js/cs50.video.render.js:50 | `find('.alert').remove()` leaves no alert. |
| Render.WithoutAlertsAppend | js/cs50.video.render.js:50 | Removing alerts works piece by piece and keeps the other nodes in order. |
| Render.VerdictShape | js/cs50.video.render.js:44-60 | After `displayCorrectness` there is exactly one alert, and it is last. It is the success alert exactly when the answer was correct. The other nodes are those from before. |
| Render.VerdictReplaces | js/cs50.video.render.js:50-59 | A second verdict replaces the first. |
| Render.AlertArea.DisplayCorrectness | js/cs50.video.render.js:44-60 | The removal loop leaves the non-alert nodes in order, followed by the single new alert. |
| Render.CheckRemote | js/cs50.video.render.js:12-34 | Throws exactly when `checkUrl` is falsy. Otherwise it sends a request to `checkUrl` with the question id and the answer. It never gives a local verdict. |
| Render.Dispatch | js/cs50.video.render.js:97-108 | The answer is checked locally exactly when `remote` is `undefined` or `false`, and the local verdict is used. Otherwise the answer goes to `checkRemote`. |
| Render.RemoteFlags | js/cs50.video.render.js:177 | An absent flag or `false` gives the local verdict. `true` and `null` go remote, and then a missing `checkUrl` throws. |
| Render.MultipleChoiceCorrect | js/cs50.video.render.js:179 | A multiple-choice answer is right exactly when a radio is checked and its index equals `data.answer`. |
| Render.TrueFalseCorrect | js/cs50.video.render.js:285-294 | With the choices `True, False` and `!data.answer` expected, the checked choice is right exactly when its label agrees with the truthiness of `data.answer`. |
| Render.NothingCheckedIsWrong | js/cs50.video.render.js:179 | Comparing with `undefined`, when no radio is checked, is never right. |
| Render.ChoiceWidget.ChoiceClicked | js/cs50.video.render.js:195-200 | Clicking a radio checks it and shows the submit button. |
| Render.ChoiceWidget.Submit | js/cs50.video.render.js:175-192 | Submit dispatches as `Dispatch` states. A local question shows its verdict at once. A remote one sends the checked value and leaves the alerts unchanged. |
| Render.RemoteReply | js/cs50.video.render.js:26-31 | The server's reply is shown like a local verdict. |
| Render.SubmitVisibility | js/cs50.video.render.js:120-123 | After a key press on non-blank input the button is visible. On blank input the button flips: it hides if it was showing and shows if it was hidden, so two blank presses restore it. |
| Render.FreeResponseWidget.KeyUp | js/cs50.video.render.js:115-126 | The key-up handler records the input and takes the button to its next visibility. |
| Render.FreeResponseWidget.Submit | js/cs50.video.render.js:95-112 | Submit dispatches as `Dispatch` states. The text is sent as typed, or as `parseFloat` reads it for a numeric question (lines 239-259). |
| Render.NumericData.ApplyDefaultTolerance | js/cs50.video.render.js:228 | An `undefined` tolerance becomes 1. Any given tolerance, `null` included, is kept. |
| Demo.AppendedMembers | js/demo.js:18-20 | After a tick, a button for question `i` exists exactly when it existed before or `timestamp` equals the second. |
| Demo.AppendedShape | js/demo.js:18-25 | New buttons go after the existing ones, which are untouched, in increasing question order. |
| Demo.AppendedNoDup | js/demo.js:19-20 | A tick never creates a second button for the same question. |
| Demo.AppendedIdempotent | js/demo.js:17-27 | Two ticks at the same second give the buttons of one. |
| Demo.AppendedUnchanged | js/demo.js:19-20 | When every due question already has a button, a tick changes nothing. |
| Demo.DemoAnswers | js/demo.js:2-15 | The first question is answered by choice 0 (`Yes`) and not by `No`. A choice of the second is right exactly when its label is `50`. |
| Demo.DemoPage.Tick | js/demo.js:17-27 | The `_.each` loop leaves exactly the buttons of the tick function. They stay distinct and each names a question. |
| Demo.DemoPage.ClickShow | js/demo.js:29-54 | Clicking a button records its index as the current question and clears the old alerts and back button. It calls `pause()`, flips the player, and removes exactly that button. |
| Demo.DemoPage.Choose | js/demo.js:65-88 | The alerts become the single verdict `answer == value`. The back-to-video button is present afterwards and is added at most once. |
| Demo.DemoPage.BackToVideo | js/demo.js:56-63 | `play()` is called and the player flips back. |
| Demo.DemoPage.PlayerReady | js/demo.js:90-97 | Time updates are heard from now on, and `play()` is called. |

## Left out

- Templates, tooltips, fades, `setTimeout` positioning and pixel scroll offsets (js/cs50.video.js:31-99, 359-360; js/cs50.video.render.js:80-87) are presentation only. A scroll is modelled as a "scroll requested" result.
- The MediaElement player is a foreign library. Its construction and its play/pause/seek internals are not modelled. Calls on it are recorded as requests, and `ready` stands for its `success` callback.
- `getCurrentTime()` and `Math.floor` involve floating point. The player takes the already-floored second as a `nat`, and timecodes are integers.
- Network: the subtitle `$.get` is replaced by `Video.SubtitlesArrived(response)`. In the answer check, the JSONP `$.ajax` request is a returned `CheckRequest`, and its reply is `Render.RemoteReply`.
- Render.FreeResponseWidget.Submit: the local verdict is a parameter. It stands for the regular-expression match (no JavaScript regular-expression engine is modelled) or for the `parseFloat` tolerance band of `Numeric` (floating point).
- Render.ChoiceWidget.Submit: `data.answer` is an integer index or, for true/false, a boolean. A string or floating-point `data.answer` is not modelled.
- The completion callback is left out. The empty function is defined only as `CS50.Video.prototype.renderCallback` (js/cs50.video.js:277). `showQuestion` passes `CS50.Video.renderCallback` (js/cs50.video.js:303, 326), which is `undefined`. So `callback.call(...)` (js/cs50.video.render.js:31, 103, 183, 250) throws a `TypeError` right after the verdict is shown. The `e.preventDefault(); return false;` after it is never reached, so the link's default action is not suppressed. The model stops at the shown verdict. `srtData` is unused.
- Each widget is modelled with the `video`, container and data arguments it expects. How a question's `render` function is wired to them is up to the page that supplies the questions.
- VideoPlayer.Video.ClickNotification: ids compare as strings. Loose `==` between a numeric id and the row's string attribute is not modelled.
- Transcript.TranscriptView.UpdateHighlight: the lookup is restricted to the transcript's own lines. Other `data-time` elements in the transcript container are not modelled.
- Srt.StampOfDigits: digit groups are read as exact naturals. `parseInt` precision loss on very long digit runs is not modelled.
- The `keyup` handler is bound on `body` at each render, and it reads the first `.video50-txt-answer` on the page. The model keeps one handler and one input per free-response widget.
