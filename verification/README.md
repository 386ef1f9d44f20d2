# Bo chat controller, modelled in Dafny

`BoChatWeb` is a single React component for "Bo", an Arabic-speaking chat
assistant. Apart from its rendering and its browser adapters, it holds a
small conversation controller:

- a transcript of `(role, text)` turns;
- notes, newest first;
- quick tasks `{id, text, done}`, newest first;
- a `listening` flag for the microphone.

The controller has these operations:

- **Sending a message.** Blank input is refused. Otherwise the user's turn and a "thinking"
  placeholder are appended. When the call to `/api/bo` ends, the placeholder is
  replaced by one assistant turn. That turn holds the remote reply, a fixed apology,
  or the answer of a local keyword responder.
- **The local fallback responder.** It tests trigger words in a fixed priority order.
  Its note rule also records the input as a note.
- **Tasks.** Adding a task from the task input, and flipping a task's `done` checkbox.
- **The microphone toggle.**
- **Voice choice for speech output.**

The project models this controller:

- `js_string.dfy` (module `JsString`): the JavaScript string operations the component
  relies on: `trim`, `toLowerCase`, `includes` and `startsWith`.
- `fallback.dfy` (`Fallback`): the keyword responder.
- `voices.dfy` (`Voices`): voice selection in `speak`.
- `tasks.dfy` (`Tasks`): task records and the checkbox update.
- `transcript.dfy` (`Transcript`): turns, the fixed strings, how the remote call ended,
  and the two steps of a send as functions on the transcript.
- `controller.dfy` (`Controller`): the class `BoChat`. Its fields `messages`, `notes`,
  `tasks` and `listening` are the component's state. Its methods are the state updates
  the component performs, each specified by the functions above.
- `wrappers.dfy` (`Wrappers`): `Option`.

A send is split into `BeginSend`, the synchronous part, and `ResolveSend`, the part
after the awaited call. `Send` composes the two for a send with no other send in
flight. How the remote call ended is an input value:

- `Parsed(reply)`: the body parsed as JSON, whatever the HTTP status.
- `Threw`: the network failed or the body was not JSON.

A non-2xx response whose body parses as JSON is treated like any parsed body:
it gets its truthy `reply`, otherwise the apology, and never the fallback.
This is because `fetch` does not throw on an HTTP status (bo_app_prototype.jsx:72-78).
The checkbox flips `done` on every task whose id matches (bo_app_prototype.jsx:192).
When ids are unique (`BoChat.Valid`), that is exactly one task. Fresh ids keep
ids unique. For the tasks read from storage, uniqueness is an assumption of the
constructor; the source does not check it.

## Model

| member | source | states |
|---|---|---|
| `JsString.Trim` | bo_app_prototype.jsx:62 | The trimmed text is the input with a leading and a trailing run of JavaScript whitespace removed: a slice of the input with only whitespace before and after it. It is empty exactly when every character is whitespace; otherwise it starts and ends with a non-whitespace character, so both runs were removed whole |
| `JsString.IsBlank` | bo_app_prototype.jsx:62 | The blank test of `sendMessage` (no text, or nothing left after `trim`) holds exactly when every character of the text is whitespace (the empty text included) |
| `JsString.TrimStart` | bo_app_prototype.jsx:62 | Leading whitespace removal yields the suffix after a run of whitespace characters, and that suffix does not start with whitespace |
| `JsString.TrimEnd` | bo_app_prototype.jsx:62 | Trailing whitespace removal yields the prefix before a run of whitespace characters, and that prefix does not end with whitespace |
| `JsString.Lower` | bo_app_prototype.jsx:98 | Lower-casing keeps the length and maps each character in place |
| `JsString.StartsWith` | bo_app_prototype.jsx:52 | `s.startsWith(p)` holds exactly when `s` is `p` followed by some rest |
| `JsString.Contains` | bo_app_prototype.jsx:99-104 | `includes` is substring containment: true exactly when the word occurs at some position of the text |
| `JsString.ContainsLowered` | bo_app_prototype.jsx:53 | The lower-cased text contains a word exactly when some stretch of the original text, lower-cased, equals the word |
| `JsString.LowerKeepsCaseless` | bo_app_prototype.jsx:98-99 | For a word without ASCII letters, the lower-cased text contains it exactly when the original text does |
| `Fallback.MatchIgnoresCase` | bo_app_prototype.jsx:98-104 | Each of the three trigger groups matches the lower-cased input exactly when it matches the original input |
| `Fallback.Classify` | bo_app_prototype.jsx:97-106 | Exactly one rule applies: the note rule when a note trigger occurs; the reminder rule when no note trigger but a reminder trigger occurs; the idea rule when only idea triggers occur; otherwise the default. These are stated on the original input, not its lower-cased copy |
| `Fallback.RuleReplyDistinct` | bo_app_prototype.jsx:101-105 | The four fixed replies are non-empty and pairwise different, so the reply identifies the rule |
| `Fallback.NoteBeatsReminder` | bo_app_prototype.jsx:99-103 | Input with both a note trigger and a reminder trigger gets the note confirmation |
| `Fallback.TriggerInsideWord` | bo_app_prototype.jsx:104 | Matching is by substring: a trigger inside a longer word ("البوست") still selects the idea rule |
| `Fallback.ReminderNeedsShadda` | bo_app_prototype.jsx:103 | The reminder verb written without the shadda matches no rule and gets the default reply |
| `Voices.IsArabicVoice` | bo_app_prototype.jsx:52 | A voice is Arabic exactly when its language tag has at least two characters and begins with "a" then "r"; an empty tag never qualifies, and a missing `lang` is taken as the empty tag |
| `Voices.IsFeminineVoice` | bo_app_prototype.jsx:53 | A voice is feminine exactly when some stretch of its name, with ASCII capitals lower-cased, reads "female", "woman" or "feminine" |
| `Voices.FindFirst` | bo_app_prototype.jsx:52-53 | `find` returns the first position whose element satisfies the predicate, and nothing exactly when no element does |
| `Voices.SelectVoice` | bo_app_prototype.jsx:51-54 | The first voice whose language starts with "ar" is chosen if any exists; otherwise the first whose name contains "female", "woman" or "feminine" in any ASCII case; none exactly when neither kind exists |
| `Voices.ArabicBeatsEarlierFeminine` | bo_app_prototype.jsx:52-53 | An Arabic voice is chosen even when a feminine-named voice comes before it |
| `Voices.NameMatchIgnoresCase` | bo_app_prototype.jsx:53 | A name "WOMAN" in capitals qualifies as feminine |
| `Tasks.Toggled` | bo_app_prototype.jsx:192 | The checkbox update keeps length, order, every id and every text, and flips `done` on exactly the tasks whose id is the clicked one |
| `Tasks.ToggleUnknownId` | bo_app_prototype.jsx:192 | Toggling an id no task carries changes nothing |
| `Tasks.ToggleTwice` | bo_app_prototype.jsx:192 | Toggling the same id twice restores the list |
| `Tasks.ToggleKeepsUniqueIds` | bo_app_prototype.jsx:192 | Toggling keeps task ids unique exactly when they were |
| `Tasks.ToggleFlipsOnlyMatch` | bo_app_prototype.jsx:192 | With unique ids, the task carrying the clicked id has `done` flipped and every other task is unchanged |
| `Tasks.ToggleChangesAtMostOne` | bo_app_prototype.jsx:192 | With unique ids, of any two tasks the checkbox leaves at least one unchanged |
| `Tasks.AddKeepsUniqueIds` | bo_app_prototype.jsx:115-117 | Prepending a task with a fresh id keeps ids unique exactly when they were |
| `Tasks.AddThenToggle` | bo_app_prototype.jsx:115-117 | A task just added with a fresh id and then toggled is done, with its text unchanged and the older tasks untouched |
| `Transcript.FinalReply` | bo_app_prototype.jsx:77-88 | The final reply is never empty. For a parsed body it is the body's `reply` when that is present and non-empty, and the fixed apology when `reply` is absent or empty. When the call threw, it is the fallback rule's reply on the input |
| `Transcript.ApologyIsNotFallback` | bo_app_prototype.jsx:78 | The apology differs from every fallback reply |
| `Transcript.BlankSendIgnored` | bo_app_prototype.jsx:62 | Sending "", "   " or a tab and newline leaves the transcript unchanged |
| `Transcript.Begun` | bo_app_prototype.jsx:62-68 | Blank text leaves the transcript as it was. For non-blank text the begin step adds exactly two turns: the untrimmed user turn, then the placeholder. Every earlier turn is kept, and the placeholder is left last |
| `Transcript.DropLast` | bo_app_prototype.jsx:82 | `slice(0, -1)` is the prefix one turn shorter than the transcript, and empty for an empty transcript |
| `Transcript.Resolved` | bo_app_prototype.jsx:82-83 | The resolve step keeps every turn but the last and makes the last an assistant turn with the reply; the length is kept, or is one for an empty transcript |
| `Transcript.SendTranscript` | bo_app_prototype.jsx:61-92 | Begin then resolve turns a transcript `m` into `m` plus the user's turn plus the assistant's reply: it ends at `|m|+2` with `m` and the user turn preserved |
| `Transcript.SendAddsOneTurnEach` | bo_app_prototype.jsx:61-92 | A whole send adds exactly one user turn and exactly one assistant turn: the placeholder never survives beside the reply |
| `Controller.BoChat.constructor` | bo_app_prototype.jsx:14-20 | Mounting starts with the greeting as the only turn, the stored notes and tasks, and the microphone off; stored tasks with unique ids establish the class invariant |
| `Controller.BoChat.BeginSend` | bo_app_prototype.jsx:61-68 | Accepts exactly the non-blank texts; the transcript becomes the begin-step transcript and nothing else changes |
| `Controller.BoChat.LocalFallbackReply` | bo_app_prototype.jsx:97-106 | Returns the reply of the rule `Classify` picks. Notes gain the original input at the front exactly under the note rule. Nothing else changes |
| `Controller.BoChat.ResolveSend` | bo_app_prototype.jsx:70-94 | With the placeholder pending, the reply is `FinalReply`. The transcript drops its last turn and appends the reply. Notes change only when the call threw and the note rule applies |
| `Controller.BoChat.Send` | bo_app_prototype.jsx:61-95 | Blank text changes nothing. Otherwise the transcript gains exactly the user's turn and the final reply, and notes change only as the fallback's note rule says |
| `Controller.BoChat.AddTask` | bo_app_prototype.jsx:115-117 | Tasks become the new not-done task followed by the old list; id uniqueness is kept |
| `Controller.BoChat.SubmitTaskInput` | bo_app_prototype.jsx:181-186 | Enter on non-blank input adds the trimmed text as a task and clears the field; any other key press or blank input changes nothing; id uniqueness is kept |
| `Controller.BoChat.ToggleTask` | bo_app_prototype.jsx:192 | Tasks become the toggled list; id uniqueness is kept, and under it at most one task changes |
| `Controller.BoChat.ToggleListen` | bo_app_prototype.jsx:108-113 | Without a recogniser the flag is unchanged and only the alert is shown. With one, the flag flips: recognition stops if it was listening and starts otherwise |

## Left out

- Rendering: JSX, the SVG avatar, styling and scrolling to the newest message. These have no behaviour to state.
- The greeting button appends an assistant turn holding the greeting to `messages` and speaks it (bo_app_prototype.jsx:158-162); it is not modelled.
- The chat input's own text state (`setInput`) is presentation around the controller.
- The network call and `res.json()`. Their result is the `Outcome` input.
- The request payload `{message, memory}` is not modelled.
- A truthy `reply` that is not a string (a number or an object) is not modelled; `reply` is a string or absent.
- Browser storage and its JSON serialisation. The stored notes and tasks are constructor parameters.
- Persistence writes after each change are not modelled.
- Storage content that fails to parse makes the source throw at mount; this is not modelled.
- The serialisation round trip is therefore not stated.
- The Web Speech API: recogniser construction and its callbacks, `speechSynthesis.cancel`/`speak`, the `speaking` flag and the floating-point `rate`/`pitch`.
- The recogniser's result callback sends the transcript through the same `sendMessage`, which `Send` models.
- The recogniser's end callback, which clears `listening`, is not modelled.
- `ResolveSend` assumes that `speak` does not throw. In the source it runs inside the same `try`, so an exception there would replace the reply with the fallback.
- Overlapping updates: `ResolveSend` requires the placeholder to be the last turn. Two races are not modelled. A second send may append its turns after the placeholder. The greeting button may be clicked while a reply is pending. In both, the later `slice(0, -1)` (bo_app_prototype.jsx:82, :90) drops the newer turn, such as the greeting, and leaves the placeholder in the transcript.
- `JsString.Lower`: lower-cases ASCII capitals only, not full Unicode case mapping. The fallback's trigger words are Arabic and have no case, so this is exact for them (`MatchIgnoresCase`). The voice-name regex has the `i` flag without `u`, so its case folding never maps a non-ASCII character onto the ASCII words it seeks, so this is exact there too.
- `Date.now()` as the task id: the id is a parameter of `AddTask` and `SubmitTaskInput`, required to be fresh; two clicks in the same millisecond would collide in the source.
- The constructor assumes the stored tasks' ids are unique, the same freshness assumption carried across sessions; the source parses storage unchecked (bo_app_prototype.jsx:20).
