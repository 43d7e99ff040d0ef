# Transcript player timeline, in Dafny

This project models the core of a browser transcript viewer. The viewer
highlights each word of a spoken transcript while a simulated playback
timeline advances. The repository's React component `Main` holds this
logic, and a small utility `keyify` gives each record a rendering key.

- `transcript.dfy` (module `Transcript`): the document's words, speakers
  and utterances. Times are seconds, kept as `real`. A word's window on the
  millisecond timeline runs from its start times 1000 to that plus its
  duration times 1000.
- `timeline.dfy` (module `Timeline`): the component's pure logic. It holds
  the activation predicate, the nested fold for the end of the timeline,
  the speaker table and its lookup, the settled value of one tick, and
  the enable rules of the Start, Pause and Restart buttons.
- `main_component.dfy` (module `MainComponent`): the component as a class
  `Main`. Its state is `timeline`, `inProgress` and the stored interval
  handle `ticking`. The browser's timer table is modelled too: `intervals`
  is the set of live interval handles and `nextHandle` is the next handle
  that `setInterval` gives out. `Valid()` is the object invariant. It says
  that once a tick has settled, `0 <= timeline`, and `timeline` is below
  `endOfTimeline` unless it is 0. `OneIntervalWhileInProgress()` says that
  exactly the stored interval is live while in progress and none otherwise.
- `util.dfy` (module `Util`): `keyify` over records modelled as ordered
  field lists, with the identifier generator as an oracle.
- `wrappers.dfy` (module `Wrappers`): `Option`.

Start is not idempotent while running. A second `startTimeline`
installs a second interval and overwrites the stored handle (`src/components/Main/Main.js:118-120`). A later pause
then clears only the newer interval. The leaked interval goes on ticking
the paused timeline, as `DoubleStartLeaksScenario` shows. The Start
button is disabled while in progress, so the user interface never makes
this call.

## Model

| member | source | states |
|---|---|---|
| `Timeline.IsActive` | src/components/Main/Main.js:167-180 | the activation predicate: a symbol is never active, and an active word has a non-negative duration and a window that holds the timeline value |
| `MainComponent.Main.DetermineIfActive` | src/components/Main/Main.js:167-180 | activation at the object's current timeline value; an active word is no symbol and its window holds that value |
| `Timeline.SymbolNeverActive` | src/components/Main/Main.js:172 | a symbol word is never active, whatever the timeline value |
| `Timeline.ActiveOnClosedWindow` | src/components/Main/Main.js:174-179 | a non-symbol word whose window [s, e] starts and ends on whole milliseconds s and e is active at s and at e, not at s-1 or e+1, and active at t exactly when s <= t <= e |
| `Timeline.ZeroDurationActiveOnlyAtStart` | src/components/Main/Main.js:175-179 | a non-symbol word of zero duration is active exactly at its start millisecond |
| `Timeline.NegativeDurationNeverActive` | src/components/Main/Main.js:175-179 | a word with negative duration is never active, because the input is not validated and its window is empty |
| `Timeline.ActiveWindowIsContiguous` | src/components/Main/Main.js:179 | the timeline values at which a word is active form one contiguous run |
| `Timeline.AdjacentWordsBothActiveAtBoundary` | src/components/Main/Main.js:179 | two words where one starts as the other ends are both active at the shared millisecond |
| `Timeline.HalfSecondWordScenario` | src/components/Main/Main.js:167-180 | a word starting at 1.0 s and lasting 0.5 s is active at 1200 ms and not at 1600 ms |
| `Timeline.SymbolAtItsStartScenario` | src/components/Main/Main.js:172 | a symbol starting at 2.0 s is not active at 2000 ms |
| `Timeline.WordsEnd` | src/components/Main/Main.js:65-72 | the per-utterance fold from 0 is non-negative, at least every word's end, and equal to some word's end unless it is 0 |
| `Timeline.EndOfTimeline` | src/components/Main/Main.js:63-74 | the nested fold from 0 is non-negative, at least the end of every word of every utterance, and equal to some word's end unless it is 0 |
| `Timeline.WordsEndAppend` | src/components/Main/Main.js:65-72 | folding two runs of words one after the other gives the larger of their two ends |
| `Timeline.EndOfTimelineIsEndOfAllWords` | src/components/Main/Main.js:62-74 | the nested fold equals a single fold over all words of the transcript in order |
| `Timeline.EndOfTimelineIsLeastBound` | src/components/Main/Main.js:63-74 | every non-negative bound on all word ends is at least the end of the timeline |
| `Timeline.ActiveWordWithinTimeline` | src/components/Main/Main.js:63-74 | a word of the transcript is active only at timeline values up to the end of the timeline |
| `Timeline.SpeakersById` | src/components/Main/Main.js:57-60 | the table's ids are exactly the ids of the speaker list |
| `Timeline.LookupFindsLastSpeaker` | src/components/Main/Main.js:57-60 | a lookup gives the name of the last speaker in the list with that id, and nothing exactly when no speaker has the id |
| `Timeline.NextTimeline` | src/components/Main/Main.js:98-111 | a settled tick leaves either the old value plus the tick size or 0, and the result is below the end unless it is 0 |
| `Timeline.NextTimelineStaysInRange` | src/components/Main/Main.js:98-111 | a settled tick from a non-negative value stays in [0, end], and is below the end unless it restarted at 0 |
| `Timeline.TicksAdvanceBeforeEnd` | src/components/Main/Main.js:98-111 | from 0, n ticks whose total stays below the end leave the timeline at n times the tick size |
| `Timeline.AutoRestartAtEnd` | src/components/Main/Main.js:106-108 | the first tick whose total reaches the end puts the timeline back at 0 |
| `Timeline.EnabledControls` | src/components/Main/Main.js:213-219 | Pause is enabled exactly when in progress, Start exactly when Pause is not, and Restart is disabled only at timeline 0 |
| `MainComponent.Main.Buttons` | src/components/Main/Main.js:213-219 | the object's enabled buttons: Start exactly when not in progress, Pause exactly when in progress |
| `Timeline.ControlsFollowPhase` | src/components/Main/Main.js:213-219 | Start and Pause are never enabled together; stopped enables only Start; paused enables Start and Restart; running enables Pause, and Restart once the timeline is not 0 |
| `MainComponent.Main.constructor` | src/components/Main/Main.js:45-75 | starts at timeline 0, not in progress, with no interval, and with the speaker table and the end of the timeline derived from the input |
| `MainComponent.Main.GetSpeakerById` | src/components/Main/Main.js:89-91 | gives the name of the last speaker with that id, and nothing exactly when no speaker has it |
| `MainComponent.Main.StartTicking` | src/components/Main/Main.js:118-120 | installs a new live interval and stores its handle, overwriting the old handle and leaving earlier intervals live |
| `MainComponent.Main.StopTicking` | src/components/Main/Main.js:127-129 | clears only the interval whose handle is stored, and keeps the handle stored |
| `MainComponent.Main.StartTimeline` | src/components/Main/Main.js:136-139 | sets in progress with one new live interval and the timeline unchanged; from a stopped or paused state under the one-interval discipline exactly that interval is live; Pause is enabled and Start is not |
| `MainComponent.Main.PauseTimeline` | src/components/Main/Main.js:146-149 | clears in progress and the stored interval and keeps the timeline; under the one-interval discipline no interval is live afterwards, so a pause while paused changes nothing |
| `MainComponent.Main.RestartTimeline` | src/components/Main/Main.js:156-159 | from any state, leaves timeline 0, not in progress, the stored interval cleared, and only Start enabled |
| `MainComponent.Main.ProgressTimeline` | src/components/Main/Main.js:98-111 | adds the tick size, then restarts when the sum reaches the end; afterwards 0 <= timeline <= end, and the invariant and the one-interval discipline are kept |
| `MainComponent.Main.ComponentWillUnmount` | src/components/Main/Main.js:77-81 | clears the stored interval when a handle was stored; under the one-interval discipline no interval is left live |
| `MainComponent.AutoRestartScenario` | src/components/Main/Main.js:98-111 | with one word ending at 3000 ms and 1000 ms ticks, the third tick leaves the player stopped at 0 with no interval live |
| `MainComponent.StartPauseRestartScenario` | src/components/Main/Main.js:136-159 | start, one 1000 ms tick, then pause leaves the player paused at 1000 ms with no interval live; a restart then leaves it stopped at 0, still with no interval live |
| `MainComponent.DoubleStartLeaksScenario` | src/components/Main/Main.js:118-120 | two starts then a pause leave one interval live, and its tick moves the paused timeline to 1000 ms |
| `Util.Define` | src/util.js:10 | after defining a field, that field holds the new value and every other field holds its old value |
| `Util.DefineAppendsNewField` | src/util.js:10 | a field the record lacks is added last, with the other fields unchanged and in order |
| `Util.DefineKeepsNames` | src/util.js:10 | a field the record already has keeps its place, so the field names and their order stay the same |
| `Util.DefineNamesFrom` | src/util.js:10 | defining a field brings in no name other than its own |
| `Util.DefineKeepsDistinct` | src/util.js:10 | a record with distinct field names keeps them distinct after a definition |
| `Util.WithKey` | src/util.js:10 | the copied record holds the given key as `__key` and every other field of the record with its value |
| `Util.Keyify` | src/util.js:9-11 | the output has the input's length; record i holds the oracle's key i as `__key` and every other field of input record i with its value |
| `Util.KeyifyKeepsFieldOrder` | src/util.js:10 | output record i is input record i with `__key` added last, or with the same names in the same order when it had `__key`; distinct names stay distinct |
| `Util.DistinctOracleGivesDistinctKeys` | src/util.js:10 | when the oracle's keys are pairwise distinct, so are the output records' keys |

## Left out

- Rendering is not modelled. This covers `renderStatements` and the JSX of `render` (src/components/Main/Main.js:187-226), the word span component and the DOM bootstrap. Only the enable rules of the three buttons are kept, as `EnabledControls`.
- The keyed copies of speakers and utterances in the constructor's state (src/components/Main/Main.js:53-54) are used only as rendering keys, so the class does not hold them. `Util.Keyify` models the function that makes them.
- The prop-type declarations are runtime shape checks and are not modelled; the word's four fields shape `Transcript.Word`.
- Real timer scheduling is not modelled. `setInterval` becomes a new handle from a counter that starts at 1, and `clearInterval` removes a handle from the live set. A tick is an explicit call that the environment makes only while some interval is live.
- React's `setState` is asynchronous; the model applies each update at once, and the tick's callback runs straight after its update.
- The constants file that defines the tick size is not part of this model; the tick size is a positive constructor parameter.
- Floating point is not modelled. Times are exact reals and the timeline is an exact integer, so the rounding of `* 1000` and of the additions is not captured. The word's times and symbol flag are optional in the source, and a word missing a time gets NaN times there, so it is never active and the end fold skips it; `Transcript.Word` always has all four fields and cannot represent such a word.
- The random identifier generator is an oracle: a sequence with one key per record. Collision-freedom of random identifiers is not claimed.
- Speaker ids are integers and the table is a `map<int, string>`. JavaScript accepts any number as an id, but the table cannot hold a non-integer id such as 1.5.
- A missing speaker gives `None`, where the source gives `undefined`.
- Records are ordered field lists. The JavaScript rule that places integer-like names before other names is not modelled; it does not affect `__key`, which is placed after the names the record already has, unless the record already has `__key`, which then keeps its place.
- Immutability of the input to `keyify` follows from value semantics: a Dafny sequence of records cannot be changed in place.
- `MainComponent.Main.ProgressTimeline`: the bound `timeline <= endOfTimeline` holds once a tick has settled. Between the addition and the restart it does not hold, because the sum can pass the end.
