# ShowMesh native component: a verified model

This project models the native component of ShowMesh, the plugin that runs on every FPP player of a show, and proves
what it is meant to guarantee. Every `.dfy` file is one module with the file's name; `dafny verify dfyconfig.toml`
checks the whole project. `Basics` holds what the others share.

Code that changes state step by step is modelled as classes and loops, each proved equal to a function on values; the
guarantees are then proved about those functions, over all inputs or over whole runs. Protocols with several parties
or with crashes are state machines whose steps use the same functions.

* **Brightness.** `Fading` holds one fade, `Brightness` the state of an engine and every command on it,
  `BrightnessEngine` the class with the frame loop, `ChannelRanges` the channel lists and their precomputed spans,
  `ChannelRangesSetting` the settings they are read from, `Restart` what a restart resumes. `Commands`, `PeerState` and
  `SettingGrammar` say in plain numbers and bytes what commands, received states and settings mean.
* **The MultiSync group.** `MultiSync` is the network: hosts that issue commands, publish, and adopt. A message may be
  duplicated, delayed and reordered. `Convergence` proves agreement, `NoStorm` that traffic ends, `ClockBounds` when
  the plausibility guards let everything through, `WeatherGate` how gates open and close.
* **JSON.** `Utf8`, `JsonNumber`, `JsonNumberMeaning`, `JsonString` and `Json` are the parser and the printer of RFC
  8785 as functions; `JsonParser` and `JsonWriter` are the same as loops over a position. `JsonRoundTrip`,
  `JsonAccepted`, `JsonRefused`, `JsonCanonical` and `JsonLocal` prove what parser and printer mean to each other,
  `JsonScanner` and `JsonCursor` cover the second, independent scanner, and `PlaylistIdentity` the entry keys.
  `JsonGrammar`, `JsonNumberGrammar` and `JsonEscapes` tie the parser to the grammar of RFC 8259, `JsonLayout` the
  printer to the layout of RFC 8785, and `MemberNames` and `SavedRecord` the documents to the names they use.
* **The fallback executor.** `FallbackState`, `SavedState`, `FallbackProgram`, `OutageDetector` and `NodeDelivery` are
  its parts. `Executor` is a tick, a playlist callback and a start as functions whose trace lists every write and every
  request in order, so that a crash is a trace cut short. `FallbackExecutor` is the class. `ExecutorSafety`,
  `ExecutorRun`, `ExecutorLimits`, `ExecutorReports`, `ExecutorRecord` (what a start can read back) and `ExecutorOnce`
  hold the guarantees; `ExecutorAgain` says exactly where at most once ends, `ExecutorWitness` runs it there,
  and `ExecutorLeftover` is about a state file that could not be removed. `ExecutorHistory`, `EntryObstacles`,
  `ExecutorModes`, `TickSchedule` and `NodeRetries` say what its steps do in terms of callbacks, entries, times and
  answers.
* **Stores and streams.** `CallbackQueue`, `Draining` and `Observations` (gap evidence and what is reported),
  `FileStore`, `SequenceStore` and `BrightnessStore` (crashes and failing writes on disk), `Sha256` (streaming),
  `CivilDate`, `Rfc3339` and `Timestamps` (dates).

## What was found

Properties that fail, each with the exact condition under which it holds, and, at the end, two notes on the code.

* Two ranges of one list may share channels and pass validation. Lists that fit keep their ranges apart exactly when
  they are valid and no range but the one that starts last runs past 2^32 (`ChannelRanges.ValidListMeansApart`); a pair
  that overlaps is accepted for all but a few channel counts (`ChannelRanges.WrappedOverlapIsAccepted`) and gets into
  the engine as FPP's output ranges, never from a setting (`ChannelRangesSetting.OverlapReachesTheEngine`,
  `ChannelRangesSetting.ConfiguredFits`).
* The precomputed spans are the per-channel rule exactly when no apply range wraps (`ChannelRanges.SpansForFit`); one
  that does is passed over whole, the default span of 2^32 - 1 channels among them (`ChannelRanges.FullUniverseHasNoSpan`).
  An exclusion that wrapped would have channels scaled twice (`ChannelRanges.WrappedExclusionScalesTwice`), but what is
  configured never has one.
* An open gate is not safe from closes made before it. It stays open through every run without a coordinator close
  exactly if no closed gate that is newer is held, or in flight to a host that would take it
  (`WeatherGate.StaysOpenIff`), so an open write holds exactly if its revision is that great
  (`WeatherGate.OpenWriteHoldsIff`). A revision greater than any given is not enough: a close repeated at one host
  climbs past the revision given, or starts past it (`WeatherGate.RepeatedCloseUndoesLaterOpen`).
* Sequence numbers rise through crashes and failing writes exactly if at every start that leads to another publication
  the disk holds the highest number published before (`SequenceStore.NumbersRiseIff`). A failed write that
  neither a later one nor the one of a clean stop made up for is the way to a repeat
  (`SequenceStore.DiskFallsBehindIff`, `SequenceStore.FailedStoreRepeats`, `SequenceStore.StopMakesUp`).
* A closed gate whose flush returned true survives crashes and failing writes (`BrightnessStore.RestartsClosed`), but not
  every loss of the primary file. A flush passes over rotations that fail, so a close can be written twice and still
  stand in one file (`BrightnessStore.RotationsPassedOver`); `BrightnessStore.GateSurvivesLossIff` says exactly when it
  survives, and that rotations that work in the flush that wrote it are enough. That holds below the cap of the gate
  revision, where every turn of the gate raises it (`BrightnessStore.EngineFollows`). At the cap they are not enough
  (`BrightnessStore.CloseAtTheCapIsLost`), and only the rule for one flush is left (`BrightnessStore.BothHoldIff`).
* A saved executor state can be read back exactly when its texts are valid UTF-8, its playlist has a name and no node is
  named twice (`SavedState.SavedStateComesBack`). The resolver lets an entry through that names a node twice: such a
  node gets two ids for one occurrence (`ExecutorAgain.OneIdPerNode`), the record is written and then refused, and after
  a crash the entry is new (`ExecutorAgain.CrashForgetsIff`). `ExecutorWitness.RepeatedNodeIsSentAgain` is such a run.
* When the record's first write fails the requests go out all the same, and a crash before its last write leaves the
  entry as new as it was (`ExecutorAgain.UnrecordedForgetsIff`).
* At most once ends at a hand-back, and the settle window after a restart is one: the entry on record is sent again
  exactly if that window is over and something is due (`ExecutorAgain.SettledHandBackSendsAgain`).
  `ExecutorWitness.SettledEntryIsSentAgain` is such a run.
* A state file that cannot be removed when the fallback is handed back is passed over. A start then resumes what was
  handed back exactly if the file can be read and its cutoff has not passed
  (`ExecutorLeftover.FailedRemovalResumesIff`), under another program exactly if one was installed meanwhile that
  differs in package, revision or expiry (`ExecutorLeftover.LeftoverFitsIff`).
* A program is first looked up with an empty entry key. One that has a single entry with that key, and it incomplete,
  counts as a program that does not verify, for every other entry too (`EntryObstacles.UsableIff`).
* A comment in `native/adapters/shared/fallback_executor.h` (line 1348) says that a delivery cut short is retried by
  the next start. The code that resumes (lines 652-667) never retries; the model follows the code.
* A call that configures ranges can leave the engine, exclusions included, as it was: `ChannelRangesSetting.ConfiguredIff`
  says exactly when.

## Model

| member | source | states |
|---|---|---|
| `Fading.ValueBetweenEnds` | native/include/showmesh/fading_value.h:56-73 | A fade's value never leaves the interval between its start and its target, so a fade between percents is a percent. |
| `Fading.ValueMonotone` | native/include/showmesh/fading_value.h:56-73 | Along time a running fade only moves towards its target. |
| `Fading.ReplacementIsContinuous` | native/include/showmesh/fading_value.h:28-54 | Replacing a running fade never jumps: at the moment of the call the value is unchanged unless the target applies at once; a window holds the value until it starts; the target is reached at the end. |
| `Fading.ValueIsEven` | native/include/showmesh/fading_value.h:56-73 | Between its ends a fade has gone as much of its way as of its time. |
| `Fading.FadingValue.FadeTo` | native/include/showmesh/fading_value.h:28-41 | The method leaves exactly the fade the lemmas speak about, from the interpolated value. |
| `Fading.FadingValue.FadeBetween` | native/include/showmesh/fading_value.h:45-54 | Likewise for a window, with its early start and its past end. |
| `Commands.SetCeilingMeans` | native/src/brightness.cpp:127-134 | A ceiling of p percent over s seconds is taken exactly for 0 <= p <= 100 and 0 <= s <= 86400: p from s seconds on, on the way there evenly from the value shown, the gain, the gate and what was last applied as they were, one revision more, and a key above the old one; otherwise nothing changes. |
| `Commands.SetGainMeans` | native/src/brightness.cpp:136-142 | The same for a gain, with the ceiling as it was. |
| `Commands.SetGainBetweenMeans` | native/src/brightness.cpp:144-154 | A gain between two times: the value shown is held until the window starts, then goes evenly to p at its end; a window that is over, or is none, applies p at once; one that reaches more than a day ahead is refused. |
| `Commands.SetWeatherGateMeans` | native/src/brightness.cpp:163-168 | A gate write is always taken: the gate is as told, its revision the least above the one held and not below the one given, up to 2^53 - 1, and both fades stay. |
| `Brightness.KeyTrichotomy` | native/src/brightness.cpp:326-333 | Of two different ordering keys (time, id, hash) exactly one is the greater, and no key is greater than itself. |
| `Brightness.KeyLessTransitive` | native/src/brightness.cpp:326-333 | And the order is transitive, so adoption never goes round in circles. |
| `Brightness.ComposedMonotone` | native/src/brightness.cpp:156-161 | The output percent is within 0 to 100 and never rises when ceiling or gain falls. |
| `Brightness.PercentIsProduct` | native/src/brightness.cpp:156-161 | With an open gate the output percent is ceiling times gain over 100, to the nearest, a half counting up; with a closed one it is 0. |
| `BrightnessEngine.Scale` | native/src/brightness.cpp:229 | A scaled byte is the byte times the percent over 100, rounded to the nearest whole number, never above the byte it was; 100 percent changes nothing and 0 percent blacks out. |
| `BrightnessEngine.ScaleMonotone` | native/src/brightness.cpp:229 | A darker byte or a lower percent never gives a brighter byte. |
| `BrightnessEngine.BrightnessEngine.ApplyToFrame` | native/src/brightness.cpp:203-232 | A closed gate zeroes every channel. With an open gate and any valid configuration each channel that some unwrapped apply range and no exclusion holds is scaled exactly once, in place, and every other byte is untouched. What a reached byte becomes is also said without the percent: the byte dimmed at the ceiling and the gain shown now. |
| `BrightnessEngine.DimmedBounds` | native/src/brightness.cpp:203-232 | In numbers: a dimmed byte is within half, and half a percent of the byte, of byte times ceiling times gain over 10000; at 100 with 100 no byte changes, and where either is 0 all are 0. |
| `BrightnessEngine.ScaleSpans` | native/src/brightness.cpp:221-231 | The frame loop over ordered spans scales exactly the channels the spans cover, each once, cut at the end of the buffer. |
| `BrightnessEngine.SplitSpan` | native/src/brightness.cpp:186-200 | The inner loop with its continue and its two breaks cuts the sorted exclusions out of one span. |
| `BrightnessEngine.BrightnessEngine.RecomputeScaledSpans` | native/src/brightness.cpp:170-201 | The rebuilt spans are those of the configuration held. |
| `BrightnessEngine.BrightnessEngine.ValidateOneList` | native/src/brightness.cpp:17-41 | Accepts a list exactly when each range fits and, after sorting, no neighbours overlap. |
| `BrightnessEngine.BrightnessEngine.ConfigureRanges` | native/src/brightness.cpp:118-125 | A valid configuration replaces ranges, count and spans together; an invalid one changes nothing. |
| `BrightnessEngine.BrightnessEngine.AdoptState` | native/src/brightness.cpp:275-358 | The method on the engine's fields makes the very transition the group's proofs use, for every outcome. |
| `BrightnessEngine.BrightnessEngine.SetWeatherGate` | native/src/brightness.cpp:163-168 | Likewise for the coordinator's gate write. |
| `BrightnessEngine.BrightnessEngine.RestoreFromPersisted` | native/src/brightness.cpp:389-499 | Likewise for the restore, on every branch. |
| `BrightnessEngine.BrightnessEngine.SettleSafeAfterUntrustedRestart` | native/src/brightness.cpp:501-511 | Likewise for the safe settle. |
| `ChannelRanges.ValidListMeansApart` | native/src/brightness.cpp:17-41 | Of lists whose ranges fit, no two ranges share a channel exactly if comparing neighbours after a sort accepts the list and no range runs past 2^32 but the one that starts last. |
| `ChannelRanges.WrappedOverlapIsAccepted` | native/src/brightness.cpp:26-41 | Two overlapping ranges, and the channel counts for which validation lets them through. |
| `ChannelRanges.SpansForReach` | native/src/brightness.cpp:170-201 | For every validated configuration the precomputed spans are in order, disjoint, and cover exactly the channels in an unwrapped apply range and outside every exclusion. |
| `ChannelRanges.ReachedIsSelected` | native/src/brightness.cpp:203-232 | Where no apply range wraps those are the channels the per-channel rule selects. |
| `ChannelRanges.SpansForFit` | native/src/brightness.cpp:170-201 | So they are the per-channel rule exactly when no apply range wraps. |
| `ChannelRanges.DefaultSpanFits` | native/src/brightness.cpp:173-177 | With no apply range this holds exactly unless the universe has 2^32 - 1 channels. |
| `ChannelRanges.WholeUniverseCovers` | native/src/brightness.cpp:173-177 | That span is every channel from the first on, up to the count, or up to 2^32 - 2 where there is none. |
| `ChannelRanges.FullUniverseHasNoSpan` | native/src/brightness.cpp:173-177 | For 2^32 - 1 channels the default span's end wraps to zero and no span is left. |
| `ChannelRanges.WrappedExclusionScalesTwice` | native/src/brightness.cpp:178-200 | A valid configuration whose one exclusion wraps: two spans that overlap and cover channels the exclusion holds. |
| `ChannelRangesSetting.StrictToken` | native/src/channel_ranges_setting.cpp:26-35 | A range the strict parser accepts has channels, is one-based and does not wrap. |
| `SettingGrammar.StrictIff` | native/src/channel_ranges_setting.cpp:10-92 | The strict reader takes white space as no ranges, and otherwise exactly lists, with commas between, of start and count in one to ten digits each about a hyphen, trimmed, one-based and ending by 2^32 - 1. |
| `SettingGrammar.LooseTokenIff` | native/src/channel_ranges_setting.cpp:39-70 | A token the forgiving reader takes: two numbers about the first hyphen, each the way strtoull reads it to the end: white space, a sign, digits, cut off at 2^64 - 1 and from there backwards behind a minus. |
| `SettingGrammar.LooseListIs` | native/src/channel_ranges_setting.cpp:39-70 | It goes from comma to comma and leaves out exactly what is no such token. |
| `ChannelRangesSetting.FormatIsListText` | native/src/channel_ranges_setting.cpp:94-101 | A printed list: each start and count in decimal about a hyphen, with commas between. |
| `ChannelRangesSetting.StrictParseUndoesFormat` | native/src/channel_ranges_setting.cpp:72-101 | Strict parsing gives a printed list back exactly when every range in it is one-based, non-empty and ends by 2^32 - 1. |
| `ChannelRangesSetting.LooseParseOfFormat` | native/src/channel_ranges_setting.cpp:39-70 | The parser that skips bad tokens keeps from a printed list exactly the ranges a setting can hold. |
| `ChannelRangesSetting.ConfiguredIff` | native/src/channel_ranges_setting.cpp:103-155 | The engine takes a new configuration exactly when the exclusions it ends up with are valid and some list, the whole buffer last, is. |
| `ChannelRangesSetting.StoredExclusionsComeBack` | native/src/runtime.cpp:252-271 | A list that was validated and stored is the exclusion list a later start configures. |
| `ChannelRangesSetting.StoredApplyListComesBack` | native/src/runtime.cpp:252-271 | A stored apply list is the one a later start configures, before the output ranges and the whole buffer. |
| `ChannelRangesSetting.ConfiguredFits` | native/src/channel_ranges_setting.cpp:103-155 | Of every configuration the engine takes: its exclusions never wrap nor overlap, its apply ranges share no channel exactly if only the last may wrap, its spans are the per-channel rule exactly if none does, and only output ranges, or a whole buffer of 2^32 - 1 channels for the spans, can break that. |
| `ChannelRangesSetting.OverlapReachesTheEngine` | native/src/channel_ranges_setting.cpp:133-155 | Output ranges that overlap are what the engine holds after the call, for all those channel counts. |
| `ChannelRangesSetting.ParseChannelRangesSettingStrict` | native/src/channel_ranges_setting.cpp:72-92 | The token loop computes the strict reading, and no list at all once a token is bad. |
| `ChannelRangesSetting.ParseChannelRangesSetting` | native/src/channel_ranges_setting.cpp:39-70 | The token loop computes the forgiving reading. |
| `ChannelRangesSetting.FormatChannelRangesSetting` | native/src/channel_ranges_setting.cpp:94-101 | The loop prints the list the round trip speaks about. |
| `ChannelRangesSetting.ConfigureApplyRanges` | native/src/channel_ranges_setting.cpp:133-155 | The engine holds the first valid list of setting, output and whole buffer, or is unchanged. |
| `ChannelRangesSetting.ConfigureChannelRangesFrom` | native/src/channel_ranges_setting.cpp:103-131 | The whole call: the resulting configuration, and a rejected exclusion text reported once. |
| `Restart.RestoredFadeRule` | native/src/brightness.cpp:367-499 | For every recorded fade and any timing: never above the last applied value at the restart, never later above the larger of it and the target; untrusted timing, told in plain times, holds the darker of the two for good; a trusted fade is at the lesser of its own value and the last applied one, goes on evenly, and ends at its target at its time; with no fade recorded the value is the target. |
| `Restart.RestartIsNeverBrighter` | native/src/brightness.cpp:389-499 | The same for both values, at the restart and at every later time, on every outcome of the restore, which is adopted exactly for a known version and a plausible time; the gate on record is kept always. |
| `Restart.RestartOutputIsNeverBrighter` | native/src/brightness.cpp:389-499 | The composed output at the restart is at most the last applied pair composed. |
| `PeerState.AdoptedIff` | native/src/brightness.cpp:275-358 | A payload is adopted exactly if its version is 1, its time is in this century and at most a day ahead, its fades are dated so and at most a day long, and it outranks what is held: by its time, then by the first byte in which the names differ, then by the first in the hashes. |
| `PeerState.AdoptionTakes` | native/src/brightness.cpp:275-358 | Field by field what is taken of it: all of its brightness when adopted and none otherwise, and in the known version a newer closed gate either way; one revision more for each. |
| `PeerState.CaptureComesBack` | native/src/brightness.cpp:234-255 | A captured state restored, by whomever, is the host it was captured from, but for the two fades, which the rule for restored fades says. |
| `PeerState.UntrustedRecordIsDark` | native/src/brightness.cpp:389-425 | A record in another version or without a plausible time changes nothing but the gate and the two values, held for good at the darker of what was applied and what was meant. |
| `PeerState.SafeSettleMeans` | native/src/brightness.cpp:501-511 | The safe settle holds the given ceiling and a full gain for good, takes the gate it is told, and is a change of its own. |
| `MultiSync.NodeOnlyRises` | native/src/brightness.cpp:111-116 | Through any step keys and revisions never fall, ids never change, and an unchanged revision means an unchanged key and content. |
| `MultiSync.AdoptByKey` | native/src/brightness.cpp:275-358 | A payload past the guards is adopted exactly when its key is strictly greater; afterwards the receiver's key is at least the published one, and a closed gate it carried is covered. |
| `MultiSync.StepKeepsInv` | native/tools/convergence_model.h:141-191 | Commands, frames, publications and deliveries all keep the invariant: what was heard is held, what is held was published or is the node's own. |
| `MultiSync.RunKeepsInv` | native/tools/convergence_model.h:141-191 | So does every run. |
| `Convergence.HashesAgree` | native/src/brightness.cpp:234-255 | Once everything published has been heard all stored hashes are equal, although relays publish under their own id, for distinct and for equal ids. |
| `Convergence.SettledNodesAgree` | native/src/brightness.cpp:275-358 | Then, with no hash collision among the states published, all nodes hold one ceiling fade and one gain fade. |
| `Convergence.ConvergesWhenSettled` | native/tools/convergence_model.h:141-211 | The same for the end of every legal run from a fresh start. |
| `NoStorm.DeliveryRaisesOrKeeps` | native/src/brightness.cpp:275-358 | A delivery either changes nothing or strictly uses up room in a finite set of keys and gate revisions. |
| `NoStorm.TrafficEndsAfter` | native/src/runtime.cpp:536-556 | From any state, without further commands, publications and deliveries end: (room, publications owed, messages in flight) falls with every step. |
| `NoStorm.TrafficEnds` | native/src/runtime.cpp:536-556 | Every infinite run without commands has a last publication and a last delivery. |
| `NoStorm.ReplayChangesNothing` | native/src/brightness.cpp:325-336 | A payload heard once changes nothing at all when it arrives again, however much later. |
| `NoStorm.EventuallyAgree` | native/tools/convergence_model.h:141-211 | After the last command a fair run reaches a point from which all nodes hold identical fades for ever. |
| `ClockBounds.NothingIsTurnedAway` | native/src/brightness.cpp:287-309 | If clocks stay within a day less a millisecond per step, no delivery of any run is refused by a plausibility guard. |
| `ClockBounds.GroupAgrees` | native/tools/convergence_model.h:141-211 | A fresh group within those clocks agrees whenever nothing is owed and nothing is in flight, whatever the ids, commands, delays and duplicates were. |
| `WeatherGate.GateChanges` | native/src/brightness.cpp:279-286 | A gate opens exactly by a coordinator write at that host, and closes exactly by such a write or by a closed gate with a greater revision. |
| `WeatherGate.WriteRaisesRevision` | native/src/brightness.cpp:163-168 | A write raises the revision to at most max(old + 1, given), strictly below the cap; no other command touches it. |
| `WeatherGate.OpenGateStaysOpen` | native/src/brightness.cpp:279-286 | If no closed gate newer than an open one is held, or in flight to a host that would take it, that is so after every run without a coordinator close, replays included, and the gate is still open. |
| `WeatherGate.StaysOpenIff` | native/src/brightness.cpp:279-286 | An open gate is open after every run without a coordinator close exactly if no newer closed gate is held, or in flight to a host that would take it; otherwise some such run closes it. |
| `WeatherGate.OpenWriteHoldsIff` | native/src/brightness.cpp:163-168 | An open write is safe from every such run exactly if that is so of the revision it takes. |
| `WeatherGate.FreshOpenWriteHolds` | native/src/brightness.cpp:163-168 | In particular one with a revision above all that are held or in flight is. |
| `WeatherGate.GatesGrowByWritesOnly` | native/src/brightness.cpp:163-168 | The largest revision in the system grows only by a write, to at most max(old + 1, given). |
| `WeatherGate.SettledGates` | native/src/brightness.cpp:279-286 | Once nothing is owed and everything published was heard, every host holds at least the revision of every closed gate, and all closed gates have one revision. |
| `WeatherGate.RepeatedCloseUndoesLaterOpen` | native/src/brightness.cpp:163-168 | A close repeated any number of times at one host undoes an open at another exactly if it has climbed past that open, from the greater of the revision given and the one after the host's own, up to the cap. |
| `Utf8.EncodeIsRead` | native/src/json.cpp:254-336 | The encoding of every scalar value is read back as one character with that code point, whatever follows. |
| `Utf8.CodePointIsInjective` | native/src/json.cpp:299-336 | No over-long form is let through: two accepted characters with one code point have the same bytes. |
| `Utf8.ToUtf16IsInjective` | native/src/json.cpp:21-65 | Valid names with the same UTF-16 units are the same name. |
| `Utf8.LessUtf16IsTotal` | native/src/json.cpp:67-69 | On valid names UTF-16 comparison is strict and total: of two different names exactly one comes first. |
| `JsonCanonical.LessUtf16IsTransitive` | native/src/json.cpp:67-69 | And it is transitive, so sorting by it is well defined. |
| `Utf8.ByteOrderDiffers` | native/src/json.cpp:67-69 | It is not byte order: a pair of names the two orders sort differently. |
| `Utf8.EncodeIsUtf8` | native/src/json.cpp:254-272 | What is written for a code point is its UTF-8 by the table of RFC 3629, in numbers; so is what is read (`Utf8.CharIff`). |
| `Utf8.CharIff` | native/src/json.cpp:299-336 | A character is accepted exactly if it is the UTF-8 of a scalar value. |
| `Utf8.UnitsAreUtf16` | native/src/json.cpp:21-65 | The units of a code point are its UTF-16: itself below 0x10000, else a high and a low surrogate that add up to it. |
| `Utf8.LessUtf16Iff` | native/src/json.cpp:67-69 | A name comes before another exactly if its unit is smaller at the first unit that differs, or it is a proper prefix. |
| `JsonNumber.NumberIsRead` | native/src/json.cpp:544-579 | Every sign, digit string and exponent is laid out as a text that reads back as itself, in all four layouts. |
| `JsonNumber.NumberTextIsInjective` | native/src/json.cpp:544-579 | Distinct decimals print differently. |
| `JsonLayout.LayoutOf` | native/src/json.cpp:544-579 | The layout of section 3.2.2.3 of RFC 8785 for k digits and the point behind the n-th: whole exactly for k <= n <= 21, with a point exactly for -6 < n < k and n <= 21, exponential exactly for n > 21 or n <= -6; each as digits, zeros and point by number and place, and its exact length. |
| `JsonLayout.NumberTextIs` | native/src/json.cpp:517-579 | A number is 0, or those digits behind a minus sign exactly when negative. |
| `JsonLayout.ArrayLength` | native/src/json.cpp:426-451 | Nothing stands between the values of an array but one comma each. |
| `JsonLayout.ObjectLength` | native/src/json.cpp:452-478 | Nothing stands in an object but names, colons, values and commas. |
| `JsonNumberGrammar.PartsAreRead` | native/src/json.cpp:389-416 | Every number text of section 6 of RFC 8259 is read to its end, as whole and fraction together times ten to the exponent less the digits of the fraction. |
| `JsonNumberGrammar.ReadHasParts` | native/src/json.cpp:389-416 | And whatever is read as a number is such a text. |
| `JsonNumber.NumberIsLocal` | native/src/json.cpp:389-416 | A number reads the same in any text that agrees with it and does not extend it. |
| `JsonNumberMeaning.NormalFormIsUnique` | native/src/json.cpp:544-553 | Two decimals denote one real number exactly when their digits, exponent and sign are the same. |
| `JsonNumberMeaning.ParsedNumberMeans` | native/src/json.cpp:389-416 | An accepted text denotes its digits as a whole number, scaled by its exponent less the digits behind the point. |
| `JsonNumberMeaning.PrintedNumberMeans` | native/src/json.cpp:517-579 | What is printed is accepted and denotes the number given. |
| `JsonString.BodyIsRead` | native/src/json.cpp:338-387 | Every valid UTF-8 string reads back from its escaped form as itself. |
| `JsonString.BodyIsValid` | native/src/json.cpp:338-387 | Every string the parser yields, escapes and surrogate pairs included, is valid UTF-8. |
| `JsonString.EscapedIsInjective` | native/src/json.cpp:71-94 | Escaping is injective, for any bytes and any text behind. |
| `JsonEscapes.UnitEscapeMeans` | native/src/json.cpp:273-297 | Each scalar value below 0x10000, written as an escape with four hex digits in either case, is read as its UTF-8, whatever follows. |
| `JsonEscapes.PairMeans` | native/src/json.cpp:338-387 | Each one above, written as the escapes of its two surrogates, is read as its UTF-8: 0x10000 + (high - 0xD800) * 0x400 + (low - 0xDC00). |
| `JsonEscapes.SurrogatesPair` | native/src/json.cpp:338-387 | A low surrogate alone is refused, and a high one is taken exactly before the escape of a low one. |
| `JsonEscapes.ShortEscapeMeans` | native/src/json.cpp:338-387 | The eight escapes with a letter, against their bytes, and no others. |
| `JsonEscapes.RawMeans` | native/src/json.cpp:338-387 | Anything else in a string stands for itself exactly if it is a character, and no quote and no control character. |
| `JsonEscapes.EscapeMeans` | native/src/json.cpp:71-94 | What is printed for a byte: two bytes for the quote, the backslash and the five controls with a letter, an escape with lower-case digits for the other controls, and the byte itself for all else. |
| `JsonRoundTrip.ValueIsRead` | native/src/json.cpp:151-252 | A printed value reads back as itself wherever it stands, at its depth. |
| `JsonRoundTrip.PrintedIsAccepted` | native/src/json.cpp:426-478 | Values with valid strings, distinct names and at most 200 levels print as documents that parse to them. |
| `JsonAccepted.AcceptedIsWellFormed` | native/src/json.cpp:96-424 | Every accepted document has valid strings, distinct names and at most 200 levels. |
| `JsonGrammar.AcceptedIff` | native/src/json.cpp:96-424 | A text is accepted, as a value, exactly if the grammar of RFC 8259 derives it as that value, with distinct names and at most 200 levels. |
| `JsonRefused.PrintedIsAcceptedIff` | native/src/json.cpp:96-478 | A printed value is accepted, as itself, exactly when it has those three properties; otherwise it is refused. |
| `JsonRefused.CanonicalIsAcceptedIff` | native/src/json.cpp:426-478 | The same for canonical text, up to member order. |
| `JsonCanonical.SortPutsInOrder` | native/src/json.cpp:458-462 | Sorting distinct valid names gives a strictly increasing list. |
| `JsonCanonical.OrderIsUnique` | native/src/json.cpp:458-462 | One set of members has only one such list, so any sorting algorithm gives the same text. |
| `JsonCanonical.CanonicalIsAccepted` | native/src/json.cpp:586-598 | Parsing canonical text gives the value back with its members in order, and with its meaning. |
| `JsonCanonical.CanonicalizingTwice` | native/src/json.cpp:600-609 | Canonicalizing twice is canonicalizing once. |
| `JsonCanonical.CanonicalIffSameMeaning` | native/src/json.cpp:600-609 | Two accepted texts have one canonical text exactly when they denote the same value, objects being maps. |
| `JsonLocal.ValueIsLocal` | native/src/json.cpp:151-252 | A value depends only on its own bytes, not on what surrounds it, nor on how deep it stands. |
| `JsonLocal.SpanIsDocument` | native/src/json.cpp:96-115 | A value cut out of a document is a document with that value. |
| `JsonParser.Parser.Run` | native/src/json.cpp:100-115 | The recursive-descent class over a position and a depth accepts and yields exactly what the grammar functions say, for every text. |
| `JsonParser.Parser.ParseStringBody` | native/src/json.cpp:338-387 | The string loop reads what the string function reads and leaves the position behind the quote. |
| `JsonParser.Parser.ParseNumberText` | native/src/json.cpp:389-416 | Likewise for numbers. |
| `JsonParser.Parser.ParseArrayBody` | native/src/json.cpp:178-209 | Likewise for arrays, with the depth restored. |
| `JsonParser.Parser.ParseObjectBody` | native/src/json.cpp:211-252 | Likewise for objects, with the duplicate check along the members read. |
| `JsonParser.NameSeen` | native/src/json.cpp:228-230 | The duplicate scan finds a name exactly when a member before has it. |
| `JsonWriter.DecodeUtf16` | native/src/json.cpp:21-65 | The decoding loop computes the UTF-16 units used for sorting. |
| `JsonWriter.AppendEscaped` | native/src/json.cpp:71-94 | The escaping loop appends the quoted string. |
| `JsonWriter.WriteValue` | native/src/json.cpp:426-478 | The recursive printer appends exactly the canonical text. |
| `JsonScanner.ValueIsSkipped` | native/adapters/shared/fallback_program_fetch.h:229-322 | The second scanner steps over every value the parser accepts by exactly the parser's bytes. |
| `JsonScanner.LiteralIff` | native/adapters/shared/fallback_program_fetch.h:229-248 | On any text at all: a string literal is skipped exactly up to the quote that ends it, if no raw control character comes before. |
| `JsonScanner.ExtractIsFirstSpelled` | native/adapters/shared/fallback_program_fetch.h:334-367 | On every accepted object it gives the first root member spelled with the key asked for, or nothing. |
| `JsonScanner.ExtractedIsTheMember` | native/adapters/shared/fallback_program_fetch.h:334-367 | Soundness: what is extracted parses to the very value the parser gave the member whose key those bytes decode to. |
| `JsonScanner.UnescapedIsAlwaysFound` | native/adapters/shared/fallback_program_fetch.h:334-367 | Completeness: something is found exactly when a root key is spelled with those bytes, so every member spelled without escapes is found under its name. |
| `JsonCursor.Cursor.SkipStringLiteral` | native/adapters/shared/fallback_program_fetch.h:229-248 | The position loop over a string literal. |
| `JsonCursor.Cursor.SkipJsonContainer` | native/adapters/shared/fallback_program_fetch.h:250-280 | The container loop skips exactly what the scanner functions skip. |
| `JsonCursor.Cursor.SkipJsonValue` | native/adapters/shared/fallback_program_fetch.h:282-322 | Likewise for any value. |
| `JsonCursor.Cursor.ExtractRawRootMember` | native/adapters/shared/fallback_program_fetch.h:334-367 | Likewise for the whole extraction. |
| `PlaylistIdentity.PreimageIsInjective` | native/src/playlist_identity.cpp:53-64 | What is hashed for an entry determines all five fields, for any bytes in them. |
| `PlaylistIdentity.SharedKeyIsACollision` | native/src/playlist_identity.cpp:53-64 | Two entries share a key only where the hash collides. |
| `MemberNames.PreimageMeans` | native/src/playlist_identity.cpp:53-64 | What is hashed reads as an object of five members, by their names and in that order, with the five fields. |
| `MemberNames.IdentifiedIff` | native/src/playlist_identity.cpp:66-107 | An entry is identified exactly if player and playlist have names, the position is not below zero and the definition is JSON; its fields are those given, with the hash of the canonical definition. |
| `PlaylistIdentity.OneKeyPerEntry` | native/src/playlist_identity.cpp:66-107 | Two entries, however their definitions are spelled, have one key exactly when they stand at the same place of the same playlist on the same player and their definitions mean the same, as long as the hash keeps apart the distinct texts it is given. |
| `CivilDate.CivilAndBack` | native/adapters/shared/fallback_program_fetch.h:417-456 | Every real date turned into a day number and back is itself. |
| `CivilDate.DaysAndBack` | native/adapters/shared/fallback_program_fetch.h:417-456 | Every integer day number is a real date with that number. |
| `CivilDate.DayNumbersAreDistinct` | native/adapters/shared/fallback_program_fetch.h:417-428 | Two real dates never share a day number. |
| `CivilDate.EpochIsDayZero` | native/adapters/shared/fallback_program_fetch.h:417-428 | Day zero is 1 January 1970. |
| `CivilDate.NextDayIsOneMore` | native/adapters/shared/fallback_program_fetch.h:417-428 | The day after a date, by the calendar with its leap years, has the next number. |
| `Rfc3339.ParsersAgree` | native/adapters/shared/fallback_activation_resolver.h:263-292 | On every text the strict parser accepts the wider one gives the same instant, and the strict one accepts exactly the accepted texts that end in Z after the seconds. |
| `Timestamps.ReadIff` | native/adapters/shared/fallback_program_fetch.h:374-432 | A text is read, as a number of seconds, exactly if it spells a timestamp of RFC 3339 with that instant: date, time, perhaps a fraction, and a zone, whose hours and minutes are taken off when it lies ahead. |
| `Timestamps.StrictlyReadIff` | native/adapters/shared/fallback_activation_resolver.h:263-292 | The strict reader takes exactly those of twenty bytes that end in Z. |
| `Rfc3339.PrintedInstantIsRead` | native/adapters/shared/fallback_program_fetch.h:438-469 | A printed instant reads back in both parsers as its whole second, rounded towards the past, exactly for the milliseconds of years 0 to 9999. |
| `NodeDelivery.EveryDeliveryEnds` | native/adapters/shared/fallback_node_delivery.h:209-270 | Under any answers, clock and stop requests a delivery ends after at most five posts of one body and one hand-off, each behind a cutoff check that passed; it reports success exactly if the answer to its last post granted it. |
| `NodeDelivery.FiveIsReached` | native/adapters/shared/fallback_node_delivery.h:209-270 | The bound is met: answers that draw five posts and a hand-off. |
| `NodeRetries.PostsAreRetries` | native/adapters/shared/fallback_node_delivery.h:163-270 | In terms of the answers alone: a post follows exactly what may pass, before the third attempt, and a rate limit or a missing program the first time; the delivery ends with the word of the first answer that draws none. |
| `NodeRetries.StopsAtPause` | native/adapters/shared/fallback_node_delivery.h:209-270 | A pause of 250 ms behind what may pass and of 1000 ms behind a rate limit; where it is cut short, or the cutoff is reached, nothing more is posted. |
| `NodeRetries.HandsProgramFirst` | native/adapters/shared/fallback_node_delivery.h:209-270 | A missing program is handed over before the next post. |
| `NodeDelivery.ActOnAnswer` | native/adapters/shared/fallback_node_delivery.h:225-268 | One row of the retry table on the loop's variables. |
| `NodeDelivery.DeliverActivation` | native/adapters/shared/fallback_node_delivery.h:209-270 | The loop sends and returns what the recursive form does, so all of the above holds of it. |
| `FallbackProgram.MatchIsTheOnlyEntry` | native/adapters/shared/fallback_activation_resolver.h:309-463 | A match exists exactly when the program verifies and is current and of all its entries one alone, complete and live, has the key. |
| `EntryObstacles.CurrentIff` | native/adapters/shared/fallback_activation_resolver.h:309-334 | A program is current exactly if its expiry is a time in UTC, to the second, that is still to come. |
| `EntryObstacles.UsableIff` | native/adapters/shared/fallback_executor.h:1178-1195 | Why a program cannot be used, each reason exactly, in terms of keys, clock and entries; an incomplete entry that alone carries the empty key counts as a program that does not verify. |
| `FallbackProgram.ResolveActivation` | native/adapters/shared/fallback_activation_resolver.h:309-481 | The resolver with its loops gives that result, with the reason when there is no match. |
| `FallbackProgram.CollectMatches` | native/adapters/shared/fallback_activation_resolver.h:350-360 | The first loop collects the entries with the key, in order. |
| `OutageDetector.LostMeansALongRunOfFailures` | native/adapters/shared/fallback_outage_detector.h:53-68 | Over any history of probes loss is confirmed exactly when the latest ones failed in a row, enough of them, and long enough. |
| `OutageDetector.DetectorCounts` | native/adapters/shared/fallback_outage_detector.h:53-63 | The detector's three numbers in terms of the probes. |
| `OutageDetector.CoordinatorOutageDetector.RecordProbe` | native/adapters/shared/fallback_outage_detector.h:53-63 | The method makes that transition on the fields. |
| `SavedState.SavedStateComesBack` | native/adapters/shared/fallback_state_store.h:107-197 | A saved state is read back, ids in order, exactly when it has a playlist, valid texts and no node named twice; otherwise a start finds nothing. |
| `MemberNames.SavedTextMeans` | native/adapters/shared/fallback_state_store.h:107-131 | The file of a state: an object whose members say it, by their names. |
| `SavedRecord.LoadedIff` | native/adapters/shared/fallback_state_store.h:141-197 | Of any file at all: it is taken for a state exactly if its text is an object whose members, by their names and kinds, are a record of that state. |
| `SavedRecord.UnknownVersionIff` | native/adapters/shared/fallback_state_store.h:141-149 | And for a record of another version exactly if it is an object that does not say version 1. |
| `SavedRecord.IntOfMeans` | native/adapters/shared/fallback_state_store.h:160-172 | Of a number in it the fraction is left out. |
| `ExecutorSafety.OnlyTheClocksChangeTheMode` | native/adapters/shared/fallback_executor.h:417-486 | After a tick the whole state is decided by the wall clock and the settle clock alone: no coordinator answer, program or report changes the mode. |
| `ExecutorSafety.FallbackBeginsOnlyAtAnEntry` | native/adapters/shared/fallback_executor.h:1210-1259 | Fallback begins only in a callback, at a new occurrence, with loss confirmed, a usable program and exactly one match, and with the program's expiry as its cutoff. |
| `ExecutorSafety.DecisionOnlyEnds` | native/adapters/shared/fallback_executor.h:488-512 | Before it looks at an entry a callback can only rest or hand back. |
| `ExecutorHistory.NewIff` | native/adapters/shared/fallback_executor.h:488-539 | Over every run of ticks and callbacks from a start: a callback for an entry is a new occurrence exactly if it leaves the fallback, or resumes no saved one and no Start or Playing with that key, resolution and pass came since the last other one, QueryNext, Stop or hand-back. |
| `ExecutorHistory.NewWithNothingSavedIff` | native/adapters/shared/fallback_executor.h:488-539 | With nothing saved the callbacks alone decide. |
| `ExecutorHistory.SendsIffNew` | native/adapters/shared/fallback_executor.h:1199-1208 | A callback sends something exactly if it is new by that history and some target is due. |
| `ExecutorHistory.FinishedEntryIsSentAgain` | native/adapters/shared/fallback_executor.h:519-524 | An entry that was finished and is named again is new, and goes to every due target once more. |
| `ExecutorHistory.HandsBackIffLeft` | native/adapters/shared/fallback_executor.h:488-512 | A callback hands back exactly if FPP stops, or names another playlist than the one fallback was entered under. |
| `EntryObstacles.ObstacleIff` | native/adapters/shared/fallback_executor.h:1210-1234 | What stands in the way of an entry, each obstacle exactly; with none the entry is the only one with its key, complete and live. |
| `EntryObstacles.BoundaryComesTo` | native/adapters/shared/fallback_executor.h:1210-1265 | What an entry boundary leaves: nothing in normal without confirmed loss; else the obstacle, or the delivery of that entry in the fallback entered here and now: started if every target authorized it, on some nodes if one did, and on record unless a stop cut it short. |
| `EntryObstacles.TargetProblemIff` | native/adapters/shared/fallback_executor.h:1279-1303 | Why a target is passed over, each reason exactly. |
| `EntryObstacles.NotOverIff` | native/adapters/shared/fallback_executor.h:733-741 | A saved state is not over exactly while the second its cutoff names, in its zone, is still to come. |
| `ExecutorModes.StartMeans` | native/adapters/shared/fallback_executor.h:621-650 | What a start finds: the saved state with FPP awaited; or normal, with the file removed and a report owed where it was over or of another version. |
| `ExecutorModes.ResumeMeans` | native/adapters/shared/fallback_executor.h:652-667 | Where it is resumed, an entry cut short counts as delivered, on disk too, and is the one playing if FPP names it. |
| `ExecutorModes.RestMeans` | native/adapters/shared/fallback_executor.h:733-750 | At the cutoff fallback rests from now on, the same otherwise, with a report due. |
| `ExecutorModes.HandBackMeans` | native/adapters/shared/fallback_executor.h:756-785 | A hand-back: normal and empty from now on, the file removed, the coordinator told at once if it can be and owed a report if it does not answer, a fetch due at once, the entry forgotten. |
| `ExecutorModes.SkipsPostsIff` | native/adapters/shared/fallback_executor.h:488-539 | When a callback skips its own posts: a stop out of fallback, a fallback that runs or rests, confirmed loss, or a report owed. |
| `TickSchedule.ProbeDueIff` | native/adapters/shared/fallback_executor.h:689-702 | A probe is due if there was none, the interval has gone by, ten seconds at most while lost or in fallback, or the clock was set back. |
| `TickSchedule.TickProbesIff` | native/adapters/shared/fallback_executor.h:417-430 | A tick probes exactly then, and what that leaves in the detector and in what is due. |
| `TickSchedule.CoordinatorPartIs` | native/adapters/shared/fallback_executor.h:437-483 | What a tick says to a coordinator that answers: the report, if due, before the fetch, which goes out in normal only. |
| `TickSchedule.ReportsLieApart` | native/adapters/shared/fallback_executor.h:444-447 | Without a cause two reports lie ten seconds apart, unless the clock is set back. |
| `ExecutorRun.StepKeeps` | native/adapters/shared/fallback_executor.h:417-539 | Ticks, callbacks, starts and crashes anywhere in them keep this: the state held, and the one a crash would leave on disk, were entered with the very program that is installed. |
| `ExecutorRun.RunKeeps` | native/adapters/shared/fallback_executor.h:417-539 | So does every run. |
| `ExecutorLimits.TickSendsNothing` | native/adapters/shared/fallback_executor.h:417-486 | A tick sends no activation, and installs a program only in normal. |
| `ExecutorLimits.EverythingSentIsInTime` | native/adapters/shared/fallback_executor.h:1267-1335 | In every run with crashes and restarts each activation is sent in fallback and before the cutoff fallback was entered with, which is the installed program's own expiry; programs are installed only in normal. |
| `ExecutorRecord.TargetsFitIff` | native/adapters/shared/fallback_executor.h:1279-1317 | The ids planned for an entry name no node twice and are valid text exactly if the targets that can be sent to do and are. |
| `ExecutorRecord.ServedIsRestorableIff` | native/adapters/shared/fallback_executor.h:1210-1355 | A callback that serves an entry leaves a state that a start can read exactly if the texts, ids and targets it had before fit. |
| `ExecutorRecord.ObserveIsWritable` | native/adapters/shared/fallback_executor.h:488-539 | So a callback with a readable state, valid texts and fitting targets leaves a readable state, whatever it does. |
| `ExecutorOnce.HandsBackIff` | native/adapters/shared/fallback_executor.h:432-436 | From a machine that has acted on an entry FPP stays with, the steps that end in normal are exactly a tick past the settle window and a start past the cutoff. |
| `ExecutorOnce.QuietRunSendsNothing` | native/adapters/shared/fallback_executor.h:1199-1208 | While FPP stays with an entry acted on, and none of those steps is taken, nothing more is sent, through ticks, callbacks, crashes and restarts. |
| `ExecutorOnce.SendingSpendsTheEntry` | native/adapters/shared/fallback_executor.h:1267-1355 | A callback that sends anything has recorded the entry first, so that no crash from its first request on leaves the entry new, if its first write works and what it is given can be recorded. |
| `ExecutorOnce.AtMostOnce` | native/adapters/shared/fallback_executor.h:1267-1355 | The two together: after the first request for an entry, completed or crashed anywhere, nothing more is sent for it until FPP leaves it or the plugin hands back. |
| `ExecutorOnce.IdsAreOnDiskFirst` | native/adapters/shared/fallback_executor.h:1304-1330 | Under the same conditions every execution id is on disk before the first request that carries it. |
| `ExecutorOnce.DueEntryIsServed` | native/adapters/shared/fallback_executor.h:1210-1355 | Liveness of the same rule: a new occurrence with nothing in its way is sent to every target that can be sent to. |
| `ExecutorAgain.SentIsDue` | native/adapters/shared/fallback_executor.h:1267-1355 | Every request of a callback belongs to a target that is due, with its node and id, and to a new occurrence. |
| `ExecutorAgain.SendsIffDue` | native/adapters/shared/fallback_executor.h:1210-1355 | A callback for a new occurrence sends something exactly if some target is due. |
| `ExecutorAgain.OneIdPerNode` | native/adapters/shared/fallback_executor.h:1279-1317 | No node gets two ids for one occurrence exactly if no two targets that are due name one node with two ids. |
| `ExecutorAgain.SettledHandBackSendsAgain` | native/adapters/shared/fallback_executor.h:432-436 | Where at most once ends: after a tick the entry on record is sent again exactly if that tick was past the settle window and something is due. |
| `ExecutorAgain.CrashForgetsIff` | native/adapters/shared/fallback_state_store.h:107-197 | A crash behind the first request leaves the entry on record exactly if the record fits; otherwise a start begins as if nothing had been saved. |
| `ExecutorAgain.UnrecordedForgetsIff` | native/adapters/shared/fallback_executor.h:1310-1355 | If the first write of the record fails, a crash behind the first request leaves the entry on record exactly if it was before the delivery, until the last write is through. |
| `ExecutorWitness.RepeatedNodeIsSentAgain` | native/adapters/shared/fallback_activation_resolver.h:309-481 | A run with default settings and an entry that names a node twice: two ids for one occurrence, and, after a crash and a start, a third. |
| `ExecutorWitness.SettledEntryIsSentAgain` | native/adapters/shared/fallback_executor.h:432-436 | A run with default settings in which a recorded entry is sent a second time after the settle window. |
| `ExecutorReports.ReportComesBeforePosts` | native/adapters/shared/fallback_executor.h:456-467 | After any run, a callback whose posts may go out finds every report that came to be owed, by a confirmed loss, a hand-back or a saved state that was over, already attempted. |
| `ExecutorLeftover.FailedRemovalResumesIff` | native/adapters/shared/fallback_state_store.h:204-212 | If the file could not be removed on a return to normal, a start resumes the fallback handed back exactly if the file can be read and its cutoff has not passed; with the file removed it never does. |
| `ExecutorLeftover.LeftoverResumesIff` | native/adapters/shared/fallback_state_store.h:107-197 | Of the state last written: exactly if that could be restored and its cutoff has not passed, and then it is that state. |
| `ExecutorLeftover.LeftoverFitsIff` | native/adapters/shared/fallback_executor.h:621-650 | What such a start resumes was entered with the installed program exactly if no program was installed meanwhile that differs in package, revision or expiry. |
| `FallbackExecutor.Player.constructor` | native/adapters/shared/fallback_executor.h:363-380 | A start from what is on disk. |
| `FallbackExecutor.Player.RestoreSavedState` | native/adapters/shared/fallback_executor.h:621-650 | The restore on the fields, for every reading of the file. |
| `FallbackExecutor.Player.RunTick` | native/adapters/shared/fallback_executor.h:417-486 | The method on the fields takes exactly the tick step, with its writes and requests in order. |
| `FallbackExecutor.Player.ObserveEntryEvent` | native/adapters/shared/fallback_executor.h:488-539 | Likewise for a callback, and it tells its caller to skip posts exactly when posts are suspended. |
| `FallbackExecutor.Player.OnEntryBoundary` | native/adapters/shared/fallback_executor.h:1210-1259 | Likewise for an entry boundary. |
| `FallbackExecutor.Player.Deliver` | native/adapters/shared/fallback_executor.h:1267-1355 | Likewise for the delivery with its two loops and two records. |
| `FallbackExecutor.Player.HandBackNow` | native/adapters/shared/fallback_executor.h:756-785 | Likewise for a hand-back; in normal, and while the settle window lasts where that matters, it changes nothing and returns false. |
| `CallbackQueue.CallbackHandoff.Offer` | native/include/showmesh/callback_handoff.h:106-117 | On the ring: the pending observations are the newest, in order, and the oldest one that had to go is counted. |
| `CallbackQueue.CallbackHandoff.Take` | native/include/showmesh/callback_handoff.h:124-138 | On the ring: the oldest observation with the drops since the last take, or nothing. |
| `CallbackQueue.RunKeepsAccount` | native/include/showmesh/callback_handoff.h:101-138 | Over every run of offers and takes the queue holds the newest untaken offers in order, and offered is taken plus pending plus dropped. |
| `Draining.DrainingWorker.DrainOnce` | native/src/runtime.cpp:324-455 | The method on queue and worker fields takes exactly the drain step, on every path. |
| `Draining.HandlingKeepsGap` | native/src/runtime.cpp:324-455 | Whatever becomes of one callback, its gap is still carried or stands on an accepted observation. |
| `Draining.StepKeepsBalance` | native/src/runtime.cpp:324-455 | Below saturation no drop goes unreported in any step. |
| `Draining.GapsAreConserved` | native/src/runtime.cpp:324-455 | So in every run all drops are the queue's count, the unacknowledged count and the counts accepted. |
| `Draining.EndIsReportedOnce` | native/src/runtime.cpp:330-353 | The end of a playlist is reported once, as the entry that was playing, and is then silent until a playlist is named again. |
| `Draining.SequencesRise` | native/src/runtime.cpp:341-379 | Every observation has the next sequence number, and nothing else takes one. |
| `Observations.DrainSays` | native/src/runtime.cpp:324-455 | What a drain reports of the callback it took: the end of a run as the entry that was playing, any other as what it says itself, identified exactly if whole and found; only the end of a run already over goes unreported. |
| `Observations.RunRemembers` | native/src/runtime.cpp:324-455 | Over every run: the entry taken for playing is the last one named by a report with no stop since. |
| `FileStore.StagesAreAttempts` | native/src/atomic_write.cpp:47-79 | What a crash in a write can leave is exactly what a write leaves whose rename or replacement fails. |
| `FileStore.AttemptMeans` | native/src/atomic_write.cpp:69-79 | File by file: a rotation moves a good primary and nothing else, so a write that fails behind it leaves none. |
| `FileStore.TwoFiles.WriteWithBackupRotation` | native/src/atomic_write.cpp:69-79 | Rotation and atomic replacement on the two files, either of which may fail: a failed rotation is passed over, a failed replacement returns false. |
| `SequenceStore.StoreIsSafe` | native/src/sequence_store.cpp:98-122 | A number about to be published, or stored again, is never refused, and wherever a write stops or fails a start resumes from the new number exactly if the new primary is in place, otherwise from the old. |
| `SequenceStore.NumbersRiseIff` | native/src/runtime.cpp:341-379 | Over every run of publications, failed writes, crashes at any stage, clean stops and starts: the published numbers strictly rise exactly if at every start that leads to another publication the disk holds the highest published before. |
| `SequenceStore.DiskFallsBehindIff` | native/src/runtime.cpp:367-379 | After a publication the disk holds its number exactly if its own write did not fail; a crash leaves it as far as it was; a clean stop brings it up exactly if its write does not fail. |
| `SequenceStore.NumbersNeverRepeat` | native/src/runtime.cpp:341-379 | So with writes that do not fail the published numbers strictly rise through any number of crashes at any stage of any write. |
| `SequenceStore.RestartRepeatsIff` | native/src/runtime.cpp:341-379 | A restart publishes a number not above the last exactly if the disk is behind. |
| `SequenceStore.FailedStoreRepeats` | native/src/runtime.cpp:367-379 | Publish, crash, start, publish: the second number is the first again exactly if the first write failed. |
| `SequenceStore.StopMakesUp` | native/src/runtime.cpp:478-481 | Publish, clean stop, start, publish: the second number is the first again exactly if both writes failed. |
| `SequenceStore.SequenceFileStore.Store` | native/src/sequence_store.cpp:110-122 | The method returns true exactly for a number not below the stored one whose write does not fail, and leaves both files as rotation and write left them. |
| `BrightnessStore.BothHoldIff` | native/src/runtime.cpp:503-508 | A flush that wrote leaves its gate in both files exactly if it wrote twice and rotated in between, or put a record with that gate behind the new one. |
| `BrightnessStore.RotationsPassedOver` | native/src/atomic_write.cpp:69-79 | A close written twice with both rotations failing returns true and is lost with the primary: a start is open. |
| `BrightnessStore.EngineFollows` | native/src/brightness.cpp:163-168 | Every command, frame and adoption keeps to what flushes rely on: a revision that never falls and moves with the gate, always, and a gate that turns only with a greater revision, exactly but for a write that turns the gate at the greatest revision. |
| `BrightnessStore.FlushKeeps` | native/src/runtime.cpp:483-517 | Whatever fails in it, rotations alone included, a flush leaves memory and the two files consistent; one that returns true leaves its gate in the primary. |
| `BrightnessStore.FlushMeans` | native/src/runtime.cpp:483-517 | A flush at the revision last flushed touches nothing; any other returns true exactly if each write it needs works, one for the same gate and two for another. |
| `BrightnessStore.GateChangesWhole` | native/src/atomic_write.cpp:47-79 | A crash in a flush that changes the gate leaves the old gate or the new one. |
| `BrightnessStore.OneWriteIsNotEnough` | native/src/runtime.cpp:503-508 | Why a gate change is written twice: after one write the loss of the primary loses a close. |
| `BrightnessStore.StartKeepsGate` | native/src/runtime.cpp:112-134 | Every start, trusted or settled, takes over a closed gate found on disk. |
| `BrightnessStore.StartShows` | native/src/runtime.cpp:112-134 | What a start shows: a good primary restored; behind a spoiled or missing one the safe ceiling, a full gain and the gate of a readable backup; with no record ever, all open. |
| `BrightnessStore.FlushesKeep` | native/src/runtime.cpp:483-517 | So does every series of flushes, failed, half-failed and unrotated ones among them. |
| `BrightnessStore.TrueFlushWasWritten` | native/src/runtime.cpp:483-517 | From any start and after any such series a flush that returns true has its gate in the primary, and it or an earlier one at its revision wrote what is there. |
| `BrightnessStore.GateSurvivesLossIff` | native/src/runtime.cpp:483-517 | After any such series below the cap, a flushed closed gate survives the loss of the backup always, and that of the primary exactly if the flush that wrote it put it, or found it, behind the new record; rotations that work in that flush are enough. |
| `BrightnessStore.HeldGateStays` | native/src/runtime.cpp:483-517 | Later flushes that keep the gate leave it held, failed writes and failed rotations included, and so does a crash at any of their stages. |
| `BrightnessStore.HeldGateIsFound` | native/src/brightness_store.cpp:59-96 | A start finds a held gate, also after the loss of the primary; after that of the backup exactly if there is a primary. |
| `BrightnessStore.FoundGateStays` | native/src/runtime.cpp:483-517 | A closed gate that a start would find it still finds after later flushes that keep the gate and a crash at any stage of one, whatever fails in them. |
| `BrightnessStore.RestartsClosed` | native/src/runtime.cpp:483-517 | End to end: from any files and after any flushes, at any gate revisions and whatever fails, once one has returned true with the gate closed, a crash at any stage of any later flush that keeps the gate still starts closed at its revision. |
| `BrightnessStore.RestartsClosedAfterLoss` | native/src/runtime.cpp:483-517 | And if instead the backup is lost or corrupted right after that flush, or the primary and the flush backed the gate, the host starts closed at that revision too. |
| `BrightnessStore.CloseAtTheCapIsLost` | native/src/brightness.cpp:163-168 | At the greatest revision a half-written open and a close leave the close in one file only, although its flush returned true: with the primary it is lost. |
| `BrightnessStore.BrightnessFlusher.Flush` | native/src/runtime.cpp:483-517 | The method on memory and files takes exactly the flush step, and returns false when a write it needs fails. |
| `Sha256.ZeroBitsAreLeast` | native/src/sha256.cpp:97-102 | The zeros the loop appends are the least number section 5.1.1 of FIPS 180-4 allows, for every length. |
| `Sha256.PaddedIsWhole` | native/src/sha256.cpp:96-109 | A padded message is whole blocks and starts with the message. |
| `Sha256.PaddingIsInjective` | native/src/sha256.cpp:96-109 | Two messages under 2^61 bytes are never padded alike. |
| `Sha256.PaddingMeans` | native/src/sha256.cpp:95-109 | The padded message by place: the message, 0x80, zeros, and its length in bits in the last eight bytes, most significant first. |
| `Sha256.InitialWordsAreSquareRoots` | native/src/sha256.cpp:23-35 | The initial words are the fractional parts of the square roots of the first eight primes. |
| `Sha256.DigestMeans` | native/src/sha256.cpp:110-118 | Each four bytes of a digest are one word of the state, most significant first. |
| `Sha256.FoldResumes` | native/src/sha256.cpp:79-93 | Of what was taken in before, only the state and the unfinished block matter to what comes after. |
| `Sha256.Hasher.Update` | native/src/sha256.cpp:79-93 | The buffered loop keeps the state equal to the fold over everything taken in, and the bit count modulo 2^64. |
| `Sha256.Hasher.Finish` | native/src/sha256.cpp:95-118 | Padding loop, length field and output words give the digest of the whole message, at any length; the loop ends. |
| `Sha256.HashPieces` | native/src/sha256.cpp:79-118 | For any split into update calls the digest is that of the pieces put together. |

## Left out

- Executor.Tick and Executor.Observe: a tick and a callback are atomic. A program fetch of the background thread that
  overlaps a callback which enters fallback in the middle of it is not covered.
- Executor.DeliverMatch: the source delivers to the targets of one entry in parallel threads. The trace lists their
  requests one target after another, so interleavings between targets are not modelled.
- FallbackExecutor.Player.RunTick: registration and owed acknowledgements are not part of it, as of `Executor.Tick`.
- FallbackExecutor.Player.Deliver: one thread per target in the source, one target after another here.
- ExecutorOnce.AtMostOnce, ExecutorOnce.SendingSpendsTheEntry and ExecutorOnce.IdsAreOnDiskFirst: the first write of
  the record must work and its texts and targets must fit. What happens otherwise is said exactly by
  `ExecutorAgain.UnrecordedForgetsIff`, `ExecutorRecord.ServedIsRestorableIff` and `ExecutorAgain.CrashForgetsIff`.
- Executor.FetchPart: the hand-off of a newly installed program to the nodes, registration, acknowledgement and their
  back-off are not modelled; a fetch is "a program came, or none".
- SavedState.SavedStateComesBack: writing the file is all or nothing.
- ExecutorRun.RunKeeps and ExecutorLimits.EverythingSentIsInTime: in their runs removing the file on a return to normal
  succeeds. What a start does where it failed is said by `ExecutorLeftover.FailedRemovalResumesIff` and
  `ExecutorLeftover.LeftoverFitsIff` for one hand-back.
- JsonCanonical.CanonicalIffSameMeaning: numbers are exact decimals. The source reads them into doubles first, so texts
  that differ beyond a double's precision have one canonical text there, and numbers beyond its range are refused.
- JsonNumber.NumberIsRead: the search for the shortest digits that round-trip is not modelled; the digits are given.
- JsonParser.Parser.ParseNumberText: a number beyond a double's range is accepted; the source refuses it.
- JsonParser.Parser.Run: likewise, and which error is reported, and where, is not modelled.
- NoStorm.EventuallyAgree: fairness is a hypothesis: nothing is put off for ever, no message is lost, and no delivery
  is refused by a plausibility guard (`ClockBounds.NothingIsTurnedAway` says when none is).
- ClockBounds.GroupAgrees: every host sends, and no host restarts inside the run.
- Brightness.Composed: fades are over real numbers; the rounding of IEEE doubles is not modelled.
- BrightnessEngine.BrightnessEngine.ApplyToFrame: nothing is stated for an exclusion that runs past 2^32. Exclusions
  come from the strict parser, which refuses one (`ChannelRangesSetting.StrictToken`), and from requests that do.
- Sha256.Hasher.Finish: the compression function is a parameter, and nothing is claimed about its strength.
- PlaylistIdentity.OneKeyPerEntry: the hash is a parameter; what holds where it collides is
  `PlaylistIdentity.SharedKeyIsACollision`.
- FallbackProgram.Resolve: signature verification is a given yes or no.
- NodeDelivery.Deliver: request bodies are opaque; building and signing them, and parsing a node's response, are left
  out.
- Draining.GapsAreConserved: the statement is for totals below the counters' saturation; a saturated counter no longer
  counts.
- SequenceStore.NumbersRiseIff: files are what this store wrote; checksums, fsync and the temporary file's name are not
  modelled, and a rename is atomic.
- BrightnessStore.GateSurvivesLossIff: stated below the cap of the gate revision. At the cap the loss of the primary is
  covered flush by flush (`BrightnessStore.BothHoldIff`).
- BrightnessStore.RestartsClosedAfterLoss: one file is lost or corrupted, not both.
- The random schedule of native/tools/convergence_model.h: the group's proofs hold for every schedule instead.
- 64-bit overflow of times and of the observation counter.
- HTTP, sockets, threads and condition variables; lock-protected regions are atomic steps.
- The request bodies that set channel ranges, brightness or gates; status rendering, notices, records, command lists,
  pairing files and settings lookup.
- The Go helper.
