# cliairplay: a verified model of its core

cliairplay streams PCM audio from a pipe to an AirPlay 2 device for Music Assistant. This
project models the parts of it that hold invariants and proves what they keep. One module
or group of modules stands for each part:

| modules | part of the program |
|---|---|
| `Playback`, `PlaybackRuns`, `PlaybackSync`, `PlaybackGate`, `PlaybackNotices`, `PlaybackCalls`, `PlaybackRestart`, `PlaybackExamples`, `PlaybackSource` | the start-of-playback machine of `src/mass.c`: priming, dropping what is too late, holding back what is too early, the single SYNC mark, the metadata notice |
| `Timespec`, `StartTime` | clock arithmetic and the conversion of an NTP start time (section 6 of RFC 5905) in `src/cliap2.c` and `src/misc.c` |
| `CommandItems`, `CommandFraming`, `CommandPipe`, `CommandHandoff` | the command pipe of `src/mass.c`: framing, items, the read callback, the hand-over of metadata between threads |
| `WatchList` | the list of watched pipes of `src/mass.c`, reconciled while it is walked |
| `Names`, `KeyValSpec`, `KeyValOrder`, `KeyVal` | the key/value list of `src/misc.c` and its pointer sort |
| `Tokens`, `TxtParser` | `parse_keyval` of `src/cliap2.c`: two nested `strtok_r` loops over one buffer |
| `RingBuffer`, `Replace`, `Bits`, `Murmur`, `MurmurAnswer`, `Regression` | the ring buffer, the in-place replace, the 64-bit hash and the regression of `src/misc.c` |
| `Logger` | repeat suppression of `src/logger.c` with the `djb_hash` of `src/misc.c` |
| `Common` | types several modules share |

State the program updates in place is a class whose methods are proved against a function on
values (`PlaybackSource.Source` against `Playback.PlayStep`, `KeyVal.KeyValList` against
`KeyValSpec`, `RingBuffer.Ring` against `RingBuffer.Step`, `CommandPipe.Pipe` against
`CommandPipe.ReadStep`, and so on); the properties of whole runs are lemmas about those
functions. `dafny verify dfyconfig.toml` checks the project.

## Where the code does something other than expected

The model follows the code. Each of these is stated as a lemma with the exact condition; where
a run or an input is needed to see that the case occurs, a second lemma gives one.

- A drop that ends exactly at the end of the buffer returns before the start time is moved
  (`src/mass.c:1758-1761`, 1768). Audio written later plays d sample periods early
  (`PlaybackRuns.ExactDrainLosesSync`, `PlaybackExamples.ExactDrainHappens`), and if the start has
  meanwhile passed nothing is ever written (`PlaybackGate.MissedStartStarves`,
  `PlaybackExamples.MissedStartHappens`).
- The gate compares `int64_t` with `uint64_t` (`src/mass.c:1784`), so a missed start is held back
  like a distant one; the gate is the window [0, latency + input_write] exactly when that sum lies
  in [0, 2^63) (`PlaybackGate.GateIsWindow`).
- The lateness in samples is computed in 64 bits (`src/mass.c:1705`); sync is kept exactly when the
  product stays below 2^64 and no read ended exactly at the due bytes
  (`PlaybackSync.LateStartKeepsSync`, `PlaybackExamples.WrapHappens`).
- A metadata notice is cleared by every call that reads data, but only a call that writes passes it
  on (`src/mass.c:1656-1657`). The first such call decides, by the guards it meets
  (`PlaybackNotices.NoticeFate`, `PlaybackNotices.FirstReadingDecides`); a notice raised while
  audio is held back is lost (`PlaybackExamples.NoticeLost`).
- Pause is tested before stop (`src/mass.c:1614`, 1619): after STOP the stream ends if and only if a
  call comes while it is not paused (`PlaybackGate.PauseOutranksStop`).
- The counters of `play` are static and the stop flag is never cleared (`src/mass.c:1604-1611`, 1215), so a
  second stream in one process goes on from the first. It delivers what a first stream would, whatever is
  primed and happens later, if and only if the first never read data, there is no start time, or a STOP came
  (`PlaybackRestart.RestartIsFresh`). Otherwise it keeps the old schedule and ignores, of its own audio, what
  the first left to ignore (`PlaybackRestart.SecondStreamCarriesOn`, `PlaybackExamples.SecondStreamLosesBytes`);
  after a first stream that wrote audio it has no SYNC mark (`PlaybackRestart.SecondStreamUnsynced`,
  `PlaybackExamples.SecondStreamHappens`). After a STOP it ends with its first call that is not paused
  (`PlaybackRestart.SecondStreamStopped`).
- The priming product overflows `int` for the two highest qualities (`src/mass.c:1532-1533`;
  `PlaybackSource.PrimingOverflow`).
- The too-soon test adds the seconds of the pairing latency as milliseconds (`src/cliap2.c:480`), so it
  is right exactly for latencies below a second (`StartTime.PairingInSecondsSlips`).
- PAUSE and PLAY do not take effect in order: in one batch the last one wins if and only if it is PAUSE
  for a playing player or PLAY for another, and in two batches each obeys the status at its own read
  (`src/mass.c:1344-1405`; `CommandPipe.LastCommandWins`, `CommandPipe.PauseAndPlayTogether`).
- A line that is not understood discards whatever was understood before it in its batch
  (`src/mass.c:1334-1340`; `CommandPipe.BadLineDropsCommands`); an empty line after a STOP is enough
  (`CommandPipe.BlankLineDropsStop`).
- The PIN range test looks at the return code (`src/mass.c:749`), and the device keeps four characters
  (`src/mass.c:1361`): it gets the right PIN exactly for numbers up to 9999
  (`CommandItems.PinIsNotRangeChecked`, `CommandItems.PinReachesDevice`).
- The watch limit of 4 admits five requested positions (`src/mass.c:957`; `WatchList.UpdatedIds`).
- `keyval_add_size` compares with the whole value but stores a part of it, so repeating a truncated
  insertion fails (`src/misc.c:1331-1340`, 1369; `KeyValSpec.AddTwice`).
- After two quoted pairs with nothing between them the outer tokeniser is out of step: it throws bodies
  away and parses the gaps, until a gap is empty again, and the call succeeds
  (`src/cliap2.c:381-382`; `TxtParser.PrintedPieces`). Every pair is kept if and only if no two
  quoted pieces touch (`TxtParser.GapDecides`).
- The ring buffer keeps the distance to its end in an `int` and compares it with a `size_t`
  (`src/misc.c:1544-1545`, 1573-1576). A negative one counts as huge: a call then goes wrong exactly when
  it would have to go round the end (`RingBuffer.SplitsAtEnd`, `RingBuffer.StopsAtEnd`). All calls are
  right if and only if the size is at most 2^31 (`RingBuffer.SafeSizes`); one byte more is enough for a
  write and a read past the end (`RingBuffer.WritePastTheEnd`, `RingBuffer.ReadPastTheEnd`).
- An empty pattern never stops matching (`src/misc.c:955`; `Replace.EmptyPatternNeverEnds`).
- A first log message of hash 0 counts as a repeat, and after 2^31 repeats messages appear again
  (`src/logger.c:128-135`; `Logger.CounterIsRunIndex`, `Logger.FirstRunOfZeroAdds`,
  `Logger.RunOutput`). The message "glif.hc" has hash 0 (`Logger.HashZeroHappens`).
- The nanosecond of an NTP round trip is exact only for multiples of 5^9
  (`src/cliap2.c:102`, 111; `StartTime.NanosRoundTrip`).

## Model

| member | source | states |
|---|---|---|
| `PlaybackRuns.Conservation` | src/mass.c:1597-1803 | over every run, for any chunks, pauses and errors: all bytes primed and read are, in order, those ignored, those written, those buffered and those lost to a read error; the ignored count never exceeds the due count and equals it once audio is written |
| `PlaybackRuns.RunInv` | src/mass.c:1597-1803 | the stream, counter and sink invariants hold after every sequence of calls and flag changes |
| `PlaybackRuns.StepInv` | src/mass.c:1597-1803 | each call or flag change keeps that invariant |
| `PlaybackRuns.GotIsConsumed` | src/mass.c:1628 | the history of received bytes is the concatenation of the reads of the run, so conservation is about the real input |
| `PlaybackRuns.ConsumedInOrder` | src/mass.c:1628 | what a run reads is what its first part reads, then what the rest reads |
| `PlaybackRuns.SyncDiscipline` | src/mass.c:1795-1800 | with a start time the SYNC mark is on the first write if that is audio and on no other, without one on none; nothing follows an EOF, STOP or error write |
| `PlaybackRuns.LateSamplesBound` | src/mass.c:1704-1705 | the sample count differs from the exact lateness by less than one period if and only if the 64-bit product does not wrap |
| `PlaybackRuns.LateStart` | src/mass.c:1699-1768 | after a drop of d samples: whole frames, output is the input from sample d on, and every sample is 0 to less than one period late if and only if the start moved and the product did not wrap; otherwise d periods early |
| `PlaybackRuns.FirstRead` | src/mass.c:1666-1711 | the first read fixes the earliest start and the due bytes from what is then buffered |
| `PlaybackRuns.ScheduleIsFinal` | src/mass.c:1666 | no later call or flag change alters them |
| `PlaybackRuns.DropDecision` | src/mass.c:1737-1769 | only the total received decides: up to the due bytes all is dropped and nothing written, beyond them the rest is written with the mark and the start moves |
| `PlaybackRuns.ExactDrainLosesSync` | src/mass.c:1757-1768 | after a drop that ends at the end of the buffer the start time never moves, in any run, and audio written later is d sample periods early |
| `PlaybackSync.MovesUnlessMet` | src/mass.c:1737-1769 | in every run that writes after a drop, the start time moved if and only if no call received the last of the due bytes and not one more |
| `PlaybackSync.LateStartKeepsSync` | src/mass.c:1699-1769 | over every run from priming on, a late start keeps every sample on time if and only if the product did not wrap and no read ended exactly at the due bytes |
| `PlaybackGate.GateIsWindow` | src/mass.c:1780-1787 | the unsigned test lets exactly [0, latency + input_write] through if and only if that sum is in [0, 2^63) |
| `PlaybackGate.DeltaIsWholeMs` | src/mass.c:1779-1780 | the milliseconds compared are the nanoseconds to go, cut off toward zero |
| `PlaybackGate.GateInNanos` | src/mass.c:1779-1787 | with the sum in range the gate is open exactly while the time to go in nanoseconds lies between minus one millisecond and one millisecond beyond latency + input_write |
| `PlaybackGate.FirstWriteInWindow` | src/mass.c:1770-1800 | a first write that did not move the start happened at a clock reading inside that window, in nanoseconds |
| `PlaybackGate.FirstWriteOfRun` | src/mass.c:1770-1800 | over every run from priming on that wrote without moving the start, the call that wrote first read a clock inside that window, in nanoseconds |
| `PlaybackGate.MissedStaysMissed` | src/mass.c:1779-1787 | a start missed by a millisecond stays missed for a clock that does not go back: the gate is shut |
| `PlaybackGate.MissedStartStarves` | src/mass.c:1784-1787 | once missed while waiting, no audio is written in any continuation |
| `PlaybackGate.PauseOutranksStop` | src/mass.c:1613-1626 | after STOP, over every run: the stream ends if and only if some call comes while the pause flag is clear, with one EOF write of what is buffered; until then nothing is read or written |
| `PlaybackGate.PausedNothingMoves` | src/mass.c:1614-1618 | while paused, any sequence of calls changes nothing but the remembered flags |
| `PlaybackCalls.ReadOutcomes` | src/mass.c:1628-1647 | an empty read changes nothing, end of file hands over what is buffered and closes, an error tells the sink and throws it away, with the return codes |
| `PlaybackCalls.AgainIsIrrelevant` | src/mass.c:1636-1639 | over every run without STOP, calls that find nothing to read can be left out |
| `PlaybackCalls.ReturnCode` | src/mass.c:1613-1802 | -1 exactly when unpaused on STOP, end of file, an error, or a clock or drain that fails where it is needed |
| `PlaybackRestart.RestartIsFresh` | src/mass.c:1604-1611 | after every run of a first stream: for everything primed and every later run the second one gives the sink what a first stream would under the same flags, if and only if the first never read data, there is no start time, or a STOP came |
| `PlaybackRestart.SecondStreamCarriesOn` | src/mass.c:1604-1611 | after every first stream that read data: the second keeps the schedule and drops, of its own audio, at most what was left to ignore and exactly that once it writes; the rest is delivered in order |
| `PlaybackRestart.SecondStreamUnsynced` | src/mass.c:1604-1611 | after every first stream that wrote audio: the second keeps the old schedule, ignores nothing, and none of its writes carries the SYNC mark |
| `PlaybackRestart.SecondStreamWritesAtOnce` | src/mass.c:1728-1800 | each of its calls that reads data writes |
| `PlaybackRestart.SecondStreamStopped` | src/mass.c:1619-1625 | after STOP a second stream ends with its first call that is not paused, having given what was primed |
| `PlaybackNotices.NoticeFate` | src/mass.c:1656-1803 | a call that reads data uses the notice up; it writes, and passes the notice on with that write, if and only if the guards let it: clock read, and playback begun or unscheduled, or more data than is due to be ignored, or nothing due and the start near |
| `PlaybackNotices.NoticesBalance` | src/mass.c:1348-1357 | in every run the notices raised are those passed on, those lost and the one pending; the writes that carry one are exactly those passed on |
| `PlaybackNotices.FirstReadingDecides` | src/mass.c:1656-1657 | a notice reaches the input module if and only if the first call that reads data after it may write; no later call brings it back |
| `PlaybackExamples.ExactDrainHappens` | src/mass.c:1757-1768 | a run of two calls in which an exact drain leaves all later audio one sample period early |
| `PlaybackExamples.MissedStartHappens` | src/mass.c:1784-1787 | the same drain with the next call a second later: the data stays, and no continuation writes audio |
| `PlaybackExamples.NoticeLost` | src/mass.c:1656-1657 | a notice raised after that drain is lost |
| `PlaybackExamples.WrapHappens` | src/mass.c:1705 | a start 418293 seconds late, where the product wraps and the output is not on time |
| `PlaybackExamples.SecondStreamHappens` | src/mass.c:1604-1611 | a stream that is played and ends, and a second one whose first call writes without the mark |
| `PlaybackExamples.SecondStreamLosesBytes` | src/mass.c:1604-1611 | a stream that ends two bytes into its drop, and a second one that loses its first two bytes |
| `Playback.Earliest` | src/mass.c:1680-1697 | earliest start is now plus pairing latency, plus the output buffer unless it is already covered by buffered data |
| `Playback.StobIsFrames` | src/mass.c:1706 | a byte count of whole samples is whole frames, and gives the samples back |
| `PlaybackSource.Source.Play` | src/mass.c:1597-1803 | the method on mutable state computes exactly the specified step and return code |
| `PlaybackSource.Source.Proceed` | src/mass.c:1666-1803 | the part after a successful read |
| `PlaybackSource.Source.ScheduleStart` | src/mass.c:1666-1711 | the decision how late the start is |
| `PlaybackSource.Source.EarliestPacket` | src/mass.c:1680-1697 | the earliest packet time, branch by branch |
| `PlaybackSource.Source.BytesLate` | src/mass.c:1701-1706 | the bytes to ignore, computed in 64-bit unsigned arithmetic |
| `PlaybackSource.Source.Begin` | src/mass.c:1728-1803 | ignore, hold back or write |
| `PlaybackSource.Source.Setup` | src/mass.c:1509-1553 | primes the buffer with exactly the reads its loop takes, in order, and fails only on a read error |
| `PlaybackSource.JoinedPiece` | src/mass.c:1536-1540 | each successful priming read is put behind everything read before it |
| `PlaybackSource.JoinedPrefix` | src/mass.c:1536-1540 | what was read earlier stays in front |
| `PlaybackSource.PrimingReadInStream` | src/mass.c:1536-1540 | from the descriptor to the sink, over every run: priming read j stands in what is ignored, delivered, buffered or lost, right behind the reads before it |
| `PlaybackSource.PrimingStops` | src/mass.c:1536-1540 | the loop goes on exactly while a read succeeded and the bytes before it were short of the limit |
| `PlaybackSource.PrimingLimit` | src/mass.c:1532-1533 | the limit is four and a half seconds of frames of 4 or 8 bytes |
| `PlaybackSource.PrimingBound` | src/mass.c:1536-1540 | priming overshoots its limit by less than two reads and falls short of it only when the descriptor has no more |
| `PlaybackSource.PrimingOverflow` | src/mass.c:1532-1533 | the int product stays in range exactly for all qualities other than 88200 or 96000 Hz at 32 bits |
| `Timespec.Add` | src/misc.c:1608-1621 | nanosecond addition, normalised on normalised operands |
| `Timespec.Cmp` | src/misc.c:1623-1641 | exactly the order of the nanosecond counts |
| `Timespec.Subtract` | src/cliap2.c:151-161 | nanosecond subtraction, normalised, also when the result is one of the operands |
| `Timespec.OutputBufferTs` | src/cliap2.c:451-462 | the configured milliseconds, normalised |
| `StartTime.NtpIsTimeSince1900` | src/cliap2.c:95-143 | the NTP number is the time since 1900, 25567 days before 1970, in units of 2^-32 seconds, rounded down |
| `StartTime.NtpKeepsOrder` | src/cliap2.c:95-143 | within the first era earlier times have smaller numbers, and only those |
| `StartTime.PackUnpack` | src/cliap2.c:140 | unpacking inverts packing, and the packed number fits 64 bits |
| `StartTime.UnpackPack` | src/cliap2.c:488-489 | packing inverts unpacking |
| `StartTime.WholeFraction` | src/cliap2.c:102 | n nanoseconds are a whole number of fraction units exactly when n is a multiple of 5^9 |
| `StartTime.NanosRoundTrip` | src/cliap2.c:95-112 | nanoseconds come back exactly on multiples of 5^9 and one less otherwise |
| `StartTime.FracRoundTrip` | src/cliap2.c:95-112 | fractions lose 0 to 5 units, with the exact loss |
| `StartTime.FracRoundTripWorstCase` | src/cliap2.c:95-112 | a loss of 5 occurs |
| `StartTime.FractionsMonotone` | src/cliap2.c:95-112 | both fraction maps keep the order, one of them strictly |
| `StartTime.TimespecRoundTrip` | src/cliap2.c:95-112 | the second comes back exactly if and only if it is in [0, 2^32), in spite of the wrap; the nanosecond loses 0 or 1, with the exact condition |
| `StartTime.LagIsTimeLeft` | src/cliap2.c:510 | the computed lag is the time left in whole milliseconds if and only if its seconds fit the int, that is within 24 days |
| `StartTime.TooSoonIs` | src/cliap2.c:510-511 | a start is too soon exactly when less time is left than the number compared with |
| `StartTime.PairingInSecondsSlips` | src/cliap2.c:480 | the latency compared with is the real one if and only if it is below a second; otherwise a start well inside it passes |
| `StartTime.GetStartTs` | src/cliap2.c:471-520 | through aliased cells: requested time less (realtime - monotonic) less output buffer; -1 when that is too soon by the code's test, and -1 with the cell untouched when a clock fails |
| `StartTime.StartTimeEndToEnd` | src/cliap2.c:95-143 | a sender's instant put into an NTP number arrives as that instant on the player's clock to within one nanosecond, with the exact condition |
| `CommandItems.SplitJoin` | src/mass.c:612-646 | key=value is split into that key and value, for every key without `=` |
| `CommandItems.JoinSplit` | src/mass.c:612-646 | a split gives the line back when joined and fails exactly when there is no `=` |
| `CommandItems.KeysPrefixFree` | src/mass.c:676-760 | no key constant is a prefix of another |
| `CommandItems.CommandsPrefixFree` | src/mass.c:761-776 | no action constant is a prefix of another |
| `CommandItems.KeyOrderIrrelevant` | src/mass.c:676-793 | whatever the order of the tests, the key found is the one whose constant is a prefix of the text |
| `CommandItems.CommandOrderIrrelevant` | src/mass.c:760-787 | the same for actions |
| `CommandItems.MeaningOfLine` | src/mass.c:657-796 | a line of a key constant and a value means that key and that value |
| `CommandItems.TextLines` | src/mass.c:676-690 | ALBUM=, ARTIST= and TITLE= store their value in that field and nothing else |
| `CommandItems.TimeLines` | src/mass.c:691-720 | DURATION= and PROGRESS= store a number of seconds in milliseconds, and refuse what does not parse |
| `CommandItems.ArtworkLine` | src/mass.c:721-731 | ARTWORK= stores the local copy if it can be fetched, and clears the field and fails otherwise |
| `CommandItems.VolumeLine` | src/mass.c:732-744 | VOLUME= stores exactly the number, and refuses what does not parse |
| `CommandItems.PinLine` | src/mass.c:745-759 | PIN= stores the number's text, and refuses what does not parse |
| `CommandItems.ActionLines` | src/mass.c:760-780 | ACTION= followed by SENDMETA, STOP, PAUSE or PLAY and anything is that command and stores nothing |
| `CommandItems.NoSeparatorRefused` | src/mass.c:667-672 | a line without `=` is refused |
| `CommandItems.UnknownKeyRefused` | src/mass.c:788-793 | a key that starts with none of the constants is refused |
| `CommandItems.UnknownActionRefused` | src/mass.c:781-786 | an action that starts with no command is refused |
| `CommandItems.NulEndsItem` | src/mass.c:821-847 | a NUL byte ends the item: the rest of its line is not seen |
| `CommandItems.PinIsNotRangeChecked` | src/mass.c:745-759 | every number that parses is accepted and stored as its text |
| `CommandItems.PinTextMeans` | src/mass.c:755 | the text is the number in decimal, in at least four digits, in exactly four up to 9999 |
| `CommandItems.PinReachesDevice` | src/mass.c:1359-1361 | the four characters the device keeps are the number if and only if it is at most 9999 |
| `CommandFraming.LinesComplete` | src/mass.c:805-825 | lines with their newlines, then the rest, are the buffer; no newline inside either |
| `CommandFraming.ParseAppend` | src/mass.c:837-858 | parsing a part and then the rest with more is parsing all at once |
| `CommandFraming.ChunkingIrrelevant` | src/mass.c:1302-1333 | over every cut of the stream into reads the outcome is that of one parse of everything |
| `CommandFraming.AnyTwoChunkings` | src/mass.c:1302-1333 | two cuts of one stream have the same outcome |
| `CommandFraming.ParseAppliesLines` | src/mass.c:837-858 | parsing applies the complete lines in order, up to the first that is not understood |
| `CommandFraming.ParseLeavesNoLine` | src/mass.c:845-857 | a successful parse leaves no complete line |
| `CommandFraming.OverflowNeedsLongLine` | src/mass.c:1318-1324 | discarding needs an unfinished line longer than 1048576 - 65536 bytes before the read |
| `CommandPipe.RunIsFeed` | src/mass.c:1295-1424 | without overflow, a run of callbacks over any reads comes to the framed parse of its data; the pipe is open in the end if and only if every line was understood and no read ended it |
| `CommandPipe.ShortLinesAreRoomy` | src/mass.c:1302-1324 | with reads of at most 65536 bytes and no line above 1048576 - 65536, no read of any run meets a full buffer |
| `CommandPipe.RunHandlesAll` | src/mass.c:1342-1412 | while the player status does not change, a run over any reads has the effect of one batch of all its messages: flags, data, last volume, last PIN and flush |
| `CommandPipe.RunsAgree` | src/mass.c:1295-1424 | two runs over the same stream that meet no full buffer, with empty reads and ends of file anywhere, end with the same prepared data and, if every line was understood, the same flags, volume, PIN and flush |
| `CommandPipe.ShortLinesAgree` | src/mass.c:1295-1424 | the same for any two ways of reading a stream of short lines |
| `CommandPipe.BufferHasNoLine` | src/mass.c:1295-1340 | no callback, whatever it reads, leaves a complete line in the buffer |
| `CommandPipe.OneMessage` | src/mass.c:1348-1412 | what each message does when it comes alone |
| `CommandPipe.OneLine` | src/mass.c:1295-1424 | one line read by an open pipe with an empty buffer is parsed and acted on, or closes the pipe |
| `CommandPipe.VolumeAtCallback` | src/mass.c:1355-1358 | a VOLUME= line that parses is stored and set as it is, one that does not closes the pipe |
| `CommandPipe.CommandAtCallback` | src/mass.c:1348-1412 | each of the four commands alone: notice, stop and flush, pause, resume |
| `CommandPipe.CommandLiterals` | src/mass.c:760-776 | how the four commands are written |
| `CommandPipe.ArtworkAtCallback` | src/mass.c:1348-1354 | artwork raises the notice exactly if it could be fetched |
| `CommandPipe.TitleAtCallback` | src/mass.c:1348-1354 | a title alone is stored and raises no notice |
| `CommandPipe.OtherReads` | src/mass.c:1302-1324 | what EAGAIN, an error, an end of file and a read past 1048576 bytes do |
| `CommandPipe.PauseAndPlayTogether` | src/mass.c:1344-1405 | any run that reads both PAUSE and PLAY under one player status leaves the pause flag at whether the player was playing, whichever came first |
| `CommandPipe.LastCommandWins` | src/mass.c:1344-1405 | for the two lines in either order: in one read the last wins if and only if it is PAUSE for a playing player or PLAY for another; in two reads, for any status at each, if and only if the status at the second lets it, or the flag was that way and the first had no effect |
| `CommandPipe.BadLineDropsCommands` | src/mass.c:1332-1412 | from any state, for any lines before a bad one: read together all their flags and calls are lost, read apart they take effect; stored data is the same |
| `CommandPipe.BadLineDropsStop` | src/mass.c:1332-1412 | for instance a STOP, before any bad line |
| `CommandPipe.BlankLineDropsStop` | src/mass.c:1332-1412 | a STOP and an empty line, together and apart |
| `CommandPipe.Pipe.TakeItem` | src/mass.c:805-825 | removes the first line, or nothing |
| `CommandPipe.Pipe.ParseAll` | src/mass.c:837-858 | the draining loop leaves the specified data, buffer, mask and result |
| `CommandPipe.Pipe.ReadCallback` | src/mass.c:1295-1424 | one callback makes the specified step of the whole state, the calls to the player included |
| `CommandPipe.Pipe.MetadataGet` | src/mass.c:1814-1827 | hands the metadata over and resets it, leaving volume and PIN |
| `CommandHandoff.ItemStores` | src/mass.c:657-796 | an item changes a metadata field exactly as listed and leaves the others |
| `CommandHandoff.StoreKeepsLast` | src/mass.c:657-796 | after any items each field holds the last value stored in it, or zero or null |
| `CommandHandoff.BatchesPartition` | src/mass.c:1331-1333 | every item lies in exactly one batch between fetches or is pending, in order |
| `CommandHandoff.FetchReturnsLast` | src/mass.c:1815-1827 | for every interleaving of items and fetches, each fetch returns field by field the last value stored since the previous fetch, or zero or null |
| `CommandHandoff.FetchedAreDeliveries` | src/mass.c:1295-1340 | every interleaving of callbacks and fetches is such an interleaving of the lines it parses |
| `CommandHandoff.EveryFetchReturnsLast` | src/mass.c:1295-1340 | so each fetch between callbacks returns the last value stored by a line parsed since the previous one |
| `CommandHandoff.EventsAreLines` | src/mass.c:1295-1340 | while the pipe stays open those lines are the lines of the stream, each once and in order, however it is cut, reopened after ends of file, and whenever fetches come |
| `WatchList.UpdatedIds` | src/mass.c:925-1000 | ids watched afterwards: those watched and still requested, and those requested at positions 0 to 4 that could be opened; none twice |
| `WatchList.WantedSpec` | src/mass.c:939-950 | the pipes kept by phase 1 are exactly the watched ones whose id is requested |
| `WatchList.AddedInFront` | src/mass.c:952-996 | new pipes stand in front of the old ones, the last request first |
| `WatchList.AbandonedIs` | src/mass.c:964-991 | a node is neither kept nor freed exactly if it is one of the first five, could not be opened, and its id was neither kept nor opened before |
| `WatchList.Watcher.PipeWatchUpdate` | src/mass.c:925-1000 | the live list afterwards is exactly the specified one; every other node of both lists is freed, except requested ones whose watch_add failed; nodes are read and linked only while live, so no freed node is touched or reachable |
| `WatchList.DropUnwanted` | src/mass.c:939-950 | phase 1 frees exactly what is not requested while walking over it |
| `WatchList.AddNew` | src/mass.c:952-996 | phase 2 keeps, frees or abandons every requested node as specified |
| `WatchList.OldStays` | src/mass.c:952-996 | phase 2 neither removes nor brings back a watched pipe |
| `WatchList.Find` | src/mass.c:446-458 | finds a node exactly if one has the id |
| `WatchList.Remove` | src/mass.c:416-439 | unlinks the one node and frees it, the rest stays a list |
| `WatchList.Push` | src/mass.c:405-410 | puts the node in front |
| `Names.SameNameIs` | src/misc.c:1400-1437 | names are the same exactly if they have the same length and differ at most in the case of ASCII letters |
| `Names.SameNameExamples` | src/misc.c:1433 | for instance CN and cn, but not am and an, nor a pair of signs 32 codes apart |
| `Names.LessIs` | src/misc.c:1482-1488 | the order is decided at the first difference, or by which name ends there |
| `KeyValSpec.GetIsLookup` | src/misc.c:1423-1438 | get is lookup in a case-insensitive map |
| `KeyValSpec.AddIsInsert` | src/misc.c:1322-1383 | add inserts a free name at the end; a taken one leaves the list alone and succeeds exactly for an equal value |
| `KeyValSpec.RemoveIsDelete` | src/misc.c:1391-1421 | remove deletes exactly the one name; get afterwards finds nothing |
| `KeyValSpec.RemoveCutsOut` | src/misc.c:1400-1416 | the one pair is taken out and the others keep their order |
| `KeyValSpec.AddTwice` | src/misc.c:1331-1340 | repeating an insertion succeeds exactly when the whole value was stored |
| `KeyValSpec.RunRefinesMap` | src/misc.c:1322-1421 | every sequence of adds and removes is the same sequence on a case-insensitive map, and names stay distinct |
| `KeyVal.KeyValList.Get` | src/misc.c:1423-1438 | the walk over the list is get |
| `KeyVal.KeyValList.AddSize` | src/misc.c:1322-1383 | head, tail and links stay consistent and the pairs change as specified |
| `KeyVal.KeyValList.Add` | src/misc.c:1385-1389 | the same with the whole value |
| `KeyVal.KeyValList.Remove` | src/misc.c:1391-1421 | head, tail and links stay consistent, the pairs change as specified, and exactly the node taken out is freed |
| `KeyVal.KeyValList.Clear` | src/misc.c:1440-1462 | frees every node, each once and after its successor was read, and leaves a valid empty list |
| `KeyVal.KeyValList.Sort` | src/misc.c:1464-1503 | a valid acyclic list of exactly the same nodes, strictly ascending by strcmp, head first and tail last |
| `KeyVal.KeyValList.LinkSuccessors` | src/misc.c:1474-1490 | every sort pointer is the node of the least greater name, and the smallest node is found |
| `KeyVal.KeyValList.Relink` | src/misc.c:1492-1496 | taking the list apart sets every next pointer to the sort pointer |
| `KeyValOrder.SuccessorIsNext` | src/misc.c:1479-1485 | the node of the least greater name is the neighbour in sorted order |
| `KeyValOrder.SuccessorChain` | src/misc.c:1474-1496 | so the pointers form one chain through all nodes |
| `KeyValOrder.NamesDiffer` | src/misc.c:1331-1341 | names distinct under strcasecmp are distinct under strcmp |
| `KeyValOrder.SortedNodesSpec` | src/misc.c:1464-1503 | the sorted sequence is ascending and the same multiset of nodes |
| `KeyValOrder.GetAfterSort` | src/misc.c:1464-1503 | sorting changes no lookup |
| `RingBuffer.FifoOrder` | src/misc.c:1533-1587 | for every interleaving: initial content and accepted bytes, in order, are the bytes handed out and the content left |
| `RingBuffer.StepAmounts` | src/misc.c:1541-1542 | a write accepts the first min(length, free) bytes; a read hands out all it asks for, all there is, or all up to the end, and goes on behind it |
| `RingBuffer.TwoReadsEmpty` | src/misc.c:1563-1587 | two reads that ask for enough always empty the buffer; one does exactly when the data does not go round the end |
| `RingBuffer.SplitsAtEnd` | src/misc.c:1544-1553 | a write of n bytes copies min(n, distance) at its position if and only if the int holds the distance or n stays before the end |
| `RingBuffer.StopsAtEnd` | src/misc.c:1573-1579 | a read hands out min(length, distance, available) if and only if the same holds |
| `RingBuffer.FitsBelow4G` | src/misc.c:1544 | for distances below 2^32: below 2^31, or no need to go round |
| `RingBuffer.SafeSizes` | src/misc.c:1544-1579 | all writes at all positions are right if and only if the size is at most 2^31, and so are all reads |
| `RingBuffer.WritePastTheEnd` | src/misc.c:1544-1553 | for 2^31 + 1 bytes: a write at a position that is reached, not split where it should be |
| `RingBuffer.ReadPastTheEnd` | src/misc.c:1573-1579 | for the same size: a read at a state that is reached, handing out a byte past the end |
| `RingBuffer.Ring.constructor` | src/misc.c:1508-1517 | an empty buffer of the given size, any size |
| `RingBuffer.Ring.Write` | src/misc.c:1533-1561 | accepts min(length, free) bytes, appends them to the queue, touches no other position, wherever the code splits at the end |
| `RingBuffer.Ring.Read` | src/misc.c:1563-1587 | the stretch handed out holds the oldest bytes, which leave the queue; nothing is copied; wherever the code stops at the end |
| `Replace.SafeSnreplace` | src/misc.c:936-979 | succeeds with the pure replace-all exactly if it fits with its terminator; otherwise a terminated string with the first n matches replaced; nothing written at or past sz |
| `Replace.FindIsFirst` | src/misc.c:955 | the match found is the leftmost one |
| `Replace.ReplaceAllRejoins` | src/misc.c:955-976 | replace-all cuts the string at the matches and joins the pieces by the replacement; no piece has a match inside |
| `Replace.ProgressIsReplaceAll` | src/misc.c:955-976 | replacing one by one until nothing is found arrives at replace-all |
| `Replace.GivesUpRightly` | src/misc.c:962-963 | where one replacement does not fit, the complete result does not either |
| `Replace.EmptyPatternNeverEnds` | src/misc.c:955-976 | an empty pattern is found again after every replacement |
| `Replace.ReplacesEvery` | src/logger.c:180-181 | for a one-character pattern the character survives only inside the replacement |
| `Murmur.MurmurHash64` | src/misc.c:1177-1231 | the loop, the fall-through switch and the finish compute the block-by-block hash |
| `MurmurAnswer.KnownAnswer` | src/misc.c:1177-1231 | the hash of nine given bytes with seed 0, worked out step by step |
| `Murmur.MixTail` | src/misc.c:1207-1224 | the fall-through cases mix in the little-endian value of the tail bytes |
| `Murmur.UnmulOfMul` | src/misc.c:1197 | multiplication by the odd constant is undone by its inverse |
| `Murmur.FoldTwice` | src/misc.c:1198 | x ^= x >> 47 is its own inverse |
| `Murmur.SeedRecovered` | src/misc.c:1177-1231 | for a known key the seed can be computed from the hash, so the hash is injective in the seed |
| `Murmur.NoCollisionInOneBlock` | src/misc.c:1193-1203 | keys of equal length that differ inside one aligned block never collide |
| `Murmur.NoCollisionInTail` | src/misc.c:1205-1224 | keys of equal length that differ only after the last block never collide |
| `Bits.XorAssociates` | src/misc.c:1201 | exclusive or on numbers, defined bit by bit, is associative |
| `Bits.XorShift` | src/misc.c:1198 | shifting right distributes over it |
| `Regression.LinearRegression` | src/misc.c:1947-1978 | -1 exactly for no points or equal x; otherwise m and b satisfy the normal equations and r2 is the specified ratio, absent exactly for equal y |
| `Regression.DenominatorZero` | src/misc.c:1967-1969 | the denominator is never negative and zero exactly for no points or equal x |
| `Regression.LeastSquares` | src/misc.c:1971-1972 | the line of the normal equations has the least squared residuals of all lines, and no other has as few |
| `Regression.IndicesDiffer` | src/misc.c:1959 | without x the regression is refused exactly below two points |
| `Regression.LineRecovered` | src/misc.c:1971-1972 | points that lie on a line give exactly that line |
| `Regression.PositionsRecovered` | src/misc.c:1959 | without x as well, the positions counted from 0 |
| `Regression.Unexplained` | src/misc.c:1973-1974 | the residuals are (1 - r2) times the spread of y |
| `Regression.Determination` | src/misc.c:1973-1974 | r2 is in [0, 1], and 1 exactly when all points lie on the line |
| `Regression.ResidualsExpand` | src/misc.c:1957-1965 | the accumulated sums determine the squared residuals of every line |
| `Regression.Accumulate` | src/misc.c:1957-1965 | the loop accumulates the five sums, with positions for missing x |
| `Tokens.StrTok` | src/cliap2.c:362-382 | strtok_r in a buffer: the next token and the rest, one NUL written inside the string |
| `TxtParser.ParseKeyval` | src/cliap2.c:345-386 | the nested loops over the overwritten buffer compute the pure parse and fill the list with its result |
| `TxtParser.ParsePieceInPlace` | src/cliap2.c:365-380 | the inner loop on one piece adds its pair, fails on a third part, and writes only inside the piece |
| `TxtParser.RoundTrip` | src/cliap2.c:344-386 | printed pairs with text between them are accepted and added in order, into any list |
| `TxtParser.RoundTripKeepsFirsts` | src/cliap2.c:344-386 | into an empty list: the first pair for each case-insensitive key, in order |
| `TxtParser.PrintedPieces` | src/cliap2.c:362-383 | for every printed list, whatever its gaps: which bodies and gaps are parsed as pairs, and that the call stops at the first with a second `=` |
| `TxtParser.GapDecides` | src/cliap2.c:362-383 | for every printed list without `=` in the gaps: exactly which entries are added, and that they are all if and only if no two quoted pieces touch |
| `TxtParser.RoundTripNeedsGaps` | src/cliap2.c:344-386 | a list of different names comes back whole if and only if no two quoted pieces touch |
| `TxtParser.NoOpeningQuote` | src/cliap2.c:354-358 | without the opening quote nothing is read and the call fails |
| `TxtParser.TooManyParts` | src/cliap2.c:375-378 | a third part fails the call, after the first two were added as a pair; what follows is not read |
| `Logger.ComputeDjbHash` | src/misc.c:1080-1093 | the loop computes the recursive 32-bit hash |
| `Logger.OneByteChangesHash` | src/misc.c:1080-1093 | messages that differ in one byte have different hashes |
| `Logger.HashCollision` | src/misc.c:1080-1093 | two different messages with the same hash |
| `Logger.CounterIsRunIndex` | src/logger.c:121-136 | the counter is the position in the run of equal hashes, whatever came before, one more for a first run of hash 0, modulo 2^32 |
| `Logger.RunOutput` | src/logger.c:211-217 | message j of a run is written below 10, becomes the notice at 10, and is dropped until the counter turns negative |
| `Logger.RunAdds` | src/logger.c:211-217 | a run of k up to 2^31 messages adds min(k, 10) original lines, one notice if k > 10, and nothing else |
| `Logger.FirstRunOfZeroAdds` | src/logger.c:211-217 | a first run of hash 0 adds min(k, 9) original lines and one notice if k > 9 |
| `Logger.HashZeroHappens` | src/misc.c:1080-1093 | a message with hash 0 |
| `Logger.ContentIs` | src/logger.c:203-208 | a message up to 2047 bytes is logged as it is, a longer one as its first 2040 bytes and three dots, a formatting error as a fixed text |
| `Logger.EncodeIs` | src/logger.c:206-208 | the bytes of a fixed text are its characters |
| `Logger.NewHashStartsRun` | src/logger.c:126-135 | a message whose hash is not the last one starts a run and is written |
| `Logger.Writer.RepeatCount` | src/logger.c:121-136 | updates counter and last hash as specified and returns the counter as a signed int |
| `Logger.Writer.Write` | src/logger.c:196-218 | appends the line its counter leads to; a message that fits and has a new hash is written unchanged; the output stays the log of all messages so far |

## Left out

Idealisations and assumptions:

- Floating point: `double` products and quotients are exact integers rounded down (start time, playback) or exact reals (regression).
- `STOB` and `timespec_sub` come from a submodule that is not part of this model; assumed are `STOB(s, bits, c)` = s * c * bits / 8 and a subtraction that normalises.
- Time values are unbounded integers; only the 32- and 64-bit wraps named above are modelled. `len_ms` and `pos_ms` do not wrap at 2^31.
- `input_write` takes the whole buffer and empties it; the input loop does not call `play` again after EOF, STOP or a read error. It may call it again after a failed clock or drain.
- A second stream in one process needs an audio pipe with a name: `pipe_read_cb` (`src/mass.c:871-915`) starts it, and is not registered for standard input (`src/mass.c:354-358`), which `src/cliap2.c:93` fixes. The lemmas about it hold for whatever calls `setup` and `play` again.
- Regions under one mutex are one step each; setting, testing and clearing `is_new`, which the program does without the lock, are steps too.
- `strcasecmp` folds ASCII only, as in the C locale; strings are sequences of characters without NUL.
- Pointer checks for NULL arguments, allocation failure and the freeing of strings are left out; the freeing of list nodes is modelled.

Members whose contract is narrower than the code:

- PlaybackSource.Source.Setup: opening the pipe is left out, and the limit is arbitrary where the int product overflows.
- StartTime.GetStartTs: a pairing latency of 2^31 ms or more, and a sum of lag parts past 2^31, overflow in the code and not here; the caller ignores the result.
- CommandPipe.Pipe.ReadCallback: the player status is one input per callback, the message FLUSH that no line produces is left out, and whether the player asks for the PIN is up to the player.
- RingBuffer.Ring.Write: calls for which the code copies past the end are excluded, by exactly the condition of `RingBuffer.SplitsAtEnd`.
- RingBuffer.Ring.Read: calls for which the code hands out bytes past the end are excluded, by exactly the condition of `RingBuffer.StopsAtEnd`.
- Replace.SafeSnreplace: an empty pattern with an empty replacement, for which the loop does not end, is excluded.
- Murmur.MurmurHash64: little-endian reads, as on the machines the program runs on; the 32-bit variant is left out.
- Regression.LinearRegression: equal y values give no r2 here and 0/0 in the code.
- WatchList.Watcher.PipeWatchUpdate: watch_add and watch_del are an oracle and nothing; activating the event or starting stdin playback is left out.
- Logger.Writer.Write: time stamps, labels and the two output channels are left out.

Parts of the program not modelled:

- Sockets, DNS, HTTP, artwork download and temporary files; fetching artwork and parsing numbers (`strtol`) are oracles.
- libevent, threads, signals, option parsing and the configuration file; `start_buffer_ms` is a parameter.
- The player, input and output modules.
- `bytes_to_add`, `bytes_added` and all log texts of `play`: they change nothing else.
- The `db_queue` emulation in `src/wrappers.c`, whose list operations skip nodes.
- base64 coding, UUID formatting, the 32-bit hash variant, trimming of strings and the hexdump for logs: conversions without state that nothing modelled here calls.
