# Verified models of mwptools' mission and protocol code

A Dafny project that models the parts of this repository in which a mistake is easy to make and hard to see, and
proves what they are for.

- **Mission tools** (`cmd/mwp-plot-elevations`). `MissionPath` is the interpreter that expands a mission with JUMP items
  into the path flown; `MissionLoops` shows that nested loops compiled to JUMPs fly their structured unrolling; `Segments`
  splits a file into missions; `Rework` raises waypoints over terrain, and `ReturnHome` says what its adjustment for a
  return home does; `MissionSave` writes altitudes back and reads them again, and `SavedLegs` says which legs stay clear
  on the way; `Resampling` and `LocalDem` sample the terrain, and `SampledGround` measures how far from its assumed place
  a sample is taken. `Mission` and `Ints` hold the shared data types. Courses, distances and positions on the globe are
  arbitrary functions; Go's floats are reals.
- **Byte streams.** `Framing` defines what a stream of units means as a function of the whole string, whatever the chunks;
  each reader is a class that is fed byte by byte and proved to have reported exactly that. `Crc8`, `MspFrames`,
  `MspReader`, `MspCodec`, `MspEncode` and `MspErrors` cover MSP version 1, MSP version 2 (iNav wiki, "MSP V2", message
  structure) and LTM; `CrcTable` the table form of the checksum. `MavCrc`, `MavFrames`, `MavReader`, `MavCodec` and
  `MavErrors` cover MAVLink 1, 2 and signed 2 (MAVLink Developer Guide, "Packet Serialization"). `SPort` unstuffs S.Port
  telemetry, and `BlackboxSplit` cuts a file of several logs at their headers.
- **Protocols.** `FlashTool` is the flash downloader's message loop, `FlashRuns` its runs against a truthful flight
  controller. `MplexFrames`, `MplexChannel` and `MplexServer` are the MSP multiplexer's parser, channels and two loops;
  `MplexWorld` puts it between its clients and a flight controller that echoes flags, in every interleaving. A step reads
  any number of bytes, down to one, so the interleavings are those of single bytes.

Code that changes things in place is a class or a method on arrays, proved against a function of the old state; the
theorems are about those functions and hold for all inputs, runs and chunkings. Where the code falls short of what one
would expect, a failing input is named and the exact condition proved; where that is not for all inputs, the line says so:

| expected | a failing input | exactly when it holds |
|---|---|---|
| Rework clears every leg | `Rework.ReturnCanSpoil` | `ReturnHome.ClearExactly`, with `ReturnHome.LowersExactly` for the branch |
| a waypoint is read back at the altitude it was left at | `SavedLegs.FarEndCanBeMissed` | `MissionSave.WaypointReturns` |
| a clear leg is clear when read back | `SavedLegs.FarEndCanBeMissed` | `SavedLegs.SavedMissionStaysClear`, for legs with their samples on them whose near end fits the file |
| the tile cache is transparent | `LocalDem.StaleHit` | `LocalDem.FreshAfterExactly` |
| two damaged adjacent MAVLink bytes are noticed | `MavErrors.BorderExactly` | `MavErrors.DamageExactly` |
| a download can always go on | `FlashRuns.StuckRun` | `FlashRuns.NeverStuckExactly` |
| replies go to the client that asked | `MplexWorld.FlagsDecide` | `MplexWorld.RepliesReachAskers` |
| an error reply names the request | `MplexChannel.TwoRequests` | `MplexChannel.NamedExactly` |
| an encoded frame arrives | payloads past 249 and 32758 bytes | `MspEncode.EncodeMspv1`, `MspEncode.EncodeMsp` |
| a mission expands | a JUMP in front of the first item | without forward jumps `MissionPath.PanicExactly` and `MissionPath.PanicExactlyFromStop`; with them only `MissionPath.NoBadJumpExpands`, one way |

`dafny verify dfyconfig.toml` checks everything.

## Model

| member | source | states |
|---|---|---|
| `MissionPath.GetPoints` | cmd/mwp-plot-elevations/mission.go:271-356 | for every mission the loop ends and returns exactly the points of the recursive meaning of its items, or none where the position runs in front of the first item; the rank of the JUMP counters, later items weighing more, is the measure |
| `MissionPath.PathIsFlown` | cmd/mwp-plot-elevations/mission.go:281-354 | every expansion is a flight: from home, its first point, or from the first item, which is not a point of it, each point lies at its item's place with its altitude, number and mode bit, the return at home's; its course is the one from the point before, and its distance 1852 metres more for each mile of it |
| `MissionPath.TakeJump` | cmd/mwp-plot-elevations/mission.go:311-324 | one JUMP: skipped, reset or counted down and taken; the meaning of what remains is unchanged and the rank falls |
| `MissionPath.RankDrops` | cmd/mwp-plot-elevations/mission.go:311-324 | lowering the counter digit of one JUMP lowers the rank of the whole state, whatever happens to earlier ones: why overlapping, forward and self jumps end |
| `MissionPath.NoBadJumpExpands` | cmd/mwp-plot-elevations/mission.go:311-324 | a mission without a bad JUMP, one that is taken and leads in front of the first item, always expands, from home or from its first item, wherever the jumps lead and however they overlap |
| `MissionPath.EndIsFirstStop` | cmd/mwp-plot-elevations/mission.go:301-347 | without forward jumps the first RTH or bad JUMP decides how the interpretation ends, from any counters |
| `MissionPath.PanicExactly` | cmd/mwp-plot-elevations/mission.go:311-330 | without forward jumps, from home or from a first item that stops nothing, the expansion fails if and only if a bad JUMP comes before the first RTH |
| `MissionPath.PanicExactlyFromStop` | cmd/mwp-plot-elevations/mission.go:295-345 | without home and with a first item that is itself an RTH or a bad JUMP: the expansion fails if and only if the first item to end the run is a bad JUMP, the first one standing for every JUMP that leads back to it |
| `MissionPath.DistancesGrow` | cmd/mwp-plot-elevations/mission.go:333-354 | the distance flown never falls along the expanded path |
| `MissionLoops.FlatMeansUnrolled` | cmd/mwp-plot-elevations/mission.go:301-347 | compiling nested loops to JUMP items preserves meaning, from any base position and counters: the flat run is the unrolled one and then whatever follows |
| `MissionLoops.LoopRuns` | cmd/mwp-plot-elevations/mission.go:311-324 | a loop whose counter stands at c flies its body that many times and once more, and leaves with its counter at its first value |
| `MissionLoops.NestedMissionUnrolls` | cmd/mwp-plot-elevations/mission.go:293-347 | a whole nested mission visits exactly the items of its structured unrolling, and ends likewise |
| `MissionLoops.NestedMissionPoints` | cmd/mwp-plot-elevations/mission.go:281-356 | with home set, the points of a nested mission are home and then those of its unrolling; the expansion never fails |
| `MissionLoops.LoopsMultiply` | cmd/mwp-plot-elevations/mission.go:311-324 | each item is flown as often as the product of the pass counts of the loops around it, a loop making P2 + 1 passes |
| `Segments.NewMultiMission` | cmd/mwp-plot-elevations/mission.go:72-94 | the loop computes the split of the item list and leaves the numbers in the caller's list, in place |
| `Segments.SplitIsRenumbered` | cmd/mwp-plot-elevations/mission.go:77-91 | the missions put together are the caller's list as it is left, but for the end flag of the very last item |
| `Segments.SplitPartitions` | cmd/mwp-plot-elevations/mission.go:77-91 | the missions put together are the input but for No and the last flag; each is numbered from 1 and has the end flag on its last item only |
| `Segments.SplitIsUnique` | cmd/mwp-plot-elevations/mission.go:77-91 | a list of well-formed missions is what splitting their concatenation gives |
| `Segments.ResplitIsStable` | cmd/mwp-plot-elevations/mission.go:72-94 | splitting again what was split changes nothing |
| `Segments.ChosenMission` | cmd/mwp-plot-elevations/mission.go:136-147 | a number picks that mission of a file, a larger one the last, and one below 1 panics |
| `Segments.ChosenMissionSaves` | cmd/mwp-plot-elevations/mission.go:136-147 | on any mission chosen from a split file, of at most 127 items, neither panic of Save can happen |
| `Rework.Bucket` | cmd/mwp-plot-elevations/rework.go:24-42 | the bucketing loop finds for each waypoint the first sample that reaches it |
| `Rework.ReachedExactly` | cmd/mwp-plot-elevations/rework.go:25-26 | a sample reaches a waypoint if and only if the distance walked is half past every whole metre that the waypoint is half past |
| `Rework.RoundIsNearest` | cmd/mwp-plot-elevations/rework.go:26 | the rounding is to the nearest whole metre, and of two to the one farther from zero |
| `Rework.Rework` | cmd/mwp-plot-elevations/rework.go:15-94 | for every mission and ground, however short or coarse, the two loops turn the points into those of the leg-by-leg meaning, in place, without leaving any array or dividing by zero |
| `Rework.MarksOnLeg` | cmd/mwp-plot-elevations/rework.go:24-42 | with samples a metre or more apart, the two roundings never put a scanned sample at or past the end of its leg |
| `Rework.WorstIsWorst` | cmd/mwp-plot-elevations/rework.go:55-63 | the scan finds the largest positive deficit of the leg and the first sample where it occurs |
| `Rework.LegDoneClears` | cmd/mwp-plot-elevations/rework.go:43-93 | treating a leg that does not end at the return home clears all its scanned samples, whatever their distance |
| `Rework.ReworkClears` | cmd/mwp-plot-elevations/rework.go:43-93 | later legs never spoil an earlier one that they share a waypoint with |
| `Rework.ReworkedMissionClears` | cmd/mwp-plot-elevations/rework.go:15-94 | after Rework every interior leg away from the return home is cleared by the margin at every scanned sample, on missions of any length |
| `Rework.LongMissionOnLeg` | cmd/mwp-plot-elevations/rework.go:19-42 | on a mission at least as long in metres as there are samples every scanned sample lies on its leg |
| `ReturnHome.LowersExactly` | cmd/mwp-plot-elevations/rework.go:70-77 | the branch for the return home lowers a waypoint if and only if there is a deficit, the waypoint is above its ground by more than the margin, and the raise with its part at the worst sample stays below the margin |
| `ReturnHome.ClearExactly` | cmd/mwp-plot-elevations/rework.go:43-93 | every leg of a reworked mission, wherever the rounding has put its samples: in front of the return home it ends clear if and only if the lowering, written out from the worst deficit, the ground and the margin, stays within the leg's spare height; the leg to the return home if and only if its first waypoint moves by what the leg lacks; any other always |
| `ReturnHome.UnloweredStaysClear` | cmd/mwp-plot-elevations/rework.go:70-77 | a leg in front of the return home ends clear whenever the guard of the lowering fails |
| `ReturnHome.MissionClearsExactly` | cmd/mwp-plot-elevations/rework.go:15-94 | the same condition for a mission and the ground sampled along it |
| `SampledGround.SampleIsNear` | cmd/mwp-plot-elevations/dem.go:74-83 | on every mission a sample was taken within a sample distance and a metre of where Rework takes it to be, and one sample distance more for each waypoint crowded in front of it |
| `SampledGround.GroundIsCleared` | cmd/mwp-plot-elevations/rework.go:55-63 | over the place where a cleared sample was really taken the path keeps the margin, less its slope over that distance |
| `Rework.RaiseIsLeast` | cmd/mwp-plot-elevations/rework.go:64-69 | a common raise of both ends clears the leg if and only if it is at least the one chosen |
| `Rework.ReworkOnlyRaises` | cmd/mwp-plot-elevations/rework.go:64-69 | without a return home no waypoint is lowered |
| `Rework.TreatedAreMarked` | cmd/mwp-plot-elevations/rework.go:64-91 | the first end of every treated leg is marked as updated, and a waypoint left unmarked keeps its altitude |
| `Rework.ReturnCanSpoil` | cmd/mwp-plot-elevations/rework.go:70-77 | a mission whose last leg before the return starts out clear and is left 16 m short |
| `Rework.FourMetresSuffice` | cmd/mwp-plot-elevations/main.go:147-158 | the tool's sample count, rationed or not, keeps samples a metre or more apart if and only if the mission is at least 4 m long |
| `Rework.ThirtyMetres` | cmd/mwp-plot-elevations/main.go:147-158 | from 120 m on there is one sample for every whole 30 m of local terrain, and a web service is asked for 1024 at the most |
| `MissionSave.UpdateDetails` | cmd/mwp-plot-elevations/mission.go:358-393 | fills in ground and altitudes of every point as its definition says, for both altitude modes, in place |
| `MissionSave.StartedExactly` | cmd/mwp-plot-elevations/mission.go:358-393 | on every mission each waypoint has its own ground; its item's number is its altitude above home or above sea level by the mode, the other one follows; it starts at the absolute one or, when those are ignored, the margin above its own ground; home is on the ground and the return at its fixed height |
| `MissionSave.FindBestAlt` | cmd/mwp-plot-elevations/mission.go:163-177 | all visits of the waypoint get the highest of their altitudes, and no other point changes |
| `MissionSave.AllBestRaises` | cmd/mwp-plot-elevations/mission.go:188-193 | find_best_alt over all items only raises, and changes nothing but altitudes |
| `MissionSave.AllBestAgrees` | cmd/mwp-plot-elevations/mission.go:188-193 | afterwards all visits of an item agree in altitude |
| `MissionSave.Save` | cmd/mwp-plot-elevations/mission.go:179-226 | the items after Save are those of the saved mission; it panics exactly where that is undefined |
| `MissionSave.SaveWrites` | cmd/mwp-plot-elevations/mission.go:195-226 | on a numbered mission Save never panics and every written item holds the altitude of its visits, in its own altitude mode |
| `MissionSave.WhatIsWritten` | cmd/mwp-plot-elevations/mission.go:195-214 | a forced mode reaches every waypoint; a marked waypoint comes back at the altitude of its visits when it fits the file; and without a forced mode an item with no marked visit keeps altitude and mode |
| `MissionSave.SavedLanding` | cmd/mwp-plot-elevations/mission.go:215-225 | when asked to, Save sets P2 of the first LAND to the ground at its last visit, in the item's own mode as it then is; every other item keeps its P2, another LAND too |
| `MissionSave.SameRouteSameTrail` | cmd/mwp-plot-elevations/mission.go:301-347 | missions that differ only in altitudes and modes are interpreted alike |
| `MissionSave.AltitudesRoundTrip` | cmd/mwp-plot-elevations/mission.go:195-214 | re-reading the saved mission gives each written waypoint the altitude it was saved with, whatever mode is forced |
| `MissionSave.EveryItemHolds` | cmd/mwp-plot-elevations/mission.go:163-214 | an item ends up holding the altitude its visits were brought to if and only if one of them is written or it held that altitude before |
| `MissionSave.WaypointReads` | cmd/mwp-plot-elevations/mission.go:358-393 | the altitude at which each waypoint is read back, in either mode: through the file's 32-bit numbers that of its visits, if one of them is written, and else that of the item as it was |
| `MissionSave.WaypointReturns` | cmd/mwp-plot-elevations/mission.go:195-214 | a waypoint comes back at its best altitude if and only if the number written for it fits 32 bits or, when no visit of it is written, its item stood for that altitude before |
| `MissionSave.KeptIsMeant` | cmd/mwp-plot-elevations/mission.go:383-387 | when altitudes start from the mission, an item that is not written stands for the altitude of its visits, so such a waypoint always comes back |
| `SavedLegs.SavedMissionStaysClear` | cmd/mwp-plot-elevations/mission.go:163-226 | a treated leg that Rework leaves clear, with its samples on it and its near end's number fitting 32 bits, is clear in the mission read back if and only if what its far end comes back too low by is within its spare height |
| `SavedLegs.SavedMissionClears` | cmd/mwp-plot-elevations/rework.go:15-94 | expansion, Rework, find_best_alt, Save, reading back and Update_details together, the legs next to the return home included: such a leg that meets the condition of `ReturnHome.ClearExactly` is clear in the end on that same condition |
| `SavedLegs.FarEndSaved` | cmd/mwp-plot-elevations/rework.go:88-90 | that condition is met when the far end's number fits 32 bits and it starts a treated leg, altitudes start from the mission, or it is the return home |
| `SavedLegs.FarEndCanBeMissed` | cmd/mwp-plot-elevations/mission.go:195-214 | with the mission's altitudes ignored, the last waypoint of a mission without return home is not written: a leg over flat ground that is clear before saving is not clear when read back |
| `Framing.EventsContinue` | src/samples/mwplogstats/msp_parse.go:339-341 | reading a stream in two parts gives the events of the whole: the result does not depend on the chunks |
| `Framing.EventIsReported` | src/samples/mwplogstats/msp_parse.go:339-341 | whatever is reported is the report of a complete unit that stands in the stream |
| `MspReader.Reader.Parse` | src/samples/mwplogstats/msp_parse.go:339-495 | after any chunks the log analyser has delivered exactly the events of all the bytes fed, its fields hold the unfinished rest, and each message handed on, with its ok flag and whatever data it holds, is that of the frame delivered |
| `MspReader.Reader.Feed` | cmd/flashgo/msp.go:72-185 | one byte of the downloader's reader or the analyser's: it stays inside a unit, or completes one and reports it |
| `MspFrames.MspIsStable` | src/samples/mwplogstats/msp_parse.go:341-494 | how many bytes a unit takes is decided by those bytes alone |
| `MspCodec.StreamArrives` | src/samples/mwplogstats/msp_parse.go:339-495 | any MSP v1, MSP v2 and LTM frames with '$'-free noise between them arrive exactly as sent, in order, with nothing left over |
| `MspCodec.ValidStreamIsTold` | cmd/flashgo/msp.go:65-185 | a reader fed such a stream has handed on a message for each frame, in order, marked ok unless it is an error reply or LTM, and waits for '$' |
| `MspCodec.DeliveredIsFramed` | cmd/flashgo/msp.go:65-185 | every delivered message is the report of a complete frame in the stream |
| `MspCodec.DeliveredIsChecked` | cmd/flashgo/msp.go:133-181 | a delivered frame's bytes are exactly the frame of its command, length and payload with the right checksum |
| `MspCodec.DirectionsExactly` | cmd/flashgo/msp.go:92-110 | a v2 frame alone on the wire is delivered as sent if and only if its direction is '!' or '>', or '<' and the reader is not the downloader's |
| `MspCodec.LtmLengths` | src/samples/mwplogstats/msp_parse.go:68-75 | an LTM frame is 18, 11 or 10 bytes long by its letter, and after any other letter there is none |
| `MspEncode.EncodeMspv1` | cmd/flashgo/msp.go:203-223 | the frame arrives if and only if the payload has at most 249 bytes: the buffer size is computed modulo 256 |
| `MspEncode.EncodeMsp` | cmd/flashgo/msp.go:225-246 | the frame arrives if and only if the payload has at most 32758 bytes: sizes are 16-bit signed |
| `MspErrors.V2SeesOneByte` | cmd/flashgo/msp.go:108-156 | any change of one flag, id, payload or checksum byte of a v2 frame of any length is rejected and the rest of the stream is unaffected |
| `MspErrors.V1SeesOneByte` | cmd/flashgo/msp.go:158-181 | likewise for one command, payload or checksum byte of a v1 frame |
| `MspErrors.BackToStart` | cmd/flashgo/msp.go:72-185 | from any state a reader is back in its first state within 65544 bytes |
| `Crc8.Crc8DvbS2` | cmd/flashgo/msp.go:53-63 | the shift loop computes eight steps of the CRC register |
| `Crc8.CrcInjective` | cmd/flashgo/msp.go:53-63 | the CRC step is injective in the register and in the byte |
| `Crc8.CrcSeesOneByte` | cmd/flashgo/msp.go:53-63 | two strings of any length that differ in one byte have different CRCs |
| `CrcTable.TableIsShifts` | src/samples/radar_sim/msp.rb:32-65 | every one of the 256 table entries is what eight shifts make of its index |
| `CrcTable.Crc2DvbS2` | src/samples/radar_sim/msp.rb:67-70 | one table step equals one shift-form step |
| `CrcTable.CrcOfBytes` | src/samples/radar_sim/msp.rb:264-266 | the table-driven CRC of a string of any length equals the shift-driven one |
| `CrcTable.Msp2Encode` | src/samples/radar_sim/msp.rb:250-269 | the encoder makes the v2 frame; its payload arrives if and only if it has fewer than 65536 bytes |
| `CrcTable.Msp1Encode` | src/samples/radar_sim/msp.rb:271-284 | likewise for v1 and 256 bytes |
| `MavCrc.MavlinkCrc` | src/samples/mavtest/mavreader.go:171-177 | the straight-line byte step on 16-bit words gives what eight reflected single-bit steps with 0x8408 give |
| `MavCrc.StepIsBitByBit` | src/samples/mavtest/mavreader.go:171-177 | the step's definition equals those eight single-bit steps, for every register and byte |
| `MavCrc.StringIsBitByBit` | src/samples/mavtest/mavreader.go:171-177 | so does its fold over any byte sequence, from any register |
| `MavCrc.TwoStepsInjective` | src/samples/mavtest/mavreader.go:171-177 | two steps are injective in the two bytes taken together |
| `MavCrc.CrcSeesTwoBytes` | src/samples/mavtest/mavreader.go:171-177 | a change of two adjacent bytes changes the CRC of a string of any length |
| `MavCrc.SilentExactly` | src/samples/mavtest/mavreader.go:171-177 | a difference in one byte leaves the upper half of the register unchanged two steps later if and only if it is 0x91, and then the lower half differs by 0x85 |
| `MavReader.Reader.FindSeed` | src/samples/mavtest/mavreader.go:160-169 | the table loop returns the first entry's seed, or zero |
| `MavFrames.LookupIsFirst` | src/samples/mavtest/mavreader.go:160-169 | that seed is the one of the first entry with the id, and zero if there is no such entry |
| `MavCodec.StartsFull` | src/samples/mavtest/mavreader.go:254-259 | the checksum starts from 0xffff |
| `MavReader.Reader.Process` | src/samples/mavtest/mavreader.go:237-393 | after any chunks the reader has accepted and rejected exactly the frames of all the bytes fed, shown those that are shown with their version, holds the payload read so far and stands inside or after the frame those bytes say |
| `MavReader.Reader.Store` | src/samples/mavtest/mavreader.go:277-283 | the index csize - needed is always inside the 256-byte buffer, and the buffer's front is the payload read so far |
| `MavFrames.SignatureByte` | src/samples/mavtest/mavreader.go:384-388 | a signature byte changes no verdict; the frame ends with the thirteenth |
| `MavCodec.StreamArrives` | src/samples/mavtest/mavreader.go:237-393 | any MAVLink 1, MAVLink 2 and signed MAVLink 2 frames, with noise free of 0xfe and 0xfd between them, are accepted as sent, in order |
| `MavCodec.ValidStreamCounts` | src/samples/mavtest/mavreader.go:237-393 | a reader fed such a stream has counted each frame as ok and none as failed, shown those that are shown, with the sent payloads, and waits for a new frame |
| `MavErrors.BorderExactly` | src/samples/mavtest/mavreader.go:288-298 | a change of the last byte under the checksum and the first checksum byte goes unnoticed if and only if the differences are 0x91 and 0x85 |
| `MavErrors.DamageExactly` | src/samples/mavtest/mavreader.go:171-177 | any change of two adjacent bytes of a frame of any length, its start and seed kept: the checksum fits if and only if the change is that one |
| `MavErrors.Version1SeesTwoBytes` | src/samples/mavtest/mavreader.go:284-298 | a v1 frame of any length with any two adjacent bytes changed, start, size and id as they were, is rejected in its place, except for that one change, which is accepted |
| `MavErrors.Version2SeesTwoBytes` | src/samples/mavtest/mavreader.go:361-383 | likewise for v2, flags as they were, signed or not; after a rejection what follows the checksum is read as new input, after the one silent acceptance the signature is taken or waited for |
| `MplexChannel.SChan.MspParse` | src/samples/mspmplex/mspparser.go:54-143 | a channel passes on exactly the whole frames of what it is fed, cut anyhow; it stops the program if and only if a byte would go past its 1024-byte buffer; and a client gets an error reply for each '$' not followed by 'X' |
| `MplexChannel.Version1IsRefused` | src/samples/mspmplex/mspparser.go:64-76 | a version 1 request at the front of a client's datagram, whatever follows it, is answered first, with a whole error frame for its command |
| `MplexChannel.NamedExactly` | src/samples/mspmplex/mspparser.go:70-72 | the error reply to a version 1 request anywhere in a datagram names its command if and only if the datagram's fifth byte is that command |
| `MplexChannel.SecondIsMisnamed` | src/samples/mspmplex/mspparser.go:70-72 | the second of two requests is answered for the first one's command, whatever its own |
| `MplexChannel.TwoRequests` | src/samples/mspmplex/mspparser.go:70-72 | a datagram of requests for commands 1 and 2 gets two replies that both name command 1 |
| `MplexChannel.ErrorsNameFifth` | src/samples/mspmplex/mspparser.go:70-72 | all error replies to a datagram name its fifth byte, however many requests it holds |
| `MplexChannel.ErrorsAreWhole` | src/samples/mspmplex/mspparser.go:145-160 | every error reply is a whole frame with direction '!', no flags, the command in two bytes and no payload |
| `MplexChannel.SChan.Reencode` | src/samples/mspmplex/mspparser.go:42-52 | the frame in the buffer gets the owner in its flag byte and the checksum that fits |
| `MplexFrames.MarkedIsWhole` | src/samples/mspmplex/mspparser.go:42-52 | marking keeps everything but the flags, and the marked frame is valid again |
| `MplexFrames.MarkedFlags` | src/samples/mspmplex/mspparser.go:45 | the mark keeps the two low flag bits and joins the others with the owner's id |
| `MplexFrames.OrIsBitwise` | src/samples/mspmplex/mspparser.go:45 | a bit of the joined flags is set if and only if one of the two has it |
| `MplexServer.Server.Datagram` | src/samples/mspmplex/main.go:132-155 | one turn of the datagram loop: a known or new client, the 64th one stopping the program, and what goes to the line |
| `MplexServer.Server.AddrForId` | src/samples/mspmplex/main.go:158-169 | the loop over the map finds the one client with the id, or none |
| `MplexServer.Server.SerialRead` | src/samples/mspmplex/main.go:171-184 | one turn of the serial loop: each whole frame goes to the client whose id its flags hold |
| `MplexWorld.RepliesReachAskers` | src/samples/mspmplex/mspparser.go:170-186 | in every interleaving, with a flight controller that echoes the flag byte: each datagram sent is the reply of its turn, and goes to the client that asked if and only if the client's upper flag bits are among those of its id |
| `MplexWorld.LowFlagsAlwaysReturn` | src/samples/mspmplex/mspparser.go:42-52 | with client flags below 4 every reply that has come in reaches the client that asked, and none is lost |
| `MplexWorld.UpperFlagsGoAstray` | src/samples/mspmplex/mspparser.go:42-46 | with id 0 any upper flag bit claims another id |
| `MplexWorld.FlagsDecide` | src/samples/mspmplex/mspparser.go:170-186 | for every flag byte, request and reply a reached run of two clients in which the reply to the first goes to it if and only if the flags are below 4, to the second if they name its id, and otherwise to nobody |
| `MplexWorld.LineIsWholeFrames` | src/samples/mspmplex/mspparser.go:131-141 | the serial line carries whole frames with valid checksums and nothing else |
| `MplexWorld.FittingNeverStops` | src/samples/mspmplex/mspparser.go:123-134 | no datagram of a client with payloads of at most 1015 bytes stops the multiplexer, however the client cuts its stream |
| `MplexWorld.FittingRunsNeverStop` | src/samples/mspmplex/main.go:132-184 | over whole runs: with at most 63 clients that each send a stream of fitting frames, cut into datagrams at will, every action that can happen has an outcome, in every reachable world |
| `MplexWorld.ReadKeeps` | src/samples/mspmplex/main.go:171-184 | reading any number of the bytes on their way never stops the multiplexer and keeps replies and requests together |
| `FlashTool.Tool.Handle` | cmd/flashgo/main.go:132-274 | one message: the new state, the request sent, or the panic, for every message whatever |
| `FlashTool.ReadSize` | cmd/flashgo/main.go:99-103 | the read size is a positive number of whole kilobytes, the largest not above the one asked for |
| `FlashRuns.DownloadIsSafe` | cmd/flashgo/main.go:177-269 | in every run, whatever the polling after an erase reports, the file is the beginning of the flash as far as it was read, every request lies within the download, and without -only-erase nothing is erased before the file is complete |
| `FlashRuns.DownloadCompletes` | cmd/flashgo/main.go:227-265 | a run that ends by itself after creating the file has the whole download in it, and has erased the flash if and only if it was told to |
| `FlashRuns.TruthNeverPanics` | cmd/flashgo/main.go:132-274 | truthful answers never make the tool panic |
| `FlashRuns.NeverStuck` | cmd/flashgo/main.go:218-253 | with a read size below 64 KiB, or when nothing is read, the run can always go on |
| `FlashRuns.CanEnd` | cmd/flashgo/main.go:132-269 | every reached run of such a tool can be brought to its end by truthful answers, an erase included |
| `FlashRuns.EraseEndsReady` | cmd/flashgo/main.go:177-189 | a run that has asked for an erase ends by itself only on a summary whose ready byte is 1 |
| `FlashRuns.PollExactly` | cmd/flashgo/main.go:177-189 | while an erase is polled, a ready answer ends the run and any other asks once more and changes nothing else |
| `FlashRuns.OnlyWhenChecked` | cmd/flashgo/main.go:142-175 | in every run the flash is looked at, read or erased only after version 2 of the protocol, INAV and an enabled blackbox on a flash chip have been reported; with -info or -only-erase nothing is read |
| `FlashRuns.OthersIgnored` | cmd/flashgo/main.go:138-272 | a message of another kind changes nothing, and the reader's own message ends the loop |
| `FlashRuns.StuckRun` | cmd/flashgo/main.go:218-253 | with a larger one there is a flash and a reached, unfinished run in which no truthful answer is possible |
| `FlashRuns.NeverStuckExactly` | cmd/flashgo/main.go:218-253 | every unfinished run of every flash can go on if and only if the read size is below 64 KiB or nothing is read |
| `FlashRuns.RequestsAreNeverEmpty` | cmd/flashgo/main.go:218-253 | requests are never for nothing if and only if the read size is at most 64512 |
| `BlackboxSplit.GetMeta` | src/samples/bbsplit/src/main.rs:29-69 | the segments start exactly at the headers, garbage in front of them included, are adjacent, and reach to the end of the file |
| `BlackboxSplit.Save` | src/samples/bbsplit/src/main.rs:71-91 | the files written hold one log each and together are the file from its first header on; there are none if and only if the file has fewer than two headers |
| `BlackboxSplit.HeadersApart` | src/samples/bbsplit/src/main.rs:30-31 | two headers never overlap |
| `SPort.CheckCrc` | src/samples/frsky/frsky.rb:96-105 | the carry fold accepts if and only if the byte sum is a non-zero multiple of 255, at any length |
| `SPort.FoldKeeps` | src/samples/frsky/frsky.rb:100-102 | one carry fold keeps the sum modulo 255, with 255 rather than 0 for its non-zero multiples |
| `SPort.OneByteExactly` | src/samples/frsky/frsky.rb:96-105 | one changed byte goes unnoticed if and only if it is one of the first two or a 0 and a 255 are exchanged with something left to sum |
| `SPort.MaskIsOneBit` | src/samples/frsky/frsky.rb:148-150 | unstuffing changes the sixth bit and no other: 0x5e and 0x5d stand for 0x7e and 0x7d |
| `SPort.Scanned` | src/samples/frsky/frsky.rb:127-155 | good, bad and short add up to the number of 0x7e bytes of any input; good counts the packets with a sound checksum; the histogram holds how often each other size occurred |
| `SPort.PacketsRecovered` | src/samples/frsky/frsky.rb:131-155 | stuffed packets after any input that does not end inside an escape, closed by 0x7e, are recovered exactly and in order |
| `SPort.RecordingRecovered` | src/samples/frsky/frsky.rb:125-155 | from a fresh start all packets are recovered and one start byte closes a packet of size zero |
| `Resampling.Advance` | cmd/mwp-plot-elevations/dem.go:76-81 | the cursor moves to the next point beyond the distance, if there is one |
| `Resampling.CursorMoves` | cmd/mwp-plot-elevations/dem.go:74-83 | that point is the first of the whole path beyond it, and the sample lies between it and the point before |
| `Resampling.Resample` | cmd/mwp-plot-elevations/dem.go:63-95 | every entry is written exactly once, in order, with its sample; on a path of no length only two entries are |
| `Resampling.SampleStands` | cmd/mwp-plot-elevations/dem.go:84-90 | a sample is the elevation, without its fraction, at as many miles from the point before, on the course of its leg, as the distance is past it |
| `Resampling.EvenSteps` | cmd/mwp-plot-elevations/dem.go:76-77 | the samples run from one end of the path to the other in even steps |
| `Resampling.GetDemElevations` | cmd/mwp-plot-elevations/dem.go:52-97 | both branches: the elevations at the points, or the samples along the path, no data where a checked place has none, and the panics for too few samples or points |
| `Resampling.MissionIsAlong` | cmd/mwp-plot-elevations/mission.go:281-354 | the points a mission expands to form such a path |
| `LocalDem.HgtDb.FindHgt` | cmd/mwp-plot-elevations/localdem.go:133-141 | finds an open tile with the base, or there is none |
| `LocalDem.HgtDb.Lookup` | cmd/mwp-plot-elevations/localdem.go:143-155 | an open tile with the base is used; otherwise the one for the place is opened and kept; open tiles keep distinct bases |
| `LocalDem.FileHeight` | cmd/mwp-plot-elevations/localdem.go:80-93 | at a grid point of a file of either size on the disk the elevation is the signed 16-bit number in the file's bytes, high one first, rows from north to south |
| `LocalDem.NameIsCorner` | cmd/mwp-plot-elevations/localdem.go:38-56 | a file is named after the south-west corner of its degree square |
| `LocalDem.WidthExactly` | cmd/mwp-plot-elevations/localdem.go:67-75 | a file is taken for a tile when it holds the tile's heights and less than one row more |
| `LocalDem.LookupAll` | cmd/mwp-plot-elevations/localdem.go:143-155 | off the equator and the prime meridian any sequence of lookups, with tiles added in between, gives what uncached lookups give |
| `LocalDem.CachedIsFresh` | cmd/mwp-plot-elevations/localdem.go:30-56 | off the axes a tile's base decides its file |
| `LocalDem.AxesDiffer` | cmd/mwp-plot-elevations/localdem.go:30-56 | on either axis there is a disk on which a lookup after one beside the axis differs from an uncached one |
| `LocalDem.FreshAfterExactly` | cmd/mwp-plot-elevations/localdem.go:143-155 | a lookup after one at any other place gives, on every disk, what an uncached one gives if and only if the two places have different bases or the same file |
| `LocalDem.FreshExactly` | cmd/mwp-plot-elevations/localdem.go:30-56 | after places off the axes that is so if and only if the lookup is off the axes too |
| `LocalDem.LookupAndCheck` | cmd/mwp-plot-elevations/dem.go:31-50 | off the axes a lookup that downloads a missing tile once gives the uncached height on the disk as it then is |
| `LocalDem.ElevationIsInterpolated` | cmd/mwp-plot-elevations/localdem.go:95-117 | all four reads lie inside the tile, the grid points surround the place, and the elevation lies between their heights |
| `LocalDem.SurfaceIsExact` | cmd/mwp-plot-elevations/localdem.go:95-117 | where the four heights lie on a surface linear along rows and columns, as any four do (`LocalDem.SurfaceThrough`), the elevation is the surface's at that very place |
| `LocalDem.GridPointIsExact` | cmd/mwp-plot-elevations/localdem.go:95-117 | on a grid point the elevation is the height read there; `LocalDem.FileHeight` says which bytes that is |

## Left out

- Rework.MarksOnLeg: needs samples a metre or more apart; `Rework.FourMetresSuffice` and `Rework.LongMissionOnLeg` show
  that the tool's own sample count meets this from 4 m on.
- Rework.Rework: IEEE arithmetic is not modelled; without samples Go's sample distance is no number and is not used.
- MissionPath.PanicExactly: covers missions without forward jumps; with them, whether a bad JUMP is reached depends on
  the counters, and `MissionPath.NoBadJumpExpands` is one way only.
- MissionPath.PanicExactlyFromStop: likewise.
- MissionSave.AltitudesRoundTrip: asks that the altitudes fit the file's 32-bit numbers, which the conversion truncates;
  `MissionSave.WaypointReturns` is exact.
- SavedLegs.SavedMissionStaysClear: asks that the leg's samples lie on it, as they do from 4 m on, since find_best_alt may
  raise its near end, and that the near end's number fits 32 bits.
- MspEncode.EncodeMsp: the index panics of Go are one result, without saying which index.
- MavReader.Reader.Process: CRC_EXTRA is any table; direction and time stamps, which come with the chunks and are only
  printed, are left out.
- MplexChannel.SChan.MspParse: the fields ok and flags, which nothing reads, are left out. Error replies are recorded with
  the channel and are not among the datagrams of `MplexWorld`, which follows the replies of the flight controller.
- MplexServer.Server.SerialRead: routes the frames of a chunk after parsing it, not one by one while parsing; the map of
  clients does not change within a step. A frame whose id no client has becomes a datagram to nobody.
- FlashRuns.DownloadIsSafe: the flight controller answers each request once and truthfully, in order; a delayed poll of
  the erase state is a request like any other.
- LocalDem.HgtDb.Lookup: tile files do not change while open, and names are hemispheres and degrees rather than text.
- Resampling.Resample: the places of the samples on the globe are an arbitrary function of the course and distance.
- Reading and writing files, serial ports, sockets, XML and JSON, downloads, terminal output, formatted printing.
- Trigonometry of courses and positions, and IEEE rounding.
- Line of sight, geozones, per-message decoding and scaling, name tables, the user interface.
- The other copies of the MSP code (`src/samples/caltool`, `src/samples/set-test`) and of the mission code
  (`cmd/movemission`), which would repeat these proofs.
