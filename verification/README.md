# Verified model of the USB class drivers and the I2C EEPROM driver

A Dafny model of the parts of the `experiments/EXP21/driver` USB class drivers, and of the polled
I2C driver of `experiments/EXP10/driver`, that hold state machines, rings, parsers and framing.
Interrupts and completions are atomic steps on a shared state; `usb_submit_urb` and
`usb_unlink_urb` are abstract transitions; devices, processes and the host controller may do their
part at any moment.

Classes keep the drivers' fields and update them in place. Each of their methods is tied to a
function of the old state; invariants, runs and round trips are then proved about those functions.
Ghost fields record histories: bytes committed and taken, packets queued, URBs freed.

| file | models |
|---|---|
| `Bits.dfy`, `Numbers.dfy` | bytes, bit patterns, powers of two; small arithmetic |
| `Rings.dfy` | byte rings of any size, windows of them |
| `AudioRing.dfy` | the paged DMA buffer and its sizes |
| `AudioFormat.dfy` | sample formats and the in-place conversion |
| `AudioRate.dfy` | the Q10.14 sample clock and its feedback |
| `AudioStream.dfy` | the three-step protocol between a process and the completion handlers |
| `AudioPieces.dfy`, `AudioPlayback.dfy`, `AudioCapture.dfy` | both directions between the ring and the USB transfer buffers |
| `AudioUrbs.dfy` | URB flags, start, completion, stop |
| `AudioLevels.dfy`, `AudioUnits.dfy`, `AudioMixer.dfy` | mixer levels, the unit graph and its walk, the construction of the OSS mixer |
| `AudioControls.dfy` | which controls the finished mixer has, from the descriptors alone |
| `HidBits.dfy`, `HidReport.dfy`, `HidParser.dfy` | bit fields, reports and their events, the report-descriptor parser |
| `HidDescriptor.dfy` | what a report descriptor means, from its items alone |
| `ScsiOrder.dfy` | the six-state machine of the SCSI scanner driver |
| `CatcFraming.dfy` | burst framing and double buffering of a USB Ethernet adapter |
| `AcmFlow.dfy` | flow control with left-over data |
| `BluetoothHci.dfy` | reassembly of HCI packets |
| `AsyncUrbs.dfy` | the life of asynchronous URBs in usbdevfs |
| `DeviceListing.dfy`, `DevicePaths.dfy` | reads by offset: device dump, descriptors, bus directory; the order of the devices |
| `IicEeprom.dfy` | the polled I2C driver with an EEPROM on its bus |

Verify with `dafny verify dfyconfig.toml`.

Where a promise does not hold in general, the exact condition is stated and proved:

* A plain payload in `hpusbscsi.c` is served correctly if and only if the status byte does not
  overtake the command block (`ScsiOrder.PlainPayloadServedIff`).
* The threshold at which `catc.c` stops the queue suffices if and only if packets have at most
  1500 bytes; the declared maximum is 1536 (`CatcFraming.NeverOverflowsIff`).
* `hid_set_field` accepts only values that fit if and only if the range is signed or its maximum
  fits the field, because `implement` does not mask (`HidReport.AcceptedFitIff`,
  `HidReport.NeighboursKeptIff`).
* The sample clock keeps to its rate if and only if that is below 2^21 samples a second, where its
  32-bit product does not wrap (`AudioRate.NominalDrift`, `AudioRate.TwoMegaSamples`).
* The report-descriptor parser accepts what it should if and only if no usage range ends with
  0xFFFFFFFF, where the counter of its loop wraps (`HidParsing.ParseReport`,
  `HidParsing.RangeAddedIff`, `HidParsing.FullRange`).
* The report-descriptor parser stays within its table of 256 reports if and only if every field is
  declared under a report id of at most 255 (`HidParsing.ParseReport`, `HidParsing.KeysInTable`,
  `HidParsing.ReportId256`).
* Starting a stream that does not run leaves the buffers of URBs in flight alone if and only if no flag
  is still set (`AudioUrbs.StartTearsIff`).
* A stop during the allocation of a start leaves the submitted URBs their buffers if and only if it
  is through before the first buffer is replaced (`AudioUrbs.StopInWindowIff`,
  `AudioUrbs.DisconnectInWindow`).
* Played bytes all reach a submitted descriptor if and only if none that had taken bytes is refused
  (`AudioPlayback.SubmittedIsFrontIff`).
* Closing a usbdevfs file with no call under way frees every URB if and only if none that a discard
  had unlinked before `usb_submit_urb` returned is still with the host controller
  (`AsyncUrbs.DevState.DestroyAllAsync`, `AsyncUrbs.TransitIsEmptyIff`, `AsyncUrbs.DiscardTooEarly`).
* An unlink in usbdevfs meets a URB that is already freed if and only if its submission failed
  meanwhile, or it completed and was reaped (`AsyncUrbs.UnlinkMeetsFreedIff`).
* A mixer level is read correctly if and only if the setting is not below its minimum, apart from
  one setting of an inverted range, and comes back unchanged if and only if it is a whole number of
  steps (`AudioLevels.LevelIsPercentIff`, `AudioLevels.LevelComesBackIff`).
* A scatter-gather command of `hpusbscsi.c` whose next fragment cannot be submitted is never called back,
  where every other failure is answered at once (`ScsiOrder.FragmentNotAccepted`,
  `ScsiOrder.ErrorsCallBack`).
* Sample conversion is lossless if and only if nothing gets narrower (`AudioFormat.LosslessIff`).

## Model

| member | source | states |
|---|---|---|
| Rings.AdvanceIsModular | experiments/EXP21/driver/audio.c:532-553 | Stepping a position with reset at the end of the ring, as every copy loop does, is addition modulo the ring size, whatever that size is. |
| Rings.ReadBack | experiments/EXP21/driver/audio.c:532-576 | Bytes written into the ring from a position are the bytes read from it, as long as they fit. |
| Rings.WriteBehind | experiments/EXP21/driver/audio.c:2223-2281 | Writing behind a window of unread bytes leaves the window unchanged. |
| AudioRing.Ld2 | experiments/EXP21/driver/audio.c:411-434 | The shifts by 16, 8, 4, 2 and 1 find the position of the highest one bit. |
| AudioRing.DmaBuf.ChooseShift | experiments/EXP21/driver/audio.c:470-482 | The fragment size is the power of two the OSS settings ask for, or the one just below the target rate, and at least 8. |
| AudioRing.DmaBuf.ChooseSizes | experiments/EXP21/driver/audio.c:483-490 | For every legal setting: fragment shift 3 to 15, at least 4 fragments, and a ring of at most 2^17 bytes; fewer fragments than fit only if asked for. |
| AudioRing.DmaBuf.SetSizes | experiments/EXP21/driver/audio.c:469-491 | Positions and counts are cleared and the ring size is the number of fragments times the fragment size. |
| AudioRing.DmaBuf.PreparePages | experiments/EXP21/driver/audio.c:492-505 | The page loop ends with all pages below the ring size allocated, each filled with silence. |
| AudioRing.DmaBuf.Init | experiments/EXP21/driver/audio.c:463-511 | After success every byte of the ring lies in a page, the ring is silent, no larger than the pages, and empty; it succeeds whenever enough pages are free. |
| AudioRing.DmaBuf.Chunk | experiments/EXP21/driver/audio.c:540-545 | A copy step is at least one byte and leaves neither its page nor the ring, so the loops make progress. |
| AudioRing.DmaBuf.CopyTo | experiments/EXP21/driver/audio.c:578-601 | Copying page by page writes into the byte ring one byte after another, wrapping modulo the ring size; a fault leaves exactly the prefix copied so far. |
| AudioRing.DmaBuf.CopyFrom | experiments/EXP21/driver/audio.c:603-626 | The same for reading out: the bytes are those of the byte ring, up to a fault. |
| AudioRing.DmaBuf.CopyIn | experiments/EXP21/driver/audio.c:532-553 | For any amount of data, the ring and the write position are those of the simple byte ring modulo its size. |
| AudioRing.DmaBuf.CopyOut | experiments/EXP21/driver/audio.c:555-576 | For any amount of data, the bytes and the read position are those of the simple byte ring; the ring is unchanged. |
| AudioRing.DmaBuf.CopyInUser | experiments/EXP21/driver/audio.c:578-601 | No position moves; it is refused unless the buffer is ready and not mapped. |
| AudioRing.DmaBuf.CopyOutUser | experiments/EXP21/driver/audio.c:603-626 | The same for reading out: the bytes are those of the byte ring, up to a fault. |
| AudioFormat.LosslessIff | experiments/EXP21/driver/audio.c:691-812 | Converting to another format and back is the identity on all inputs exactly when the sample does not get narrower and no channel is merged (unsigned/signed, byte orders, 8 to 16 bit and mono to stereo are lossless). |
| AudioFormat.WiderRoundTrip | experiments/EXP21/driver/audio.c:691-812 | The lossless direction for one buffer: mono to stereo to mono, 8 to 16 bit and back, any sign and byte order. |
| AudioFormat.NarrowLosesLowByte | experiments/EXP21/driver/audio.c:691-812 | 16 to 8 bit loses something for some input. |
| AudioFormat.MonoLosesDifference | experiments/EXP21/driver/audio.c:691-812 | Stereo to mono loses something for some input. |
| AudioFormat.DecodeIsAmplitude | experiments/EXP21/driver/audio.c:698-749 | The word decoded from a sample is its value: an unsigned byte less 128, times 256; a signed byte in two's complement, times 256; 16 bits with the low byte first or last, less 2^15 if unsigned and in two's complement if signed. |
| AudioFormat.EncodeIsAmplitude | experiments/EXP21/driver/audio.c:763-812 | The bytes encoded for a word have that value, or in one byte the value rounded down to a multiple of 256. |
| AudioFormat.ConvertSoundsLike | experiments/EXP21/driver/audio.c:691-812 | Each output sample, read by its own format's arithmetic, is the source sample of the same frame and channel (channel 0 for both if the input is mono) or, from stereo to mono, the mean of left and right rounded down (2m <= left + right < 2m + 2); in 8 bits rounded down to a multiple of 256. |
| AudioFormat.DecodeInto | experiments/EXP21/driver/audio.c:698-749 | Reading from the last sample down decodes every sample of the input, even when the input is the scratch buffer being written. |
| AudioFormat.Expand | experiments/EXP21/driver/audio.c:750-757 | Mono to stereo in place from the end copies every sample before its place is overwritten. |
| AudioFormat.Contract | experiments/EXP21/driver/audio.c:758-762 | Stereo to mono in place from the start: for each m of the output, 2*m <= left + right < 2*m + 2 for the original pair. |
| AudioFormat.EncodeFrom | experiments/EXP21/driver/audio.c:763-812 | Writing from the first sample up encodes the scratch samples as they were, even when the output is the scratch buffer. |
| AudioFormat.Conversion | experiments/EXP21/driver/audio.c:691-812 | With input or output aliasing the scratch buffer at its start, the output is encode of channel map of decode of the original input, and its samples have the values of ConvertSoundsLike; a separate output buffer changes nowhere else. |
| AudioPieces.ConvertAppends | experiments/EXP21/driver/audio.c:1176-1186 | Converting in pieces and joining the results is converting at once. |
| AudioPieces.ConvertSame | experiments/EXP21/driver/audio.c:1214-1217 | Between equal formats conversion is the identity, so the direct copy is the same as converting. |
| AudioPieces.ChunkFitsScratch | experiments/EXP21/driver/audio.c:1173-1180 | A pass of the convert loops (32 frames if either side is stereo, else 64) never exceeds the 128-byte scratch buffer. |
| AudioPieces.FramesAre | experiments/EXP21/driver/audio.c:843-877 | A frame takes one or two bytes for each of its one or two samples, and bytes hold as many whole frames as the quotient says. |
| AudioPieces.CutsAdd | experiments/EXP21/driver/audio.c:1205-1212 | Cutting each frame off at what the ring can supply is the same as cutting the whole transfer off once. |
| AudioStream.OutStepKeepsGood | experiments/EXP21/driver/audio.c:2223-2281 | Snapshot, any part of the unlocked copy, fault, commit and a frame taken by the device each keep: count and positions agree, unread bytes are the committed ones, the copy touches only free space. |
| AudioStream.PlaybackIsFifo | experiments/EXP21/driver/audio.c:2223-2281 | In every interleaving 0 <= count <= dmasize, wrptr == (rdptr + count) mod dmasize, and the bytes taken are a prefix of the bytes committed, short of exactly count bytes. |
| AudioStream.SnapshotTakesFront | experiments/EXP21/driver/audio.c:2229-2240 | The first locked section of a write takes the first min(length, room) bytes of the caller's buffer, and nothing if that is 0. |
| AudioStream.WriteCommitsFront | experiments/EXP21/driver/audio.c:2223-2278 | In every interleaving of one usb_audio_write with the completion handlers, with faults anywhere: the committed bytes grow by exactly the front of the caller's buffer that the return value counts. |
| AudioStream.InStepKeepsGood | experiments/EXP21/driver/audio.c:2153-2197 | The same invariant for capture, with the reading process between snapshot and commit. |
| AudioStream.CaptureIsFifo | experiments/EXP21/driver/audio.c:2153-2197 | In every interleaving the bytes delivered to the process are a prefix of the bytes received, short of exactly count bytes, and the positions agree. |
| AudioStream.LookWantsWhatIsThere | experiments/EXP21/driver/audio.c:2154-2162 | The first locked section of a read wants min(room, count) bytes. |
| AudioStream.ReadDeliversCount | experiments/EXP21/driver/audio.c:2153-2197 | In every interleaving of one usb_audio_read with the completion handlers, the delivered bytes grow by as many as the return value counts, at most what was wanted, and they are the next ones received. |
| AudioPlayback.UsbOut.BeginWrite | experiments/EXP21/driver/audio.c:2229-2240 | The first locked section of a write is the Snapshot step, including the repair of a negative count: what it is going to copy is the first min(length, room) bytes of the caller's buffer. |
| AudioPlayback.UsbOut.CopyPiece | experiments/EXP21/driver/audio.c:2261-2265 | Any part of the copy is a CopySome step on the ring kept in the pages, and keeps the invariant. |
| AudioPlayback.UsbOut.CommitWrite | experiments/EXP21/driver/audio.c:2266-2272 | The second locked section is the Commit step, with the write position wrapped by one subtraction; committed bytes and count grow by what was copied. |
| AudioPlayback.UsbOut.Write | experiments/EXP21/driver/audio.c:2223-2278 | The loop of usb_audio_write over the ring in its pages, with the handlers running between any two of its steps: what it has committed when it stops is the front of the caller's buffer that it returns the length of. |
| AudioPlayback.UsbOut.ConvertOut | experiments/EXP21/driver/audio.c:1167-1187 | The chunked conversion puts the conversion of the next bytes of the ring into the transfer buffer, and changes nothing else in it. |
| AudioPlayback.UsbOut.DueFrames | experiments/EXP21/driver/audio.c:1198-1212 | A frame is as long as the clock asks or, if that is less, as the ring can supply. |
| AudioPlayback.UsbOut.PrepareFrame | experiments/EXP21/driver/audio.c:1196-1228 | One more frame extends the conversion already in the buffer and is one Take step. |
| AudioPlayback.UsbOut.PrepareDesc | experiments/EXP21/driver/audio.c:1189-1236 | Five frames: up to each frame the lengths sum to the smaller of what the clock asked and what the ring held, they fit the transfer buffer at any rate feedback can set, the state is that after one Take of their bytes, and the descriptor is refused exactly if the ring ran short. |
| AudioPlayback.SentIsCommitted | experiments/EXP21/driver/audio.c:1189-1236 | What goes into the transfer buffer is the conversion of the next bytes the process committed and the device has not had. |
| AudioPlayback.UsbOut.Refill | experiments/EXP21/driver/audio.c:1273-1283 | A descriptor is submitted exactly if it was not refused and the host controller takes it; its bytes are the next committed ones, and everything taken from the ring is in some descriptor. |
| AudioPlayback.SubmittedIsFrontIff | experiments/EXP21/driver/audio.c:1273-1283 | The bytes in submitted descriptors are the front of what the process committed, up to what has left the ring, if and only if no descriptor that had taken bytes was refused. |
| AudioPlayback.TakesAdd | experiments/EXP21/driver/audio.c:1196-1228 | Frames taken one after the other are one larger take. |
| AudioPlayback.UsbOut.SetRates | experiments/EXP21/driver/audio.c:1380-1384 | The nominal rate is what the driver's 32-bit expression gives; the clock it sets keeps to the sampling rate exactly if that is below 2^21; the phase is 0, the current rate in range, and the maximum rate does not wrap. |
| AudioPlayback.UsbOut.SyncRetire | experiments/EXP21/driver/audio.c:1302-1324 | The last report that is complete, without error and believable becomes the rate, its three bytes low one first, if there is one; the rate stays within an eighth of the nominal one. |
| AudioRate.ScheduleIsExact | experiments/EXP21/driver/audio.c:1198-1199 | Over any number of frames with any rates, the samples scheduled are the sum of the rates over 2^14 rounded down once, and the accumulator holds the remainder. |
| AudioRate.NominalDrift | experiments/EXP21/driver/audio.c:1380-1384 | After any number N > 0 of frames at the nominal rate the total differs from N*srate/1000 by less than 1 + 62*N/(125*2^14) if and only if srate < 2^21, above which the 32-bit product wraps. |
| AudioRate.TwoMegaSamples | experiments/EXP21/driver/audio.c:1380-1384 | The rate at which it first fails: at 2^21 samples a second the nominal rate is 0 and no sample is ever due. |
| AudioRate.PlausibleIffInRange | experiments/EXP21/driver/audio.c:1318-1322 | Feedback is accepted exactly if it is within an eighth of the nominal rate; the test against freqmax adds nothing. |
| AudioRate.FrameFits | experiments/EXP21/driver/audio.c:1383-1384 | A frame at any accepted rate and any phase fits its fifth of the transfer buffer. |
| AudioCapture.UsbIn.BeginRead | experiments/EXP21/driver/audio.c:2154-2162 | The first locked section of a read is the Look step: it wants min(room, count) bytes, and nothing if that is 0. |
| AudioCapture.UsbIn.FetchPiece | experiments/EXP21/driver/audio.c:2182-2186 | Any part of the copy to the process is a FetchSome step. |
| AudioCapture.UsbIn.CommitRead | experiments/EXP21/driver/audio.c:2187-2193 | The second locked section is the Finish step. |
| AudioCapture.UsbIn.Read | experiments/EXP21/driver/audio.c:2153-2197 | The loop of usb_audio_read with the handlers running between any two of its steps: it delivers as many bytes as it returns, at most what was asked for. |
| AudioCapture.OneMoreArrived | experiments/EXP21/driver/audio.c:861-877 | A packet without error adds its bytes up to its last whole frame to what arrived, one with an error adds nothing. |
| AudioCapture.UsbIn.ConvertIn | experiments/EXP21/driver/audio.c:814-834 | The chunked conversion writes the conversion of the packet's bytes into the ring. |
| AudioCapture.UsbIn.Admit | experiments/EXP21/driver/audio.c:862-877 | Of a good packet as many whole frames are taken as find room; of a bad packet none. |
| AudioCapture.UsbIn.RetirePacket | experiments/EXP21/driver/audio.c:861-887 | One more packet extends what came in, and is one Put step. |
| AudioCapture.UsbIn.RetireDesc | experiments/EXP21/driver/audio.c:853-894 | The ring gets the conversion of the longest front of all whole frames in the good packets that finds room; the descriptor is refused exactly if something did not. |
| AudioCapture.FrontGrows | experiments/EXP21/driver/audio.c:870-877 | Once a packet has been cut off nothing fits any more, so what was taken is always a front of what arrived. |
| AudioUrbs.FlagsTrackUrbs | experiments/EXP21/driver/audio.c:896-928 | In every run of starts, completions and stops, overlapping or not, a running flag is set exactly while its URB is submitted and its completion not processed. |
| AudioUrbs.StoppedDrains | experiments/EXP21/driver/audio.c:633-672 | After FLG_RUNNING is cleared and without a new start, no completion resubmits: each takes one URB out of flight for good, so the stop loop has a decreasing measure. |
| AudioUrbs.StreamsUntilBad | experiments/EXP21/driver/audio.c:1254-1286 | On a running stream, whatever order completions come in: every URB stays in flight up to the first completion that retired badly or was not submitted again; that one and each after it takes its URB out of flight and clears its flag, and the stream runs exactly if there was none. |
| AudioUrbs.LaunchIs | experiments/EXP21/driver/audio.c:1414-1471 | A start submits exactly the idle URBs before the first one refused, and sets FLG_RUNNING exactly if none is. |
| AudioUrbs.FreedWhenIdle | experiments/EXP21/driver/audio.c:1110-1149 | If starts and stops do not overlap and a start that allocates finds no flag set, then at every moment each URB in flight has the buffer it was submitted with, URBs are started with all buffers allocated, and buffers are freed only when no URB is in flight. |
| AudioUrbs.StartTearsIff | experiments/EXP21/driver/audio.c:1373-1409 | A start that does not find the stream running frees the buffer of a URB in flight in some continuation if and only if a flag is still set when it begins. |
| AudioUrbs.SecondRefused | experiments/EXP21/driver/audio.c:1414-1440 | Such a state is reached when the second URB of a start is refused: the first stays in flight and the stream does not run. |
| AudioUrbs.StopInWindowIff | experiments/EXP21/driver/audio.c:1373-1415 | With stops at any point between the two locked sections of a start: the URBs then submitted have buffers that stay theirs if and only if every such stop was through before the first buffer was replaced. |
| AudioUrbs.DisconnectInWindow | experiments/EXP21/driver/audio.c:1373-1415 | The run where it fails: the device is disconnected after the allocation, and two URBs are submitted to it without buffers. |
| AudioUrbs.UsbStream.BeginStarting | experiments/EXP21/driver/audio.c:1373-1379 | A disconnected stream is refused, and one that runs is not allocated anew. |
| AudioUrbs.UsbStream.ReallocateBuffer | experiments/EXP21/driver/audio.c:1385-1407 | One buffer after the other is freed and allocated anew; the start goes on only if all were allocated. |
| AudioUrbs.LoopEnds | experiments/EXP21/driver/audio.c:642-660 | After as many completions as there were URBs in flight the poll sees no flag. |
| AudioUrbs.UsbStream.StartUrbs | experiments/EXP21/driver/audio.c:1410-1472 | Idle URBs are submitted in order until one is refused, which clears FLG_RUNNING; URBs in flight are left alone. |
| AudioUrbs.UsbStream.Completed | experiments/EXP21/driver/audio.c:1254-1286 | A completion resubmits exactly if it retired well, the stream runs and the resubmission is accepted; otherwise flag and FLG_RUNNING are cleared. |
| AudioUrbs.UsbStream.BeginStopping | experiments/EXP21/driver/audio.c:1116-1119 | FLG_RUNNING, and on disconnect FLG_CONNECTED, is cleared and the flags are remembered. |
| AudioUrbs.UsbStream.PollFlags | experiments/EXP21/driver/audio.c:1120-1137 | Each turn looks at the flags again; the first signal unlinks exactly the URBs seen running. |
| AudioUrbs.UsbStream.ReleaseBuffers | experiments/EXP21/driver/audio.c:1138-1148 | The buffers are freed with no URB in flight. |
| AudioUnits.VolChannel | experiments/EXP21/driver/audio.c:3046-3075 | The channel chosen is free, suits the terminal type, and is none only if all line-type channels are taken. |
| AudioControls.VolumeIsFirstFree | experiments/EXP21/driver/audio.c:3046-3075 | The channel chosen is the first free one of a list that depends on the terminal type alone: the types' own channels, then the lines in the order of their numbers. |
| AudioMixer.Construction.GetMixChannel | experiments/EXP21/driver/audio.c:3028-3044 | A free channel below 25 always finds room in the table, because the channels in use are distinct and leave that one out. |
| AudioMixer.Construction.PrepMixCh | experiments/EXP21/driver/audio.c:3077-3205 | The last channel gets range and levels from the device's answers, and is dropped exactly if one of them fails; the others keep their numbers. |
| AudioLevels.LevelIsPercentIff | experiments/EXP21/driver/audio.c:3091-3109 | For every range and setting, the level computed in unsigned arithmetic is the setting's place in its range in percent, cut to 0..100, if and only if the setting is not below the minimum, or is exactly a hundredth of an inverted range below it. |
| AudioLevels.LevelInverted | experiments/EXP21/driver/audio.c:3091-3109 | If the maximum is below the minimum, the level is 1 for settings up to a hundredth of the range below the minimum, and 0 otherwise. |
| AudioLevels.LevelComesBackIff | experiments/EXP21/driver/audio.c:1744-1760 | For every range: what is sent for a level lies in it and reads back as the same level if and only if the level is a whole number of steps; with a hundred steps or more it is at most one lower; in an empty or inverted range only 0 comes back, and 1 if it is wide enough. |
| AudioMixer.Construction.AddControl | experiments/EXP21/driver/audio.c:3408-3416 | The table gets the control described, with the levels read, exactly if its number is free and the device answers; the number is taken either way, and earlier channels keep theirs. |
| AudioMixer.Construction.MarkSelected | experiments/EXP21/driver/audio.c:3310-3337 | The selector input is noted at the channel just found, else at the first channel of the source, else nowhere; nothing else changes. |
| AudioMixer.Construction.RecurseUnit | experiments/EXP21/driver/audio.c:3480-3561 | On any graph the walk ends, in the state that Walk describes; every unit is evaluated at most once, each one evaluated is the source or an input of one evaluated before, and the inputs that are followed in any case have been visited; earlier channels keep their numbers, and the numbers stay distinct and no longer free. |
| AudioMixer.Construction.EvaluateUnit | experiments/EXP21/driver/audio.c:3494-3560 | The same for the inputs of one unit of any kind; descriptors that are too short lead nowhere. |
| AudioMixer.Construction.MixerUnit | experiments/EXP21/driver/audio.c:3225-3287 | After all inputs have been followed, one control is asked for each input that the bitmap makes programmable, stereo if both its channels are, and nothing else; channel counts and terminal types are those the inputs left behind, and each volume channel is the one free at that moment. |
| AudioMixer.Construction.SelectorUnit | experiments/EXP21/driver/audio.c:3299-3340 | Each input is followed and its channel marked with the input's number, until one disagrees with the first on the number of channels; that one is followed but not marked, and the unit then has no channels. |
| AudioMixer.Construction.FeatureUnit | experiments/EXP21/driver/audio.c:3357-3466 | After its source, the unit asks for volume, bass and treble, each on the channels if all of them have it, else on the master channel if that has it, in the state that WalkFeature describes; AudioControls says what that is in terms of the descriptor. |
| AudioMixer.Construction.ProcessingUnit | experiments/EXP21/driver/audio.c:3344-3353 | All inputs are followed; channels and configuration are those of the descriptor. |
| AudioMixer.Construction.ExtensionUnit | experiments/EXP21/driver/audio.c:3545-3554 | All inputs are followed; the terminal type is the one that all of them left behind, or 0. |
| AudioUnits.LogicalChannels | experiments/EXP21/driver/audio.c:3381-3381 | The length check before it keeps the channel count of a feature unit from wrapping to 255, at which its loop would not end. |
| AudioMixer.Construction.AllHave | experiments/EXP21/driver/audio.c:3398-3405 | A control counts as present on the channels exactly if there are logical channels and all of them have it. |
| AudioMixer.ConstructMixer | experiments/EXP21/driver/audio.c:3563-3597 | The mixer is the table of the walk from the source and is Sound, that is, told by the descriptors alone (see AudioControls); it has at most 25 channels and no OSS number twice; the units evaluated, none twice, are reachable from the source and closed under the inputs followed in any case; the output terminal is not among them. |
| AudioControls.MixerIsSound | experiments/EXP21/driver/audio.c:3480-3597 | Of the finished mixer, from the descriptors and the device's answers: an entry is the first request for its number, and reads what the device says; the requests are those of units evaluated whose descriptor has the control; each control a unit has is asked for; each unit leaves behind what its descriptor says and hears what its inputs left; marks name selector inputs. Every unit visited has been evaluated, but for the output terminal. |
| AudioControls.EntryIsJustified | experiments/EXP21/driver/audio.c:3357-3466 | Behind every entry there is an evaluated unit with its id whose descriptor has the control: for a feature unit selector and bit match (volume 2 and 2, bass 3 and 4, treble 5 and 16), on all logical channels with stereo as the source says, or else on the master channel alone; for a mixer unit the bitmap has its input's nodes. |
| AudioControls.ToneEntryIs | experiments/EXP21/driver/audio.c:3418-3465 | An OSS BASS or TREBLE entry is selector 3 with bit 4, or selector 5 with bit 16, of an evaluated feature unit: channel 1 if all logical channels have the bit, with stereo as the source's channel count says, else channel 0, mono, with the bit in the master byte. |
| AudioControls.ControlIsFound | experiments/EXP21/driver/audio.c:3384-3465 | Conversely, a control in the descriptor of an evaluated feature unit whose source has channels is asked for, and has an entry if its number was free and the device answers. |
| AudioControls.InputIsFound | experiments/EXP21/driver/audio.c:3225-3287 | Likewise each input of a mixer unit whose node for the first output is in the bitmap. |
| AudioControls.TerminalIsHeard | experiments/EXP21/driver/audio.c:3480-3561 | A feature unit behind an input terminal that no other unit leads to hears that terminal's channel count and type. |
| AudioControls.ToneIsFound | experiments/EXP21/driver/audio.c:3357-3466 | So if the device answers, a bass or treble control behind an input terminal with channels gets the mixer its BASS or TREBLE channel. |
| AudioControls.FeatureRequestIs | experiments/EXP21/driver/audio.c:3384-3465 | What a feature unit asks for is what its descriptor has, on all channels or on the master, and nothing exactly if it has it on neither. |
| AudioControls.MixerRequestIs | experiments/EXP21/driver/audio.c:3254-3285 | What a mixer unit asks for one input is what the bitmap has, counted from the high end of its last byte, stereo if the input has two channels and both nodes are there; nothing exactly if the bitmap has neither. |
| AudioControls.MarkGoesTo | experiments/EXP21/driver/audio.c:3310-3337 | The mark of a selector goes to the entry that the input has just got, else to the first entry of the input itself, else nowhere. |
| AudioMixer.FewerThan | experiments/EXP21/driver/audio.c:3028-3044 | Distinct numbers that leave one out are fewer than their bound: the pigeonhole behind the table size. |
| HidBits.SaturatingRoundTrip | experiments/EXP21/driver/hid-core.c:684-703 | For sizes 1 to 31, encoding a value and decoding it is exactly saturation to n-bit two's complement. |
| HidBits.PatternRoundTrip | experiments/EXP21/driver/hid-core.c:684-703 | Decoding an n-bit pattern and encoding it again is the identity. |
| HidBits.Implement | experiments/EXP21/driver/hid-core.c:715-721 | The bits of the report become those with the field cleared and the value or-ed in; nothing masks the value to the field. |
| HidBits.ExtractReadsBits | experiments/EXP21/driver/hid-core.c:709-713 | Reading through the 64-bit window is reading the bits of the field at its offset. |
| HidReport.AcceptedFitIff | experiments/EXP21/driver/hid-core.c:944-967 | hid_set_field lets through only values that fit exactly if the range is signed or its maximum fits the field. |
| HidReport.NeighboursKeptIff | experiments/EXP21/driver/hid-core.c:715-721 | A write keeps to its own bits in every report exactly if the value fits the field. |
| HidReport.FieldWritten | experiments/EXP21/driver/hid-core.c:912-925 | After a field is written its values stand in their slots and no bit outside them has changed. |
| HidReport.ReportRoundTrip | experiments/EXP21/driver/hid-core.c:931-936 | Writing all fields of a report and reading it back gives every field its values, and every bit outside the fields is as it was. |
| HidReport.ReplayReport | experiments/EXP21/driver/hid-core.c:751-797 | Replaying the press and release events of one array report on the old set of active usages gives exactly the new set. |
| HidReport.ReplayAllReports | experiments/EXP21/driver/hid-core.c:751-797 | The same over any series of reports, with repeats and roll-overs. |
| HidReport.ReplayVariable | experiments/EXP21/driver/hid-core.c:771-779 | For an absolute variable field the events carry exactly the changes. |
| HidReport.RelativeEvents | experiments/EXP21/driver/hid-core.c:771-779 | For a relative variable field, over any series of reports: the events for a usage are, in order, exactly the nonzero values reported for it, so their sum is the sum of all values reported. |
| HidReport.AbsoluteEvents | experiments/EXP21/driver/hid-core.c:771-779 | For an absolute one they are, in order, exactly the values that differ from the one reported before. |
| HidReport.ArrayEventsAreChanges | experiments/EXP21/driver/hid-core.c:781-793 | The events of an array field are releases, with value 0, of usages that were down and are no more, and presses, with value 1, of usages that were not down and are. |
| HidReport.RollOverIsIgnored | experiments/EXP21/driver/hid-core.c:764-769 | A report with a roll-over code in an array field gives no event and leaves the values as they were. |
| HidReport.HidField.SetField | experiments/EXP21/driver/hid-core.c:944-967 | A value is stored exactly if its index exists and it is in range (and, in a signed field, survives encoding). |
| HidReport.HidField.OutputField | experiments/EXP21/driver/hid-core.c:912-925 | In the report exactly the bits of the field are replaced, value by value. |
| HidReport.HidField.InputField | experiments/EXP21/driver/hid-core.c:751-797 | Events and kept values are those of the comparison of the report with the one before, about which RelativeEvents, AbsoluteEvents and ArrayEventsAreChanges speak; a roll-over report gives no events and changes nothing. |
| HidReport.OutputReport | experiments/EXP21/driver/hid-core.c:931-936 | The loop over the fields refines the bit-level writing that ReportRoundTrip is about. |
| HidParsing.HidParser.OpenCollection | experiments/EXP21/driver/hid-core.c:125-146 | A collection is pushed with the first usage, if there is room. |
| HidParsing.HidParser.CloseCollection | experiments/EXP21/driver/hid-core.c:152-160 | The innermost collection is popped, if there is one. |
| HidParsing.HidParser.LookupCollection | experiments/EXP21/driver/hid-core.c:167-174 | The usage of the innermost open collection of the kind, or 0. |
| HidParsing.HidParser.AddField | experiments/EXP21/driver/hid-core.c:194-248 | The report grows by size times count, and a field with usages is registered at the old size; with a report id of 256 or more the access to the table of reports goes past its end, and the model stops. |
| HidParsing.HidParser.ParserMain | experiments/EXP21/driver/hid-core.c:455-486 | A Main item does to the fixed stacks what the reference interpreter does to its lists, and the local state is reset; the table is left exactly by an item that declares a field under a report id of 256 or more. |
| HidParsing.HidParser.ParserGlobal | experiments/EXP21/driver/hid-core.c:278-357 | The same for a Global item, including Push, Pop and the range checks; HidDescriptor.SettingsInForce says which setting each tag stands for. |
| HidParsing.HidParser.ParserLocal | experiments/EXP21/driver/hid-core.c:363-449 | The same for a Local item; a Delimiter fails, and so does a usage range that ends with 0xFFFFFFFF, where the loop's counter wraps. |
| HidParsing.ParseReport | experiments/EXP21/driver/hid-core.c:602-676 | The parser ends on every byte string. It stays within its table of 256 reports if and only if every Input, Output or Feature item is reached with a report id of at most 255; then it accepts exactly the strings that the ideal interpreter runs without deep stacks and with every collection closed and in which no usage range ends with 0xFFFFFFFF, and has registered the same reports. HidDescriptor says all of this from the list of items, without the interpreter. |
| HidDescriptor.SettingsInForce | experiments/EXP21/driver/hid-core.c:278-357 | Each of the ten settings, and of the saved ones, is the operand (signed for tags 1 to 4) of the last Global item with its tag that is in force, what stands between a Pop and its Push passed over, or 0 if there is none. |
| HidDescriptor.UsagesCollected | experiments/EXP21/driver/hid-core.c:363-449 | The usages are, in item order, those of the Usage items and ranges since the last Main item; a usage of one or two bytes is the page in force times 2^16 plus the operand, modulo 2^32. |
| HidDescriptor.EnclosingIs | experiments/EXP21/driver/hid-core.c:167-174 | The collection a field is in is the innermost one of the kind that has begun and not ended, by its first usage. |
| HidDescriptor.ApplicationsAre | experiments/EXP21/driver/hid-core.c:131-134 | The application usages are those of the first sixteen Application collections. |
| HidDescriptor.ReportsAreDeclared | experiments/EXP21/driver/hid-core.c:194-248 | From the items alone: a report exists exactly if an item declares it; its size is the sum of size times count over its items; its first 64 items with usages are its fields, in order, each with the flags of its item, the settings in force there, the bits before it as offset, its enclosing collections and its usages. |
| HidDescriptor.RunsIffNoneRefused | experiments/EXP21/driver/hid-core.c:278-486 | The items run through if and only if none is refused where it stands: an End or Pop too many, an array field whose maximum is not above its minimum, a size above 32 or a count above 1024, report id 0, an unknown Global tag, a Local item without operand, a Delimiter, or usages that do not fit. |
| HidDescriptor.AcceptableFromItems | experiments/EXP21/driver/hid-core.c:602-676 | What the parser accepts, from the items alone: none refused, never more than four collections or saved states deep, and all collections closed at the end. |
| HidDescriptor.WithinTableFromItems | experiments/EXP21/driver/hid-core.c:69-92 | It stays within its table exactly if every field is declared with a report id below 256 in force. |
| HidDescriptor.ShortItemLayout | experiments/EXP21/driver/hid-core.c:540-590 | A short item is a prefix of tag, type and size and an operand with the low byte first. |
| HidParsing.RangeAddedIff | experiments/EXP21/driver/hid-core.c:436-440 | The loop over a usage range, with its 32-bit counter, ends, and adds the usages of the range if and only if the range ends below 0xFFFFFFFF or would not fit anyway. |
| HidParsing.RunsIff | experiments/EXP21/driver/hid-core.c:363-449 | The driver's interpreter runs through exactly the items that the ideal one runs through without a usage range that ends with 0xFFFFFFFF, and to the same state. |
| HidParsing.AcceptableIff | experiments/EXP21/driver/hid-core.c:602-676 | What the driver's interpreter accepts is what the ideal one accepts without such a range. |
| HidParsing.FullRange | experiments/EXP21/driver/hid-core.c:424-441 | Ten bytes with a usage range of one usage, 0xFFFFFFFF, that the ideal interpreter accepts and the driver refuses. |
| HidParsing.KeysInTable | experiments/EXP21/driver/hid-core.c:69-92 | Items that run through stay in the table if and only if no report registered by them has an id of 256 or more. |
| HidParsing.ReportId256 | experiments/EXP21/driver/hid-core.c:346-351 | Nine bytes that would be accepted and make the driver register a report past the end of its table. |
| HidParsing.AcceptedIsBalanced | experiments/EXP21/driver/hid-core.c:602-676 | In an accepted descriptor collections and saved states nest, never more than four deep nor below zero, all collections are closed, and there is no Delimiter. |
| HidParsing.DepthIsBalance | experiments/EXP21/driver/hid-core.c:278-302 | The stacks are exactly as deep as Begin less End, and Push less Pop, items say. |
| HidParsing.OpenCollectionBegan | experiments/EXP21/driver/hid-core.c:125-160 | What stands on the collection stack are the collections begun and not ended, each with the usage that preceded it. |
| HidParsing.PopRestoresMatchingPush | experiments/EXP21/driver/hid-core.c:282-302 | A Pop brings back the whole global state of the matching Push. |
| HidParsing.SavedStatePushed | experiments/EXP21/driver/hid-core.c:282-302 | Each saved state is the global state at its Push. |
| HidParsing.InnermostIsLast | experiments/EXP21/driver/hid-core.c:167-174 | The lookup finds the last collection of its kind, or there is none. |
| HidParsing.FieldWasDeclared | experiments/EXP21/driver/hid-core.c:194-248 | Every registered field was declared by an item, with the global state, usages and innermost collections of that moment. |
| HidParsing.ReportsAreLaidOut | experiments/EXP21/driver/hid-core.c:194-248 | The fields of every report occupy consecutive, disjoint stretches. |
| HidParsing.SizesDoNotWrap | experiments/EXP21/driver/hid-core.c:218-219 | From a descriptor of at most 4096 bytes, which is all the driver reads, no report size wraps. |
| HidParsing.ParsedReportsRoundTrip | experiments/EXP21/driver/hid-core.c:912-936 | Whatever descriptor the parser gets through within its table, its reports can be written and read back without loss and without touching other bits. |
| ScsiOrder.EveryRunIsGood | experiments/EXP21/driver/hpusbscsi.c:365-518 | In every run in which no status byte overtakes a plain payload's command block: transfers are submitted in order, each once, and the callback comes once, when the status byte and the last transfer are both through; then the driver is free. |
| ScsiOrder.OnlyPlainPayloadsAreOvertaken | experiments/EXP21/driver/hpusbscsi.c:253-328 | Commands without a payload or with scatter-gather cannot be overtaken, so the above holds for every interleaving of theirs. |
| ScsiOrder.EventsAreNeverLacking | experiments/EXP21/driver/hpusbscsi.c:365-518 | An unfinished command always has an event it waits for, and each event brings it one nearer to its end. |
| ScsiOrder.CommandSettles | experiments/EXP21/driver/hpusbscsi.c:365-518 | A command is through and called back after exactly one event per transfer and one for the status byte, not before; the word it is called back with has the low six bits of the old one replaced by the status byte, moved up by one. |
| ScsiOrder.RecordedValue | experiments/EXP21/driver/hpusbscsi.c:375-377 | In the word that CommandSettles says is called back with, the six low bits are twice the status byte, modulo 64, and the bits above keep what was set, and get nothing from a status byte below 32. |
| ScsiOrder.ErrorsCallBack | experiments/EXP21/driver/hpusbscsi.c:356-363 | A USB error in any handler, or a payload that cannot be submitted, calls the SCSI layer back once more with DID_ERROR and frees the driver. |
| ScsiOrder.FragmentNotAccepted | experiments/EXP21/driver/hpusbscsi.c:445-457 | A fragment that cannot be submitted calls nobody back, and neither does the status byte that then frees the driver. |
| ScsiOrder.PlainPayloadServedIff | experiments/EXP21/driver/hpusbscsi.c:483-518 | A plain payload is served correctly if and only if its status byte does not overtake its command block; when it does, the callback comes before the data and the driver is left waiting. |
| ScsiOrder.HpUsbScsi.QueueCommand | experiments/EXP21/driver/hpusbscsi.c:253-328 | The driver object refines the protocol model that the run theorems are about: a command for another lun, id or channel is called back with DID_BAD_TARGET and changes nothing, one that finds the driver busy is refused and changes only fragment index and data pipe, and one whose submission fails is called back with an error at once. |
| ScsiOrder.HpUsbScsi.ControlInterruptCallback | experiments/EXP21/driver/hpusbscsi.c:365-400 | Refines the status step of that model in each of the six states, with and without a USB error. |
| ScsiOrder.HpUsbScsi.SimpleCommandCallback | experiments/EXP21/driver/hpusbscsi.c:402-419 | Refines the last-transfer step: it waits for the status byte, or calls back if that has come already. |
| ScsiOrder.HpUsbScsi.ScatterGatherCallback | experiments/EXP21/driver/hpusbscsi.c:421-458 | Refines the scatter-gather step: the next fragment and no other is submitted, with the handler that fits whether more follow. |
| ScsiOrder.HpUsbScsi.SimpleDoneCallback | experiments/EXP21/driver/hpusbscsi.c:460-481 | The same decision for the end of a payload. |
| ScsiOrder.HpUsbScsi.SimplePayloadCallback | experiments/EXP21/driver/hpusbscsi.c:483-518 | Refines the payload step: the payload is submitted once, and an early status byte is answered before it has moved. |
| CatcFraming.UnsignedAlignIs | experiments/EXP21/driver/catc.c:331-331 | The unsigned expression, which wraps at zero, is rounding up to a multiple of 64. |
| CatcFraming.StrideAligns | experiments/EXP21/driver/catc.c:236-236 | The receiver's stride leads to where the sender aligns. |
| CatcFraming.DeframeBurst | experiments/EXP21/driver/catc.c:200-241 | Deframing a burst returns exactly its packets in order, whatever lies between and behind them. |
| CatcFraming.RxDone | experiments/EXP21/driver/catc.c:214-236 | The receive loop delivers what Deframe says, and gives up on a length that exceeds the burst. |
| CatcFraming.DeframeStands | experiments/EXP21/driver/catc.c:214-236 | Of any bytes whatever: the packets delivered stand one behind the other, each behind its two-byte length, low byte first, and at the next multiple of 64 after the one before; it ends at the end of the transfer, or with an error at the first length above the size of the transfer. |
| CatcFraming.FrameIs | experiments/EXP21/driver/catc.c:331-335 | A packet in a burst is its length in two bytes, low one first, and then its bytes. |
| CatcFraming.Catc.PutFrame | experiments/EXP21/driver/catc.c:331-335 | A packet fits exactly if it ends within the buffer; appending it makes the buffer a burst of one packet more. |
| CatcFraming.Catc.TxRun | experiments/EXP21/driver/catc.c:273-288 | The burst is submitted as it stands and the other buffer is filled next. |
| CatcFraming.Catc.StartXmit | experiments/EXP21/driver/catc.c:323-351 | Only the buffer not in flight is written; a packet that fits joins the burst being filled, or is submitted at once; the queue is stopped at the threshold; while it is not stopped, packets of up to 1500 bytes fit. |
| CatcFraming.Catc.TxDone | experiments/EXP21/driver/catc.c:290-321 | TX_RUNNING stays exactly if something waits, which is then submitted as one burst. |
| CatcFraming.QueuedIsDelivered | experiments/EXP21/driver/catc.c:273-351 | At every moment the bursts submitted deframe to the packets queued, in order and each once, except for those still in the buffer being filled. |
| CatcFraming.RoomUnlessStopped | experiments/EXP21/driver/catc.c:340-341 | While the queue is not stopped a packet of up to 1500 bytes fits. |
| CatcFraming.NeverOverflowsIff | experiments/EXP21/driver/catc.c:340-341 | The stop threshold keeps every burst within its buffer exactly if packets have at most 1500 bytes. |
| AcmFlow.Acm.ReadBulk | experiments/EXP21/driver/acm.c:231-266 | The handler is one BulkRead: bytes that came without error go to the tty as far as it takes them, the rest moves to the front, and the URB is resubmitted exactly if the tty is not throttled. |
| AcmFlow.Acm.Insert | experiments/EXP21/driver/acm.c:243-251 | The loop inserts byte by byte, pushing a full flip buffer first, until nothing is left or a push throttles the tty. |
| AcmFlow.Acm.MoveDown | experiments/EXP21/driver/acm.c:254-257 | What was not taken moves to the front of the buffer. |
| AcmFlow.Acm.Completed | experiments/EXP21/driver/acm.c:231-266 | A completion is one step of the run model: good bytes count as received and are offered to the tty, bad ones are not. |
| AcmFlow.Acm.TtyThrottle | experiments/EXP21/driver/acm.c:394-399 | Throttling at any moment changes nothing of what is held or in flight. |
| AcmFlow.Acm.TtyUnthrottle | experiments/EXP21/driver/acm.c:401-408 | Unthrottling takes up what was left over, if the URB rests. |
| AcmFlow.Acm.Run | experiments/EXP21/driver/acm.c:231-266 | After any run of events the driver is in the state of RunAll, where only completions of a URB not in flight are dropped, and what it inserted and holds is what the completions that happened brought without error, in order. |
| AcmFlow.RunConserves | experiments/EXP21/driver/acm.c:231-266 | For every run of completions, throttles and unthrottles, and wherever a push throttles the tty: inserted followed by left over is what was received without error by the completions that happened, in order; and no byte goes into a full flip buffer, which would drop it. |
| AcmFlow.InsertionConserves | experiments/EXP21/driver/acm.c:243-251 | The insertion loop moves bytes from the front of what is held to the tty; it leaves some only if the tty throttles. |
| AcmFlow.UnthrottleDrains | experiments/EXP21/driver/acm.c:401-408 | After an unthrottling during which no push throttles again, the tty has every byte received and the URB is in flight. |
| AcmFlow.ThrottledGetsNothing | experiments/EXP21/driver/acm.c:231-266 | From a throttle to the next unthrottle the tty gets nothing, whatever completes. |
| BluetoothHci.PacketsReassemble | experiments/EXP21/driver/bluetooth.c:797-841 | However the packets are cut into URBs that do not cross a packet boundary, the tty gets the type byte and the packet for each, in order, and nothing is left. |
| BluetoothHci.WholeIff | experiments/EXP21/driver/bluetooth.c:797-841 | What counts as whole is exactly a packet of the Bluetooth specification: 4, an event code, one byte of length and as many parameters; or 2, a handle, two bytes of length, low one first, and as many bytes of data. |
| BluetoothHci.EncodedArrive | experiments/EXP21/driver/bluetooth.c:862-976 | So any events or data packets, encoded and cut in any way, arrive at the tty in order. |
| BluetoothHci.StepIs | experiments/EXP21/driver/bluetooth.c:862-976 | Of any data: with what was held it goes to the tty if it is a whole packet, stays if it is part of one, and is dropped otherwise. |
| BluetoothHci.MiddleOfPacket | experiments/EXP21/driver/bluetooth.c:797-830 | In the middle of a packet the buffer holds a strict prefix of it and the tty has nothing of it. |
| BluetoothHci.PacketCompletes | experiments/EXP21/driver/bluetooth.c:829-840 | The last piece of a packet delivers the whole packet and empties the buffer. |
| BluetoothHci.Step | experiments/EXP21/driver/bluetooth.c:802-840 | For any data whatever: the position is 0 or marks a strict prefix of one packet and stays within the buffer, and what goes to the tty is a whole packet or nothing. |
| BluetoothHci.Reassembly.Callback | experiments/EXP21/driver/bluetooth.c:862-976 | Either callback, on its buffer, is one Step; errors and empty URBs change nothing. |
| AsyncUrbs.ExactlyOnePlace | experiments/EXP21/driver/devio.c:191-286 | In every interleaving each submitted URB is pending, in transit to its unlink, completed or freed, in exactly one of these places and there once; what is freed stays freed. |
| AsyncUrbs.StepKeepsGood | experiments/EXP21/driver/devio.c:191-286 | Each step keeps that, and the host controller holds exactly the pending and unlinked URBs. |
| AsyncUrbs.UnlinkMeetsFreedIff | experiments/EXP21/driver/devio.c:914-923 | A URB taken off the list has been freed before its unlink if and only if meanwhile its submission failed, or it completed and was followed by more reaps than URBs had completed before it. |
| AsyncUrbs.ReapedIff | experiments/EXP21/driver/devio.c:212-225 | A completed URB is freed if and only if there are more reaps than entries before it. |
| AsyncUrbs.TransitIsEmptyIff | experiments/EXP21/driver/devio.c:904-923 | In every run of whole calls, whenever no call is under way, no URB is in transit if and only if the host controller holds none that a discard had unlinked before its usb_submit_urb returned. |
| AsyncUrbs.DiscardTooEarly | experiments/EXP21/driver/devio.c:904-923 | The run where it happens: after a discard that comes before usb_submit_urb has returned, no call is under way, and the URB is with the host controller but on no list. |
| AsyncUrbs.DevState.AsyncNewPending | experiments/EXP21/driver/devio.c:191-199 | A new URB is appended to the pending list. |
| AsyncUrbs.DevState.SubmitReturned | experiments/EXP21/driver/devio.c:904-911 | A refused URB leaves the pending list and is freed. |
| AsyncUrbs.DevState.AsyncCompleted | experiments/EXP21/driver/devio.c:248-266 | A completed URB moves to the end of the completed list, also when it was being unlinked. |
| AsyncUrbs.DevState.AsyncGetPending | experiments/EXP21/driver/devio.c:227-246 | The first pending URB with the user's pointer is taken off the list, if there is one. |
| AsyncUrbs.DevState.Unlink | experiments/EXP21/driver/devio.c:914-923 | Unlinking completes the URB if the host controller has it and does nothing otherwise; it is noted if the URB had been freed, or its submission had not returned. |
| AsyncUrbs.DevState.ReapFirst | experiments/EXP21/driver/devio.c:212-225 | The URB that completed first is freed, once. |
| AsyncUrbs.DevState.DestroyAllAsync | experiments/EXP21/driver/devio.c:268-286 | From any state, with completions coming in at any point: both lists are empty afterwards, and exactly the URBs not in transit have been freed, each once and none before it was unlinked; if no call was under way, those left in transit are the ones the host controller still holds because a discard had unlinked them before usb_submit_urb returned. |
| DeviceListing.DeviceRead | experiments/EXP21/driver/devices.c:479-506 | A read at p of n bytes returns bytes [p, p+n) of the dump over all buses and moves the offset by what it returned. |
| DeviceListing.Reader.DumpDevice | experiments/EXP21/driver/devices.c:384-477 | The recursion over a device writes exactly the part of its pruned preorder dump that falls into the window. |
| DeviceListing.WindowsJoin | experiments/EXP21/driver/devices.c:479-506 | Two reads one after the other return what one longer read would. |
| DeviceListing.DescriptorRead | experiments/EXP21/driver/devio.c:77-139 | A read returns bytes [p, p+n) of the device descriptor followed by all raw configurations. |
| DeviceListing.Directory.BusReaddir | experiments/EXP21/driver/inode.c:436-459 | One call lists, from its position on, the devices in preorder for which there is room, and says whether it got through. |
| DeviceListing.Directory.Readdir | experiments/EXP21/driver/inode.c:461-490 | With room for n entries the listing goes on from the file position, including the two dot entries. |
| DeviceListing.ReadWholeDirectory | experiments/EXP21/driver/inode.c:461-490 | However calls are cut short, together they list a prefix of the one listing, every entry once. |
| DeviceListing.PreorderListsDevices | experiments/EXP21/driver/inode.c:436-459 | The preorder has every device of the tree as often as it occurs in it. |
| DevicePaths.DumpIsInOrder | experiments/EXP21/driver/devices.c:384-477 | The dump is the text about each device down to level 6, each once, in the order of the ports that lead there, a hub before what is plugged into it; the text gets the level, the port, and the number among the devices plugged into the same hub. |
| DevicePaths.PreorderIsInOrder | experiments/EXP21/driver/inode.c:436-459 | The directory lists every device of the bus once, at any depth, in the same order. |
| IicEeprom.Iic.WriteEeprom | experiments/EXP10/driver/2410iic.c:85-128 | For up to 30 bytes and any slave address: the bus sees the address with its low bit cleared, two address bytes, the data and a stop condition, then one start and stop; the EEPROM holds the data; the data phase takes length + 3 interrupts. More bytes do not fit the driver's buffer. |
| IicEeprom.Iic.ReadEeprom | experiments/EXP10/driver/2410iic.c:175-212 | For up to 30 bytes: the bytes stored from the address on are returned; the second start has the low bit of the slave address set; exactly the last byte is not acknowledged; the data phase takes length + 1 interrupts. |
| IicEeprom.WriteWireIs | experiments/EXP10/driver/2410iic.c:85-128 | Event by event, a write is a start with the seven address bits of the slave and a zero, the address high byte first, the data, a stop, and the same start and a stop. |
| IicEeprom.ReadWireIs | experiments/EXP10/driver/2410iic.c:175-212 | A read is that start and address, a start with the same seven bits and a one, and the data, of which only the last byte is not acknowledged, and a stop. |
| IicEeprom.Iic.SendAll | experiments/EXP10/driver/2410iic.c:266-291 | The polling loop sends the buffer byte by byte; writing ends with a stop condition, setting an address without one. |
| IicEeprom.Iic.ReceiveAll | experiments/EXP10/driver/2410iic.c:246-265 | The polling loop stores the received bytes from index 2 on, behind the dummy. |
| IicEeprom.Iic.PollSending | experiments/EXP10/driver/2410iic.c:266-291 | Each serviced interrupt sends the next byte of the buffer; the one after the last ends the transfer in the way the mode asks for. |
| IicEeprom.Iic.PollReceiving | experiments/EXP10/driver/2410iic.c:246-265 | Each serviced interrupt stores the byte received before it and asks for the next, the last without acknowledgement; the one after that stops. |
| IicEeprom.AddressHeard | experiments/EXP10/driver/2410iic.c:90-95 | Two bytes set the address, and the rest is kept for the stop condition. |
| IicEeprom.Iic.RoundTrip | experiments/EXP10/driver/2410iic.c:85-212 | What is written at any address is read back from it after any series of reads, and of writes to other places; the bus has carried exactly these accesses, and the EEPROM holds exactly what they wrote. |
| IicEeprom.ElsewhereKeeps | experiments/EXP10/driver/2410iic.c:85-212 | Writes to other places, counted around the end of the EEPROM, leave the bytes from an address on alone. |
| IicEeprom.Iic.Perform | experiments/EXP10/driver/2410iic.c:85-212 | A series of accesses leaves the EEPROM and the bus as the accesses one by one do. |

## Left out

- AudioUrbs.FreedWhenIdle: one process starts the stream at a time; AudioUrbs.StartTearsIff and AudioUrbs.StopInWindowIff say what happens if a start finds a flag set or a stop comes in between.
- AudioPlayback.UsbOut.PrepareDesc: unmapped buffers only; the mapped (mmap) mode and the wake-ups are left out.
- AudioCapture.UsbIn.RetireDesc: unmapped buffers only, likewise.
- AudioPlayback.UsbOut.SyncRetire: the three-byte reports are taken as unsigned numbers.
- AudioFormat.Conversion: 16-bit scratch samples are stored low byte first, as on this board's processor.
- AudioMixer.Construction.PrepMixCh: the answers to the requests for a control depend on the control alone.
- AudioControls.MixerIsSound: what a selector unit leaves behind is said by the walk alone (AudioMixer.Construction.SelectorUnit); an input that other units lead to as well may have been visited before, and then counts as whatever the input before it left.
- AudioMixer.Construction.RecurseUnit: bytes of a descriptor that lie outside the buffer are taken for zero.
- ScsiOrder.EveryRunIsGood: for commands without USB errors; what a failure does is said of the step where it happens (ScsiOrder.ErrorsCallBack, ScsiOrder.FragmentNotAccepted), not of whole runs.
- HidBits.Implement: sizes 1 to 31, since a shift by 32 is not defined in C; the report reaches as far as the 64-bit window.
- HidReport.HidField.InputField: an array field has a usage for every logical value; report numbers, and reports that arrive in several packets, are left out.
- HidParsing.ParseReport: reports are kept in a map by type and id, where the driver has a table of 256 for each type; where an index leaves it the model stops. Items that only set names or strings have no effect, as in the driver.
- CatcFraming.Catc.StartXmit: of a packet that does not fit behind the burst only that is said; what the driver then overwrites is left out.
- CatcFraming.RxDone: memory behind the transfer buffer is part of the model so that a wrong length reads something; allocation failures, transmit errors and resets are left out.
- AcmFlow.Acm.Push: the line discipline takes everything at a push; a resubmission that fails is left out.
- BluetoothHci.Reassembly.Callback: of pieces that cross a packet boundary only what one callback does is said (BluetoothHci.StepIs); the buggy-hardware variant is left out.
- AsyncUrbs.DevState.DestroyAllAsync: while it runs, completions come in but no other call of the same file makes a step; what a completion after the file's state has been freed does is left out.
- DeviceListing.DeviceRead: the text about one device is any function of the device and its place; faults and allocation failures are left out.
- DeviceListing.DescriptorRead: each raw configuration is as long as its wTotalLength.
- IicEeprom.Iic.WriteEeprom: the transfer of a byte is complete when the poll looks; delays, page boundaries, a slave that does not answer, and what more than 30 bytes overwrite are left out.
- AudioLevels.LevelComesBackIff: the one-byte settings of bass and treble are sent without their low byte, which is left out.
- The fault paths of the unlocked copies are steps of the protocol; that the caller then sees an error code is left out.
- The HID control FIFO and the catc control queue, which drop entries at the tail when they overflow.
- OSS ioctls, mixer control transfers, device probing, and the remaining drivers of the directory: plumbing or smaller instances of what is modelled.
- Register set-up, memory mapping and delays of the boards' drivers.
