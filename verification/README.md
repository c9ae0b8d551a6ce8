# A model of paniolo's device helpers

paniolo drives lab machines from a host: it types and points through a CH9329 serial chip or a JetKVM,
serves the JetKVM's screen to VNC clients, switches power through Intel AMT, and talks to a Cambrionix
USB hub. These Dafny modules model the parts of those helpers where state, protocol and encoding meet,
and prove what they promise over every input and every interleaving.

| module | models |
|---|---|
| `Bytes`, `Strings` | bytes, bits, big-endian integers, concatenation; Rust's trimming and decimal numbers |
| `UsKeyboard`, `Motion` | the US key map and a target that turns report edges into characters; splitting and scaling of pointer motion |
| `JetkvmHid`, `JetkvmHidLaws`, `JetkvmStepLaws` | the JetKVM HID session: combos, typing, pointing, over calls that may be lost; its laws; when session and device are in step |
| `Ch9329Wire` | frames and replies of the CH9329 serial protocol, read off a port in pieces |
| `Ch9329Chip`, `Ch9329Keys`, `Ch9329Typing` | the chip, which remembers only its last reports and its rate, and a line that loses frames and answers; held keys; what the target sees of the reports |
| `Ch9329Commands`, `Ch9329Session`, `Ch9329Owner` | what each command does on every line; the session and the owner loop, whose methods do exactly that |
| `Ch9329Laws`, `Ch9329TypeLaws`, `Ch9329CommandLaws`, `Ch9329StepLaws`, `Ch9329OwnerLaws` | what is promised of commands and typing; when session and chip are in step; whole runs of requests |
| `JetkvmLink`, `JetkvmOwner`, `JetkvmVideo` | JSON-RPC calls, session ownership and the video life cycle, as steps that interleave freely |
| `H264Bits`, `H264Sps`, `AnnexB` | Exp-Golomb codes, sequence parameter sets and byte streams of H.264 |
| `RfbPixels`, `RfbStream`, `RfbRequests` | pixel formats, FramebufferUpdate messages and request wakeups of the VNC server |
| `XmlReader`, `KvmPut`, `AmtPower` | AMT's hand-written XML reader, the KVM settings Put built on it, and power transitions with their deadlines |
| `HubResponse`, `Strays` | the hub's line collector; the process-tree closure behind the stray-helper listing |

How the source is represented:

- Classes hold the fields the source updates in place; their methods are proved against functions on values,
  and the laws are lemmas about those functions. Goroutines that share state are one step relation per
  component: each locked region, channel operation or timer event is one step, and `Run` takes any list of
  steps, so a lemma about `Run` speaks of every interleaving.
- What the environment does is a parameter: the fate of each frame or call (acknowledged, acknowledgement
  lost or unreadable, frame lost or refused, port broken), the pieces in which bytes arrive, the duration and end of each HTTP leg.
- Modifier and button bytes are sets of their bits. Pauses between reports are left out; the deadlines of
  `AmtPower` are milliseconds and a sleep takes exactly its time.
- The target's keyboard emits one stroke per usage that is newly down in a report, with that report's Shift.

What the proofs turned up:

- Typing a shifted character whose key is already held mistypes it when its press is lost: the report that
  restores the held state presses the key again, unshifted. Both sessions have this gap; what was read is a
  beginning of the text on every line exactly when no stroke is like that, and on the ch9329 every stroke has
  a slot (`JetkvmHidLaws.TypePrefixExactly`, `Ch9329TypeLaws.TypePrefixExactly`).
- ch9329 typing next to six other held keys drops one of them from the report and presses it again
  afterwards: the text reads back exactly when a slot is free (`Ch9329Typing.TypedExactly`). A `key` or `down`
  with six other keys held presses nothing and still succeeds; a key that is up goes down exactly when a slot
  is free for it (`Ch9329Typing.DownSeenExactly`, `Ch9329Laws.TapTypes`, `Ch9329Laws.KeyDownLaw`).
- The ch9329 session refuses a character outside the layout in the middle of a text, after typing what comes
  before it; the JetKVM session looks the whole text up first.
- A refused frame or an unreadable answer is no dead link to the ch9329 owner: the session stays open and may
  be out of step. Exactly when a command leaves it so is `Ch9329StepLaws.StepExactly`; the next command of the
  same side that succeeds brings it back (`Ch9329StepLaws.SureStaysInStep`).
- `baud` at the rate the ch9329 already runs at succeeds even when the reset is lost, and then forgets what the
  chip goes on holding (`Ch9329CommandLaws.LostResetUnnoticed`, `BaudStepExactly`). From a rate that is no
  default, a stored rate whose reset is lost leaves the chip where no later probe looks for it
  (`Ch9329OwnerLaws.FindableExactly`, `ChipLost`, `LostForGood`).
- On the JetKVM `releaseall`, also at shutdown, forgets the buttons even when its keyboard report fails and theirs
  is never sent; a shutdown release with no session up sends nothing and reports no error
  (`JetkvmStepLaws.StepExactly`, `AllInStep`).
- A shutdown release that fails leaves the session open and counted as released; exactly when it then still
  agrees with the chip is `Ch9329CommandLaws.ReleaseLaw`.
- A background reconnect that passed its check before a kick was recorded can still take the session back
  and clear the mark; `JetkvmOwner.KickHoldsExactly` says from which states that can happen.
- The pause between background attempts can be cut short: when a session ended before the attempts that failed,
  its watcher, running late, puts one second in the place of the longer pause. `JetkvmOwner.BackoffHoldsExactly`
  says from which states, and `EarlyRetryHappens` that one is reached.
- The linger period after the last client is not always kept: a callback that fired before a client came back
  ends it early, and so does a timer that such a callback made the pipeline forget. It is kept exactly when no
  earlier timer is left (`JetkvmVideo.LingerKeptExactly`); no callback ever stops decoding under a client.
- A frame with a side of 65536 or more breaks the VNC byte stream (`RfbStream.SidesMustFit`).
- The CH9329 reply checksum catches any changed byte but the length byte (`Ch9329Wire.ChangedLengthRefused`,
  `ChangedLengthAccepted`).
- AMT's XML reader ends a start tag at the first `>`, also inside an attribute value: harmless for every element
  but the wanted one, whose text then begins there (`XmlReader.ReadsDocument`, `TagEndsEarly`).
- An AMT password with blanks at its ends does not read back as itself (`KvmPut.PasswordReadsBack`).

## Model

| member | source | states |
|---|---|---|
| `UsKeyboard.KeymapInverse` | jetkvm/keys.go:123-150 | the key map and the US layout are inverse to each other, so the map is injective and misses no stroke of the layout's character rows |
| `UsKeyboard.ReadTextInverts` | ch9329/src/keys.rs:162-213 | a target that reads the strokes of a text reads that text |
| `UsKeyboard.PressSeen` | jetkvm/hid.go:190-234 | a report that adds one key to those down is seen as exactly that stroke, under the report's Shift |
| `Motion.StepsConserve` | ch9329/src/session.rs:885-919 | the reports of a motion lie in [-127, 127], none is empty, they sum to the motion, and their number is the larger of the two axes' ceilings |
| `Motion.AtMost259` | ch9329/src/session.rs:190-193 | a clamped call takes at most 259 reports |
| `Motion.TotalIsClamped` | jetkvm/hid.go:256-264 | a call moves by what was asked for, up to 32767 either way |
| `Motion.ScaleMonotone` | ch9329/src/session.rs:920-924 | scaling to the chip's grid keeps order |
| `Motion.ScaleOnto` | ch9329/src/session.rs:920-924 | every grid position is reached |
| `Motion.ScaleNearest` | ch9329/src/session.rs:920-924 | below the top clip the grid position is the nearest one |
| `JetkvmHidLaws.ChordHoldsUnion` | jetkvm/hid.go:149-163 | a chord's report holds the union of held and chord keys, each once, held keys first |
| `JetkvmHidLaws.ChordModsAre` | jetkvm/hid.go:149-163 | a chord's report has the held modifiers and every modifier of the chord |
| `JetkvmHidLaws.KeyDownLaw` | jetkvm/hid.go:114-126 | `down` is refused, changing nothing, exactly when a new key finds six held; otherwise the key is held on every outcome and, when acknowledged, seen going down exactly if it was up |
| `JetkvmHidLaws.KeyUpLaw` | jetkvm/hid.go:128-135 | the key and nothing else is released, and nothing is typed |
| `JetkvmHidLaws.ReleaseAllLaw` | jetkvm/hid.go:137-145 | nothing is held afterwards, by the session always and by the device when acknowledged |
| `JetkvmHidLaws.ComboLaw` | jetkvm/hid.go:149-176 | refused exactly when held plus chord need more than six slots; otherwise the device is sent the union of keys under the union of modifiers and then the held report, what is held never changes, the chord goes down at most once, and exactly when the device ends at the held report |
| `JetkvmHidLaws.ComboTypes` | jetkvm/hid.go:149-176 | an acknowledged chord types each of its keys that was up exactly once, under the Shift of held and chord modifiers together |
| `JetkvmHidLaws.StrokeRuns` | jetkvm/hid.go:206-229 | every way the reports of one stroke can be lost; what is read after a lost press, right exactly for a safe stroke |
| `JetkvmHidLaws.StrokeReports` | jetkvm/hid.go:206-222 | the report that releases a held key before a stroke has the modifiers of the press, the held ones and Shift if the stroke needs it, and all other keys |
| `JetkvmHidLaws.FitsExactly` | jetkvm/hid.go:211-220 | a stroke has a slot exactly when its key is held or fewer than six keys are |
| `JetkvmHidLaws.LostPressOfHeldKey` | jetkvm/hid.go:206-229 | a held key whose press is lost is pressed again by the restoring report; the right character results exactly when no further Shift was needed |
| `JetkvmHidLaws.TypeLaw` | jetkvm/hid.go:180-234 | refused unsent exactly when too long or off the layout; with every call acknowledged it succeeds exactly when every character has a slot; a text typed with no Shift held reads back exactly; what is held never changes |
| `JetkvmHidLaws.TypePrefixExactly` | jetkvm/hid.go:190-234 | what the target has read is a beginning of the text whatever is lost, if and only if no stroke that finds a slot needs Shift on a held key without it |
| `JetkvmHidLaws.MoveLaw` | jetkvm/hid.go:278-292 | whatever is lost the device receives the first steps of the clamped motion, in order and once each, all of them when acknowledged |
| `JetkvmHidLaws.ScrollLaw` | jetkvm/hid.go:349-363 | the same for the wheel |
| `JetkvmHidLaws.ClickLaw` | jetkvm/hid.go:314-328 | a click leaves the session's buttons alone; exactly when the device's agree afterwards |
| `JetkvmHidLaws.ClickCalls` | jetkvm/hid.go:314-328 | it makes its two calls in order, the second only after the first was acknowledged, and moves nothing |
| `JetkvmHidLaws.ButtonLaw` | jetkvm/hid.go:330-346 | pressing or lifting a button counts on every outcome, and the device is told, once, of all buttons then held |
| `JetkvmHidLaws.MoveAbsLaw` | jetkvm/hid.go:294-309 | the device is told, once, of the point asked for, each coordinate moved into range, and of the held buttons |
| `JetkvmHid.Session.TypeText` | jetkvm/hid.go:190-234 | the looked-up text and its sending loop have exactly the effect the laws are about, on every link |
| `JetkvmHid.Session.PressCombo` | jetkvm/hid.go:149-176 | the loop over the chord, the refusal and both calls have exactly the effect the laws are about, on every link |
| `JetkvmHid.Session.MoveRel` | jetkvm/hid.go:278-292 | the same for the loop of a motion |
| `JetkvmStepLaws.StepExactly` | jetkvm/hid.go:114-363 | a command that begins with session and device in step ends so, whatever is lost, exactly under the condition on arrivals and held state that `KeepsStep` gives for it |
| `JetkvmStepLaws.SureStaysInStep` | jetkvm/hid.go:114-363 | a command that succeeds brings the side its last report sets into step, in step or not before; a side whose last call was acknowledged stays in step through every command but a `releaseall` that fails |
| `JetkvmStepLaws.HandledLaw` | jetkvm/owner.go:293-310 | a queued command runs unless its client gave up, when nothing at all happens; a shutdown release leaves session and device holding nothing when its calls go well, and is not sent with no session up |
| `JetkvmStepLaws.AllInStep` | jetkvm/owner.go:293-310 | over every run of requests, lost calls, reconnects and shutdown releases the device holds the session's keys unless the last keyboard call was not acknowledged, and its buttons unless the last call naming them was not or a failed `releaseall` forgot them |
| `Ch9329Wire.ReplyReadBack` | ch9329/src/session.rs:452-488 | a framed reply is read as what its address, code and status mean, whatever follows it |
| `Ch9329Wire.AnswersMean` | ch9329/src/session.rs:469-488 | what each code, address and status of a framed reply comes to: accepted exactly for the command's own code with the top bit set, and data or status zero; refused when the two top bits are set; anything else unexpected |
| `Ch9329Wire.BadHeaderExactly` | ch9329/src/session.rs:452-456 | a reply is refused for its header exactly when two bytes came that are not 57 AB, whether or not more follows |
| `Ch9329Wire.Port.ReadExact` | ch9329/src/session.rs:435-450 | returns the next bytes of the stream however they arrive, and consumes no more; otherwise the port's silence |
| `Ch9329Wire.Port.ReadReply` | ch9329/src/session.rs:452-488 | its answer is a function of the stream, not of the pieces it comes in |
| `Ch9329Wire.CommandReadBack` | ch9329/src/session.rs:417-424 | a frame's command and data can be found again exactly when the data is shorter than 256 bytes |
| `Ch9329Wire.ChangedByteRefused` | ch9329/src/session.rs:452-471 | a reply with one byte changed, the length byte aside, is refused as a bad header or checksum |
| `Ch9329Wire.ChangedLengthRefused` | ch9329/src/session.rs:458-468 | a changed length byte is refused exactly unless a payload byte equals the checksum of the shorter frame |
| `Ch9329Wire.ChangedLengthAccepted` | ch9329/src/session.rs:458-488 | a reply that reports a failure can turn into a success that way |
| `Ch9329Wire.CutReplyIsTransport` | ch9329/src/uart.rs:157-164 | a reply cut short anywhere is an error that makes the owner drop the session |
| `Ch9329Keys.KeysNeededCounts` | ch9329/src/session.rs:169-179 | the slots counted for a chord are the size of the union of held and chord keys |
| `Ch9329Keys.DownAllHoldsUnion` | ch9329/src/session.rs:682-696 | a chord that fits leaves exactly the union down, without duplicates |
| `Ch9329Keys.ChordLeavesMinus` | ch9329/src/session.rs:666-703 | pressing and releasing a chord leaves held minus chord, and the held keys as they were when the chord holds none of them |
| `Ch9329Typing.PressSeenOnce` | ch9329/src/session.rs:682-696 | the target sees each key of a chord that was not held exactly once, and nothing else |
| `Ch9329Typing.ReleaseSeen` | ch9329/src/session.rs:754-763 | a chord's release report presses nothing, whether or not the press arrived |
| `Ch9329Typing.DownSeenExactly` | ch9329/src/session.rs:730-739 | a key that is up is seen going down, and held from then on, exactly when a slot is free for it |
| `Ch9329Typing.StrokeRuns` | ch9329/src/session.rs:774-818 | every way the reports of one typed stroke can go; after a lost press the target has read the stroke or nothing exactly when no report followed or the stroke is safe |
| `Ch9329Typing.TypedExactly` | ch9329/src/session.rs:774-818 | the strokes seen are those typed exactly when every stroke has a free slot or its own |
| `Ch9329Typing.TypedTextReadsBack` | ch9329/src/session.rs:774-818 | with no Shift held the target reads the text exactly under that condition |
| `Ch9329Laws.BatchApplies` | ch9329/src/session.rs:885-919 | whatever is lost, the chip receives the first frames of a batch, in order and once each, all of them when acknowledged |
| `Ch9329Laws.ChordLaw` | ch9329/src/session.rs:666-703 | an acknowledged chord was pressed and released; with at most one loss the chip ends at the released report; the chord goes down at most once whatever is lost |
| `Ch9329Laws.TapLaw` | ch9329/src/session.rs:666-680 | the same for a tap, which leaves held minus key on every outcome |
| `Ch9329Laws.TapTypes` | ch9329/src/session.rs:666-680 | an acknowledged tap types its key exactly when the key is up and a slot is free; with six others held it succeeds and types nothing |
| `Ch9329Laws.ComboLaw` | ch9329/src/session.rs:682-703 | refused, touching nothing, exactly when held and chord exceed six; otherwise held minus chord on every outcome, and the law of a chord |
| `Ch9329Laws.ComboTypes` | ch9329/src/session.rs:682-703 | an acknowledged chord types each of its keys that was up exactly once |
| `Ch9329Laws.KeyDownLaw` | ch9329/src/session.rs:705-708 | `down` holds the key on every outcome exactly if it was held or has a slot; when acknowledged the chip agrees and a key that was up is typed exactly if it has one |
| `Ch9329Laws.KeyUpLaw` | ch9329/src/session.rs:710-713 | the key is released on every outcome, the chip agrees when acknowledged, and nothing is typed |
| `Ch9329TypeLaws.TypeLaw` | ch9329/src/session.rs:774-818 | a text over the limit is refused unsent; the held set is as before on every outcome; without a failure the target has seen exactly the strokes up to the first character off the layout |
| `Ch9329TypeLaws.TypeReadsBack` | ch9329/src/session.rs:774-818 | when every frame is acknowledged the text is typed, and with no Shift held it reads back exactly if and only if every character has a slot |
| `Ch9329TypeLaws.TypePrefixExactly` | ch9329/src/session.rs:774-818 | what the target has read is a beginning of the text whatever is lost or refused, if and only if every stroke has a slot and none needs Shift on a held key without it |
| `Ch9329TypeLaws.StrokesShow` | ch9329/src/session.rs:774-818 | whatever is lost each stroke shows at most what it may, once and in order, and nothing follows one that failed |
| `Ch9329CommandLaws.MoveLaw` | ch9329/src/session.rs:885-904 | the chip receives the first steps of the clamped motion, all of them when acknowledged |
| `Ch9329CommandLaws.ScrollLaw` | ch9329/src/session.rs:906-919 | the same for the wheel |
| `Ch9329CommandLaws.MoveAbsLaw` | ch9329/src/session.rs:844-850 | acknowledged, the pointer is on the scaled target whatever was reported before, though a repeated coordinate is ignored; on every other outcome it is where it was, on the target, or one unit off it |
| `Ch9329CommandLaws.ClickLaw` | ch9329/src/session.rs:852-865 | a click leaves the pointer and the motion alone; exactly when chip and session agree on the buttons after it |
| `Ch9329CommandLaws.MuxLaw` | ch9329/src/session.rs:520-566 | every outcome of a switch exactly: success when acknowledged with the mux on the side asked for; only a reply that does not come in time reads as no mux, a failed port is a dead link |
| `Ch9329CommandLaws.BaudLaw` | ch9329/src/session.rs:585-634 | a rate out of range is refused unsent; until the stored rate is acknowledged nothing else changes; then the session holds nothing and talks at the new rate whatever becomes of the reset, and success means that the chip answers at that rate |
| `Ch9329CommandLaws.BaudStepExactly` | ch9329/src/session.rs:585-634 | after a successful `baud` session and chip agree exactly when the reset arrived or the chip held nothing; it did arrive if the rate is a new one |
| `Ch9329CommandLaws.LostResetUnnoticed` | ch9329/src/session.rs:585-634 | at the chip's own rate a lost reset goes unnoticed and what was held stays down |
| `Ch9329CommandLaws.ReleaseLaw` | ch9329/src/session.rs:724-728 | success leaves nothing held; after a failure session and chip agree exactly when the failed frame arrived after all or had nothing to release |
| `Ch9329CommandLaws.Succeeds` | ch9329/src/session.rs:417-433 | when every frame is acknowledged every command succeeds, bar the exact refusals |
| `Ch9329CommandLaws.StaysInStep` | ch9329/src/session.rs:639-918 | session and chip agree after every command that reports no failed frame, a rate set to what it was aside, and a HID command that lost one reports it |
| `Ch9329CommandLaws.QueryLaw` | ch9329/src/session.rs:492-566 | queries and mux switches touch neither the HID side of the chip nor what is held, only a switch moves the mux, `ping` and `info` send one frame and succeed exactly when it is answered, `version` sends none, and none drops the session but for a lost `ping` or `info` or a failed port |
| `Ch9329StepLaws.StepExactly` | ch9329/src/session.rs:639-918 | a command that begins with session and chip in step ends so, whatever is lost, refused or unreadable, exactly under the condition on arrivals and held state that `KeepsStep` gives for it |
| `Ch9329StepLaws.ChordStep` | ch9329/src/session.rs:666-703 | for a tap or chord: a release arrived, or the last report that did arrive is what is to be held |
| `Ch9329StepLaws.StrokesStepExactly` | ch9329/src/session.rs:774-818 | for typing: the first stroke that fails decides, in the same way |
| `Ch9329StepLaws.SureStaysInStep` | ch9329/src/session.rs:639-918 | a command that succeeds brings the side its last report sets into step, in step or not before; a side whose last report was acknowledged stays in step through every command |
| `Ch9329StepLaws.RatesKept` | ch9329/src/session.rs:639-918 | nothing but `baud` changes the rate of either end |
| `Ch9329StepLaws.FirstReplyDecides` | ch9329/src/session.rs:425-488 | a HID command whose first frame is not acknowledged reports just that: a refused or unreadable reply as bad, a missing one as lost, a failed port as dead |
| `Ch9329Session.Session.Run` | ch9329/src/proto.rs:56-156 | a command run by the session has exactly the effect the laws are about, on every line |
| `Ch9329Session.Session.TypeText` | ch9329/src/session.rs:774-818 | the loop over the characters computes that effect |
| `Ch9329Session.Session.MoveRel` | ch9329/src/session.rs:885-904 | the loop over the steps computes it |
| `Ch9329Session.Session.FinishHold` | ch9329/src/session.rs:754-763 | the release is sent once more only when the press was acknowledged and it was not, and which error wins |
| `Ch9329Session.Session.SetBaud` | ch9329/src/session.rs:585-634 | the frames of a rate change and the loop that waits for the chip's answer compute that effect |
| `Ch9329OwnerLaws.ProbesAll` | ch9329/src/session.rs:205-214 | every default rate is probed once, the rate of the session before first |
| `Ch9329OwnerLaws.OpenLaw` | ch9329/src/session.rs:344-386 | an opened session and the chip both start at nothing held, at the chip's rate, which was probed; opening types and moves nothing; it succeeds when the chip's rate is probed and every frame it hears is acknowledged |
| `Ch9329OwnerLaws.ExecutedOnce` | ch9329/src/uart.rs:186-222 | a command that is no query is executed exactly once, whatever is lost |
| `Ch9329OwnerLaws.QueryRetried` | ch9329/src/uart.rs:186-222 | a `ping` or `info` whose reply does not come in time is sent exactly once more, and what its client is told and whether the session stays is then what the second reply says; any other first reply decides and nothing more is sent; `version` sends nothing |
| `Ch9329OwnerLaws.FirstReplyServed` | ch9329/src/uart.rs:286-296 | a HID command whose first frame is refused is told so and keeps the session; one whose reply does not come or whose port fails drops it |
| `Ch9329OwnerLaws.GoneClient` | ch9329/src/uart.rs:266-269 | a request whose client gave up leaves session, line and remembered rate as they were |
| `Ch9329OwnerLaws.ServedAtMostOnce` | ch9329/src/uart.rs:258-299 | whatever is lost, and even across a reopen, a served command's keys, characters, steps, clicks and buttons reach the target at most once and in order; commands that may press a key, on a session whose last keyboard report was acknowledged |
| `Ch9329OwnerLaws.ServedWell` | ch9329/src/uart.rs:258-299 | when the chip is where the owner looks and every frame it hears is acknowledged a request opens the session if need be and succeeds, bar the exact refusals |
| `Ch9329OwnerLaws.LossDropsSession` | ch9329/src/uart.rs:290-296 | a HID command that lost a frame drops the session, unless it was told a bad reply |
| `Ch9329OwnerLaws.ShutDownReleases` | ch9329/src/uart.rs:232-250 | a successful shutdown release leaves no key, modifier or button held; it succeeds when the chip can be found and all is well |
| `Ch9329OwnerLaws.AllInStep` | ch9329/src/uart.rs:303-334 | over every run of requests, losses, refusals, rate changes and failed shutdowns both ends of an open session run at its rate, and it agrees with the chip on keys unless the last keyboard report or reset was not acknowledged, and on buttons unless the last report of these was not |
| `Ch9329OwnerLaws.AllAgree` | ch9329/src/uart.rs:303-334 | without refusals, unreadable replies, shutdowns and rates set to what they were the agreement has no exception |
| `Ch9329OwnerLaws.ServedStepExactly` | ch9329/src/uart.rs:258-299 | one request on a session in step that leaves it open leaves it in step exactly when `KeepsStep` says so |
| `Ch9329OwnerLaws.FindableExactly` | ch9329/src/uart.rs:286-299 | the chip's rate stays among those the next probing tries, except exactly after a stored rate whose reset is lost, from a rate that is neither a default nor the new one |
| `Ch9329OwnerLaws.StaysFindable` | ch9329/src/uart.rs:303-334 | the same over every run of requests |
| `Ch9329OwnerLaws.ChipLost` | ch9329/src/session.rs:585-634 | such a change of rate |
| `Ch9329OwnerLaws.LostForGood` | ch9329/src/session.rs:344-409 | a chip lost that way is not opened again, whatever the line does |
| `Ch9329Owner.Owner.ServeLine` | ch9329/src/uart.rs:258-299 | has exactly the effect the laws are about; a client that gave up has nothing sent |
| `Ch9329Owner.Owner.HandleRelease` | ch9329/src/uart.rs:232-250 | the same for the shutdown request |
| `Ch9329Owner.Owner.Run` | ch9329/src/uart.rs:303-334 | the loop over the queue handles every request in turn |
| `JetkvmLink.LinkSafe` | jetkvm/rpc.go:178-280 | under every interleaving a waiter channel is sent to at most once or closed, never both, and a reply that a call returns has the id of that call and no other; that calls do return their replies is `ReplyReturned` |
| `JetkvmLink.AnswersSafe` | jetkvm/rpc.go:198-244 | in every reachable state a call was told that the session is closed only if it is; a call that waits is in the map under its id, or its reply is on its way or its channel closed; one that returned has left nothing in the map |
| `JetkvmLink.ResultsHaveCauses` | jetkvm/rpc.go:198-244 | a reply that was returned was received, that very message; a call times out only when its own time ran out, fails to send only when the send failed, and is told closed only after Close began |
| `JetkvmLink.TakenForCall` | jetkvm/rpc.go:273-279 | a received message goes to the call that registered its id, and to none else |
| `JetkvmLink.ReplyReturned` | jetkvm/rpc.go:228-236 | a call whose reply was taken from the wire returns that very message, body and all, whatever the others do, if it gets its turns before it gives up |
| `JetkvmLink.ReceivedOnce` | jetkvm/rpc.go:228-236 | the reply a call returned is the one message ever sent on its channel, and is gone from it |
| `JetkvmLink.IdsCounted` | jetkvm/rpc.go:204-208 | ids are handed out from 1 up without gaps, one for each call that registered |
| `JetkvmLink.SendExactly` | jetkvm/rpc.go:277-279 | what Go does not survive in a send: no channel, a closed one or a full one |
| `JetkvmLink.DoneExactly` | jetkvm/rpc.go:178-181 | over every run the session is done exactly from the first Close on |
| `JetkvmLink.SweepReleases` | jetkvm/rpc.go:188-194 | the sweep empties the map, and no call that had registered before it waits in vain |
| `JetkvmLink.SweepIsSafe` | jetkvm/rpc.go:178-195 | the map that Close sweeps holds each channel once, so no channel is closed twice |
| `JetkvmLink.Link.Sweep` | jetkvm/rpc.go:178-195 | the loop over the map closes and drops every waiter |
| `JetkvmLink.NeverBlocked` | jetkvm/rpc.go:198-244 | once the link is done a call that has not returned always has a step of its own that brings it nearer |
| `JetkvmLink.NeverSetBack` | jetkvm/rpc.go:198-280 | no step of anyone else takes that progress away |
| `JetkvmLink.DoneReleasesCalls` | jetkvm/rpc.go:178-244 | no call stays blocked after the link is done, even one that registered after Close swept the map |
| `JetkvmOwner.AtMostOneSession` | jetkvm/owner.go:141-214 | under every interleaving all sessions ever dialed are done, except the owner's or one about to be recorded |
| `JetkvmOwner.KickHolds` | jetkvm/owner.go:192-210 | after a recorded kick nothing but a command's connect dials, when no background attempt is already past its check |
| `JetkvmOwner.KickHoldsExactly` | jetkvm/owner.go:166-280 | a recorded kick holds over every run exactly from those states, however many video keepers are connecting |
| `JetkvmOwner.InFlightHappens` | jetkvm/owner.go:234-264 | a state from which it does not hold is reached |
| `JetkvmOwner.BackoffGrows` | jetkvm/owner.go:266-277 | the n-th background failure in a row asks for a pause of min(2^(n-1), 30) seconds |
| `JetkvmOwner.WatchedOnce` | jetkvm/owner.go:192-210 | the end of a session is noted once, and the owner then has another session or none |
| `JetkvmOwner.BackoffHolds` | jetkvm/owner.go:260-264 | while the owner's session is not seen to end, no background attempt gets past its check until the pause is over, whoever connects |
| `JetkvmOwner.BackoffHoldsExactly` | jetkvm/owner.go:192-277 | over every run in which nobody connects the pause is kept exactly when a kick is recorded, there is no session, the session was kicked, or the pause is no longer than the second a drop asks for |
| `JetkvmOwner.EarlyRetryHappens` | jetkvm/owner.go:192-210 | a state is reached from which a watcher that runs late cuts a pause of two seconds to one |
| `JetkvmOwner.Owner.NoteFailure` | jetkvm/owner.go:266-277 | the delay doubles up to its cap and the next attempt is put off by it |
| `JetkvmVideo.VideoSafe` | jetkvm/video.go:207-282 | attached clients imply active, a decoder implies active and not closed, and no live decoder is lost sight of |
| `JetkvmVideo.AcquireAttaches` | jetkvm/video.go:207-230 | before shutdown, and only then, a client is let in: decoding is on and the linger timer is stopped |
| `JetkvmVideo.LingerEnds` | jetkvm/video.go:244-261 | when the linger period ends with nobody there decoding ends, and the decoder goes to its stop |
| `JetkvmVideo.CloseShuts` | jetkvm/video.go:264-282 | shutdown takes clients, decoder and linger timer with it, and lets nobody in afterwards |
| `JetkvmVideo.EventsHappenOnce` | jetkvm/video.go:233-282 | a stopped decoder ends and its end is noted, each once; a timer fires once |
| `JetkvmVideo.DecoderFits` | jetkvm/video.go:409-431 | after an access unit of a known size the decoder in use has that size, unless it could not be started; the one in use is kept exactly if it had it |
| `JetkvmVideo.StaleCallbackHarmless` | jetkvm/video.go:244-262 | a linger callback, however stale, never stops decoding under a client |
| `JetkvmVideo.LingerKeptExactly` | jetkvm/video.go:233-262 | when the last client leaves, the linger period is kept whatever happens exactly when no earlier linger timer is still running or waiting for the lock |
| `JetkvmVideo.FiredTimerHappens` | jetkvm/video.go:207-242 | a client can come back after the timer fired and before its callback ran |
| `JetkvmVideo.ForgottenTimerHappens` | jetkvm/video.go:207-262 | a stale callback can forget a timer that still runs |
| `JetkvmVideo.ClosedStaysQuiet` | jetkvm/video.go:264-282 | shutdown is permanent, no decoder is started after it, and those still alive are the ones being stopped |
| `JetkvmVideo.ReplacedExitHarmless` | jetkvm/video.go:464-473 | the exit of a decoder that was replaced or stopped, however late it is noted, leaves its successor in use |
| `JetkvmVideo.DeadDecoderNoted` | jetkvm/video.go:464-473 | the exit of the decoder in use is always noted in the end, and makes room for the next |
| `JetkvmVideo.Video.FeedAU` | jetkvm/video.go:383-431 | which decoder an access unit leaves in use, and the one it returns for stopping: that in use, exactly when one of another size is called for |
| `H264Bits.UeRoundTrip` | jetkvm/video.go:702-712 | an unsigned Exp-Golomb code reads back at any bit offset exactly below 2^33 - 1; above, it is refused |
| `H264Bits.SeThen` | jetkvm/video.go:714-720 | a signed code reads back at any bit offset and leaves the reader at what follows |
| `H264Bits.BitReader.Ue` | jetkvm/video.go:702-712 | the counting reader computes the recursive one |
| `H264Sps.UnescapeEscape` | jetkvm/video.go:728-742 | removing emulation prevention bytes undoes inserting them, for every payload |
| `H264Sps.SkipsList` | jetkvm/video.go:759-778 | skipping a scaling list stops exactly where the encoder's list ends |
| `H264Sps.GoModLaw` | jetkvm/video.go:772 | the remainder the source takes of a negative scale is the truncating one |
| `H264Sps.CropUnitsAgree` | jetkvm/video.go:808-821 | the cropping units used are those of the standard for every chroma format |
| `H264Sps.ParseInverts` | jetkvm/video.go:724-828 | parsing the encoding of any well-formed parameter set yields the coded size minus the cropping rectangle |
| `H264Sps.CutIsTruncated` | jetkvm/video.go:684-828 | cut anywhere before the end of its cropping fields, a well-formed parameter set is refused as truncated |
| `H264Sps.PartOfUnit` | jetkvm/video.go:724-828 | of every unit whatsoever: a part of it from its beginning is refused as truncated or too short, or parses as the whole does |
| `H264Sps.NotSpsExactly` | jetkvm/video.go:725-727 | a unit is refused as no parameter set exactly for its length or type |
| `H264Sps.ParseSps` | jetkvm/video.go:724-828 | the parser's loops compute that parse |
| `AnnexB.SplitInvertsJoin` | jetkvm/video.go:647-676 | units joined with start codes of any length and trailing zeros come back exactly |
| `AnnexB.UnitsAreNals` | jetkvm/video.go:647-676 | on every input the units are non-empty, hold no start code and end in no zero |
| `AnnexB.SplitIsStable` | jetkvm/video.go:450-455 | writing the units back with start codes and splitting again changes nothing |
| `AnnexB.SpsFoundInStream` | jetkvm/video.go:386-404 | a parameter set among the units of a stream is found whole and its picture size read |
| `AnnexB.SplitAnnexB` | jetkvm/video.go:647-669 | the index loop computes the split |
| `RfbPixels.ParseMarshal` | jetkvm/rfb.go:63-87 | a pixel format reads back from its sixteen bytes |
| `RfbPixels.MarshalLayout` | jetkvm/rfb.go:63-77 | the sixteen bytes are those of section 7.4 of RFC 6143 |
| `RfbPixels.NativeLayout` | jetkvm/rfb.go:58-61 | the bytes of the format the server announces |
| `RfbPixels.SupportedFormats` | jetkvm/rfb.go:256-260 | every true-colour format of 32 bits whose channels lie within them is accepted; another size, a colour map or a channel that begins outside is not |
| `RfbPixels.ChannelsRecovered` | jetkvm/rfb.go:89-105 | a client reading a converted pixel finds each colour scaled to its own range |
| `RfbPixels.PixelReadBack` | jetkvm/rfb.go:97-105 | the four bytes of a pixel, in either byte order, are its value |
| `RfbPixels.RowShows` | jetkvm/rfb.go:89-105 | a client that takes any pixel of a converted row apart, in its byte order and by its shifts and maxima, finds the colours of the source pixel in its place, scaled |
| `RfbPixels.NativeRowIsCopy` | jetkvm/rfb.go:89-93 | the copying fast path refines the conversion |
| `RfbPixels.ConvertRow` | jetkvm/rfb.go:89-105 | the row is converted in place and nothing behind it changes |
| `RfbStream.RfbSession.SendFrame` | jetkvm/rfb.go:370-413 | the header, the rectangles and the loop over the rows write what `PictureArrives` and `ReadsReply` are about; a resize the client cannot take ends the session before any byte of the update |
| `RfbStream.ReadsReply` | jetkvm/rfb.go:370-413 | one reply parses as one FramebufferUpdate of RFC 6143, with nothing left over |
| `RfbStream.PictureArrives` | jetkvm/rfb.go:399-410 | the rectangle a client reads has the frame's sides, and the bytes at each of its points show the colours of the frame's pixel at that point, in the client's byte order and format |
| `RfbStream.StreamParses` | jetkvm/rfb.go:370-413 | the stream of any frames with 16-bit sides parses, and each Raw rectangle covers the client's framebuffer of its time |
| `RfbStream.RfbSession.Serve` | jetkvm/rfb.go:322-345 | the session's replies, one after the other, are the stream that parses |
| `RfbStream.SidesMustFit` | jetkvm/rfb.go:370-413 | a reply reads back as its frame exactly when both sides fit in 16 bits |
| `RfbRequests.RequestsServed` | jetkvm/rfb.go:284-295 | while a request is pending there is a wake token, a reader about to send one or a responder that took one; every incremental reply is newer than the last frame sent, black frames aside, which go out only while no other has been sent |
| `RfbRequests.PendingExactly` | jetkvm/rfb.go:284-295 | between two takes a request is pending exactly when one was read, and is incremental exactly when all that were read are |
| `RfbRequests.BlackOnlyAfterTimeout` | jetkvm/rfb.go:354-366 | a black frame goes out only when the wait for the first frame ran out |
| `RfbRequests.BlackInTheEnd` | jetkvm/rfb.go:354-366 | and does when it ran out |
| `RfbRequests.WakesAreUsedUp` | jetkvm/rfb.go:291-295 | the responder never wakes more often than requests were read |
| `RfbRequests.ReaderGoesOn` | jetkvm/rfb.go:284-295 | a request leaves a wake token and the reader reading on |
| `RfbRequests.FrameWakeupNotLost` | jetkvm/video.go:86-120 | a responder waiting for a frame has been woken once there is one |
| `RfbRequests.FullNeverDowngraded` | jetkvm/rfb.go:284-295 | a pending full request stays full until taken |
| `RfbRequests.FullAnsweredAtOnce` | jetkvm/rfb.go:347-368 | and is then answered at once with the current frame, if there is one |
| `RfbRequests.PendingProgresses` | jetkvm/rfb.go:322-345 | no step sets a pending request back, and a step of the reader, the responder or the decoder always brings it nearer |
| `RfbRequests.TakenInTime` | jetkvm/rfb.go:284-345 | on every schedule a pending request is taken within nine turns of whoever can help, whatever the others do and however much is merged into it |
| `RfbRequests.AnsweredInTime` | jetkvm/rfb.go:322-368 | and answered, as what it is, within six more |
| `RfbRequests.FullServedInTime` | jetkvm/rfb.go:284-368 | a full request that is pending ends in a full reply |
| `XmlReader.ReadText` | amt/src/rpc.rs:967-996 | the cursor loop computes the recursive reader |
| `XmlReader.ReadsDocument` | amt/src/rpc.rs:961-996 | on the text of a well-formed document the reader finds the first element, in document order, with the wanted local name; elements of other names may have any attributes, and comments and CDATA sections any bare `<` |
| `XmlReader.TagEndsEarly` | amt/src/rpc.rs:975-996 | a `>` in an attribute of the wanted element itself: exactly what is then read as its text |
| `XmlReader.CommentIsRead` | amt/src/rpc.rs:961-996 | comments are not recognised: the elements inside one are found like any others |
| `KvmPut.UnescapeEscaped` | amt/src/rpc.rs:736-747 | an escaped text decodes to itself |
| `KvmPut.EscapesOnce` | amt/src/rpc.rs:707-712 | escaping a second time is harmless exactly for text without metacharacters |
| `KvmPut.Escape` | amt/src/rpc.rs:736-747 | the loop computes the escaping |
| `KvmPut.KvmPutBody` | amt/src/rpc.rs:697-726 | the loop prints the document of the fields present, inside the class element |
| `KvmPut.EchoedUnchanged` | amt/src/rpc.rs:689-722 | a field the helper does not set reads back from the body exactly as from any response, absent ones included |
| `KvmPut.SettingsReadBack` | amt/src/rpc.rs:713-722 | the switches read back as `true` exactly when set and `false` exactly when not, the timeout as the decimal number set, and no element is invented |
| `KvmPut.PasswordReadsBack` | amt/src/rpc.rs:717 | the password element decodes to the password exactly when it has no blanks at its ends |
| `KvmPut.LastPutWins` | amt/src/rpc.rs:697-726 | a Put built from a Put depends only on the last settings; the same Put again changes nothing |
| `KvmPut.BodyInSchemaOrder` | amt/src/rpc.rs:74-85 | the body's elements come in the firmware's order, each at most once, exactly those that have a text, none the response did not report |
| `AmtPower.Client.Post` | amt/src/rpc.rs:499-533 | the two legs, their timeouts and the reply, as a function of the wire and the budget |
| `AmtPower.Exchanged` | amt/src/rpc.rs:499-533 | a call takes at most its budget and one minimum timeout |
| `AmtPower.ReplyCame` | amt/src/rpc.rs:512-532 | a value comes only from the body of one of the legs; a failure for good from a leg that failed so, or a second challenge |
| `AmtPower.LegsInTime` | amt/src/rpc.rs:499-533 | a leg that ends within its share of the budget, at least one second, is not cut, and the reply is what it brought; a leg that does not is a failure that may pass |
| `AmtPower.AttemptFits` | amt/src/main.rs:556-560 | an attempt gets what is left before the deadline, at least one second and at most ten |
| `AmtPower.LoopRule` | amt/src/main.rs:566-598 | both loops go on exactly after a failure that may pass, or another state while one is waited for, and never past 20 seconds |
| `AmtPower.RefusedOnce` | amt/src/rpc.rs:521-525 | a password that is refused is not tried again by either loop |
| `AmtPower.Client.RequestRetrying` | amt/src/main.rs:566-575 | its calls, what each waits, when it retries, and success exactly on an accepted request |
| `AmtPower.Client.WaitUntil` | amt/src/main.rs:581-600 | its calls, what each waits, when it polls on, and success exactly on the wanted state |
| `AmtPower.LoopIsBounded` | amt/src/main.rs:556-600 | whatever fails and when, at most 21 attempts and less than 23 seconds |
| `AmtPower.AttemptsReached` | amt/src/main.rs:566-575 | 21 attempts do happen |
| `AmtPower.TimeReached` | amt/src/main.rs:556-575 | so do 22.999 seconds |
| `AmtPower.Client.Switch` | amt/src/main.rs:492-512 | a machine already in the wanted state is asked for nothing; otherwise success means it was asked, accepted and seen there |
| `AmtPower.Client.Cycle` | amt/src/main.rs:482-535 | power on is requested only from soft-off, found or accepted, seen and held for the delay; success exactly when On was accepted and then seen; the total time bound |
| `HubResponse.CollectResponse` | cambrionix/src/proto.rs:182-225 | the answer depends only on the bytes and on how the stream ended, never on the chunks; at most `cap` bytes are taken |
| `HubResponse.ScanFinds` | cambrionix/src/proto.rs:207-219 | scanning line by line finds the first prompt or error and collects what comes before |
| `HubResponse.PromptLinesAre` | cambrionix/src/proto.rs:211 | a prompt is a line that begins with two `>` |
| `HubResponse.ErrorLinesAre` | cambrionix/src/proto.rs:161-173 | the error lines: after leading blanks an E and a digit, or the word error anywhere in either case |
| `HubResponse.TextOfLine` | cambrionix/src/proto.rs:208-210 | a line that ends in LF or CR LF is taken for what comes before |
| `HubResponse.LineEndDropped` | cambrionix/src/proto.rs:210 | whatever carriage returns and line feeds a line ends in are dropped, and nothing else |
| `HubResponse.JoinedReadsBack` | cambrionix/src/proto.rs:217-218 | the output reads back as the lines collected |
| `HubResponse.EveryStreamIsLines` | cambrionix/src/proto.rs:178-181 | any bytes are complete lines and a partial one |
| `HubResponse.DecisiveLineDecides` | cambrionix/src/proto.rs:207-219 | the first prompt or error within the cap decides, whatever follows it |
| `HubResponse.UndecidedStream` | cambrionix/src/proto.rs:194-225 | without one, only the cap and the end count, and the partial last line is dropped |
| `Strays.RowReadsBack` | cli/src/daemons.rs:985-991 | a process row as `ps` aligns it is read back |
| `Strays.ParseI32Exactly` | cli/src/daemons.rs:985-991 | which texts are numbers of 32 bits, and which numbers they are |
| `Strays.ListingReadsBack` | cli/src/daemons.rs:1005-1011 | the text of a listing reads back as its rows in order, command lines trimmed, lines that are no row skipped |
| `Strays.CloseFamily` | cli/src/daemons.rs:1012-1024 | the loop to a fixed point computes descent from the recorded processes |
| `Strays.StraysInPs` | cli/src/daemons.rs:1005-1032 | the strays of a listing's text are, in order, the processes launched from a helper directory that are neither this one nor of a recorded one's family |
| `Strays.ListedExactly` | cli/src/daemons.rs:1026-1031 | a process is listed, with its command line, exactly when it was launched from a helper directory, is not this one and does not descend from a recorded one |
| `Strays.ListedInOrder` | cli/src/daemons.rs:1026-1031 | in the order of the table |
| `Strays.StrayHasNoRecordedAncestor` | cli/src/daemons.rs:954-969 | no process above a listed one, at any distance, is a recorded one |
| `Strays.OrderDoesNotMatter` | cli/src/daemons.rs:1012-1024 | the order of the table's rows does not change which are strays |

## Left out

- Ch9329OwnerLaws.AllInStep: between a report that was not acknowledged and the next of its side that is, nothing is promised over runs; command by command `Ch9329StepLaws.StepExactly` is exact.
- Ch9329Owner: opening the device, and setting the host port to a rate, always succeed; the chip's parameter block is only its rate.
- Ch9329Wire: the wire lemmas and the frame fates of the other ch9329 modules are separate models; a fate says whether a frame was applied and whether its answer was an acknowledgement, absent, or anything else.
- JetkvmHid: the `info` command, and the parsing of command lines and sequence files.
- JetkvmLink: JSON encoding; a call whose parameters cannot be encoded is one step that leaves its waiter in the map.
- JetkvmOwner: keepalive pings and the worker's queue; a ping that fails is the step by which a session dies.
- JetkvmVideo: packets, ffmpeg and its pipes; starting a decoder either works or fails.
- RfbRequests: the handshake, key and pointer messages; timeouts of the connection.
- RfbStream: frames arrive whole; writes to the connection either all succeed or end the session.
- XmlReader.ReadsDocument: elements inside comments count as elements (`XmlReader.CommentIsRead`); a `>` inside an attribute of the wanted element, and a bare `<` in a comment that is followed by the wanted name, are excluded, since the source misreads them (`XmlReader.TagEndsEarly`).
- AmtPower: the DNS lookup, which may outlive a timeout; digest authentication; the parsing of replies, which are their PowerState or ReturnValue here.
- HubResponse: UTF-8 decoding of a line is a parameter of which nothing is assumed; the deadline is a way for the stream to end, between any two chunks.
- Strays.StraysInPs: path comparison in `launched_from` is a parameter.
- Serial, HTTP, WebSocket, WebRTC, TLS and process I/O, tokens and secrets, command-line parsing, discovery files and the lab file.
