# Verified model of herdr's input, graphics, layout, detection and manifest code

herdr is a terminal multiplexer for coding agents. This project models five of its state
machines in Dafny and proves what they promise on every input and every run.

**Raw terminal input.** `RawInputByteFramer` cuts the byte stream of the host terminal into
chunks: keys, CSI and control strings, bracketed pastes, mouse reports, UTF-8 scalars. Bytes
arrive in arbitrary fragments, idle timeouts fall anywhere between them.
`EscapeSyntax.dfy` holds the recognisers, `FramerSpec.dfy` the step functions,
`InputFramer.dfy` the class. Main results:

- cutting the stream differently is invisible **if and only if** one of two corners is
  avoided (`FragmentationIsInvisibleIff`); both corners have a concrete input
  (`LateTailExample`, `OverrunExample`);
- a stream of sequences as ECMA-48 and RFC 3629 define them, cut anywhere, comes out as exactly
  these sequences, one chunk each (`UnitsSurviveFragmentation`), also with timeouts between
  sequences, inside scalars, inside pastes and inside colour replies (`UnitsSurviveTimeouts`);
- text and pastes survive any fragmentation and any timeouts (`TextSurvives`, `PasteIsAtomic`);
- what times out half-way is swallowed to its end, however it is cut, and exactly what follows
  comes out: control strings (`LateStringIsSwallowedIff`), colour-scheme reports
  (`LateReportIsSwallowedIff`), mouse reports (`LateMouseIsSwallowedIff`), mouse reports whose
  ESC was already delivered (`OrphanedTailIsSwallowed`); further timeouts and reports that
  break off end the swallowing exactly when they should (`TwiceLateStringIsSwallowedIff`,
  `TwiceLateReportIsSwallowedIff`, `SecondTimeoutEndsMouse`, `BrokenMouseTailIff`);
- while replies to a colour query are awaited, and only then, a timeout does not tear the
  sequence behind an ESC (`UnitsDespiteTimeouts`, `EscIsHeldIff`);
- the typed layer reports each unit as what its bytes are (`StreamMeaning`);
- nothing is ever invented, repeated or reordered (`RunAccounts`), and nothing is lost
  without a timeout (`RunWithoutIdleConserves`).

**Kitty graphics cache.** `HostGraphicsCache` keeps images, placements and sources and sends
the host terminal only what changed. The host is a second state machine that executes the
commands (`KittyHost.dfy`). Main results: without colliding ids cache and host never drift
(`NeverDrift`), the incremental update shows exactly what a full redraw would show
(`IncrementalRefinesRedraw`), a frame is shown exactly under a condition on cache and frame
that covers colliding ids too (`FrameShownIff`), no layer leaks over runs of frames as they
are collected (`CollectedLayersNeverLeak`), nor would one if the collector left out every
cached layer's pixels (`WithholdingRunsNeverLeak`), repeated frames are silent
(`RepeatIsQuiet`), changed placements are not (`ChangeIsDisplayed`), a frame painted under
another view restores even a host that lost every placement (`ViewChangeRestores`), the clip
is exact (`ClipExact`), the crop shows the share of the image that the visible cells have
(`CropIsProportional`), and chunked uploads reassemble (`UploadReassembles`).

**Tile layout.** A BSP tree of panes. Main results: panes tile the area (`PanesTile`), every
divider stands at the cell nearest to its ratio (`DividersAreNearest`), focus moves to the
neighbour that shares most of the focused edge, if there is one (`FocusGoesToNearest`), a
resize moves the divider at the focused edge and nothing outside its split
(`ResizeMovesTheEdge`), to the cell nearest to the new ratio (`ResizeLandsOnNearestCell`), and
never shrinks the focused pane when asked to grow it (`ResizeGrowsFocus`). Splitting divides
the pane's own rectangle (`SplitDividesPane`), closing gives the sibling the whole of it
(`CloseFillsSplit`) and undoes inserting (`InsertThenClose`), and every operation of the
layout object keeps ids unique and the focus in the tree (`TileLayout.dfy`).

**Agent detection.** The detection loop, one tick at a time, in its two variants (`Handoff`:
`spawn_basic_detection_task`; `Spawned`: the loop started with a new pane). Processes, screen
contents, clocks, resets and release requests are the environment's choice in every tick.
Main results: an agent is lost only by a reset, by six misses or after its exit was announced
(`ExitIsAnnouncedBeforeLoss`); a reading of the screen is published at once exactly if it is
news (`ReadingIsPublished`), a tick that does not read keeps quiet (`UnreadTickIsSilent`), so
whoever follows the events knows what the loop shows (`EventsTellAll`); a new agent's screen
is left alone for three seconds and then read (`GraceLasts`, `FirstReadAfterGrace`); the
process table is looked at exactly when there is one of seven reasons (`LooksIff`), so a known
agent is checked at least every five seconds (`AgentIsRechecked`), while one acquisition
window triggers at most seven probes (`WindowTriggersAtMostSeven`), however long an output
burst lasts (`BurstTriggersAtMostSeven`); working turns into plain idle only after a confirmed
streak (`IdleIsConfirmed`); a released agent stays away until its release ends
(`ReleasedAgentStaysAway`).

**Manifest rules.** The checks on a rule's fields and the recursive gate validator with shared
counters and early exit. It accepts exactly the manifests that a statement over rules and all
their gate paths allows (`AcceptsExactlyTheValid`),
every accepted rule can reach a real matcher (`AcceptedRuleHasMatcher`), and every error names
a defect the manifest really has (`ErrorsAreTrue`).

Conventions: each imperative class is proved equal to a step function of its state, and the
theorems are about runs of that step function. Time is in milliseconds. Id and hash functions
are parameters; where the code relies on ids being distinct, that is an explicit hypothesis
(`CollisionFree`). The key table, the colour-reply parser and the mouse decoder are
parameters too; `MouseReport.dfy` has the decoder's verdict on what is a report.

## What the proofs found

- `push(a)` then `push(b)` differs from `push(a ++ b)` in exactly two situations: a lone ESC
  was just flushed and the first piece stops being a possible mouse tail before the second
  completes one, or the discarded tail of a mouse report runs past its 128-byte limit
  within one read.
- `ESC ESC` in front of a mouse report is emitted as one chunk when doubled ESC is preserved,
  and the typed layer then reports no event for it (`DoubledEscIsLost`).
- A key sequence flushed by a timeout yields an event in the typed layer only if it is a lone
  ESC or the `[` after one (`FlushedChunkYieldsEventIff`); `ESC [` is one that yields none
  (`FlushedKeyExample`).
- A paste whose content is not UTF-8 stays in the buffer and is dropped by the next timeout
  (`PasteDeliveredIffUtf8`).
- A control string that times out between the two bytes of its ST is not recognised as ended:
  the framer goes on swallowing what follows (`LateStringIsSwallowedIff`,
  `SplitTerminatorExample`). A colour-scheme report that times out behind `ESC [` is not
  swallowed at all (`LateReportIsSwallowedIff`).
- A mouse report that times out and is longer than 128 bytes, or breaks off at or behind its
  128th byte, takes the rest of the read with it (`LateMouseIsSwallowedIff`,
  `BrokenMouseTailIff`).
- A control string that is not UTF-8 blocks everything behind it until a timeout
  (`StringDeliveredIffUtf8`).
- When an id collides and the placement carries no data, the cache keeps an image the host
  has deleted (`ProcessKeepsStepIff`). Two frames from the empty cache get there
  (`DriftExample`).
- A placement with data whose key was cached and whose id is cached for other content is
  displayed and then deleted as stale in the same frame; `FrameShownIff` says exactly when a
  frame with colliding ids is shown.
- The collector looks pane layers up under ids with the top bit set, but uploads them under
  the ids of terminal images. The lookup never succeeds, so a layer's pixels are sent along in
  every frame (`LayerPixelsAreNeverWithheld`).
- Data left out because the image was cached can be missing when its turn comes, because an
  earlier placement of the same frame released the image (`ElidedDataCanBeMissing`,
  `ElidedDataExample`).
- At a viewport offset of `i32::MIN` the clip shows a cell that the grid does not cover
  (`MinimumOffsetIsOffByOne`, for a whole placement `MinimumOffsetShowsStrayCell`);
  `WindowExactIff` says exactly when the visible window is right.
- The two detection loops differ: content that asks to skip the state update delays the
  announcement of an exit in the spawned loop, not in the handoff loop
  (`ExitIsPublishedAtOnce`).
- A resize step of one cell need not lengthen the focused pane: in nested columns the inner
  divider can take the new cell (`StepNeedNotLengthen`). `StepMovesEdge` says exactly when the
  pane gets longer.
- `close_focused` on a tree of several panes that all carry the focused id, and on no other
  (`RemoveNoneIff`), returns false and leaves a placeholder as the tree
  (`CloseDuplicateExample`).

## Model

| member | source | states |
|---|---|---|
| Utf8.FirstCharLenIsScalarLen | skills/herdr/src/raw_input.rs:758-788 | the bit-mask width plus validity check accepts exactly the well-formed scalars of RFC 3629 section 4 |
| Utf8.CutText | skills/herdr/src/raw_input.rs:758-775 | valid text cut anywhere leaves a complete scalar, nothing, or an incomplete scalar in front of the cut |
| EscapeSyntax.TerminatorStable | skills/herdr/src/raw_input.rs:918-953 | a control string that ends now ends at the same place whatever bytes follow, for BEL, ST and OSC |
| EscapeSyntax.CsiEndStable | skills/herdr/src/raw_input.rs:955-962 | the end of a CSI sequence does not move when bytes follow |
| EscapeSyntax.EscapeLenStable | skills/herdr/src/raw_input.rs:790-835 | the length of a complete escape sequence, doubled ESC and mouse included, does not depend on later bytes |
| EscapeSyntax.ExtractStable | skills/herdr/src/raw_input.rs:652-700 | prefix stability of the whole recogniser: same event, same length, with any bytes behind it |
| EscapeSyntax.EscapeLenLocal | skills/herdr/src/raw_input.rs:790-835 | reading exactly the bytes of a sequence finds its length again, unless they are nothing but ESC |
| EscapeSyntax.ExtractLocal | skills/herdr/src/raw_input.rs:652-700 | a chunk read alone gives the event recognised in the stream, unless it is nothing but ESC, then none |
| EscapeSyntax.PasteEndBehindStart | skills/herdr/src/raw_input.rs:657-664 | the paste terminator cannot start inside the opener |
| InputFramer.FindCsiFinal | skills/herdr/src/raw_input.rs:955-962 | the loop returns one past the first final byte behind the introducer, or none |
| InputFramer.RawInputByteFramer.WithHostInputPolicy | skills/herdr/src/raw_input.rs:207-212 | a fresh framer with the chosen doubled-ESC policy |
| InputFramer.RawInputByteFramer.Push | skills/herdr/src/raw_input.rs:214-219 | chunks and new state are those of the step function on buffer plus data |
| InputFramer.RawInputByteFramer.HostColorQuerySent | skills/herdr/src/raw_input.rs:221-224 | arms the hold for two colour replies and touches nothing else |
| InputFramer.RawInputByteFramer.EnableHostColorSchemeChangeTracking | skills/herdr/src/raw_input.rs:226-228 | switches scheme tracking on and touches nothing else |
| InputFramer.RawInputByteFramer.DrainAvailableChunks | skills/herdr/src/raw_input.rs:389-450 | the loop terminates and emits exactly the chunks of the recursive drain |
| InputFramer.RawInputByteFramer.DrainOnce | skills/herdr/src/raw_input.rs:392-447 | one loop body: the next state, the chunk it emits and whether the loop goes on |
| InputFramer.RawInputByteFramer.NoteEvent | skills/herdr/src/raw_input.rs:437-444 | the colour-reply hold after a recognised event |
| InputFramer.RawInputByteFramer.DiscardOrphanedSgrMouseTail | skills/herdr/src/raw_input.rs:890-916 | swallows parameter bytes up to the limit, keeps what is not part of the tail |
| InputFramer.RawInputByteFramer.FlushTimeout | skills/herdr/src/raw_input.rs:249-387 | drain, then the idle decision, arm by arm in source order; what each arm is for is in `FramerDiscard`, `FramerTails`, `FramerRecovery` and `FramerHold` |
| InputFramer.RawInputByteFramer.FlushPlain | skills/herdr/src/raw_input.rs:347-387 | the idle arms behind the control-string cases |
| InputFramer.RawInputByteFramer.FlushDiscarding | skills/herdr/src/raw_input.rs:252-273 | an idle timeout while a control string is discarded keeps or ends the discard |
| InputFramer.RawInputByteFramer.StartMouseDiscard | skills/herdr/src/raw_input.rs:293-303 | a timed-out mouse report is dropped and its tail is watched for |
| InputFramer.EventsFromChunks | skills/herdr/src/raw_input.rs:166-183 | the typed events of the chunks, in order, chunks that parse to nothing left out |
| FramerFragments.TurnStable | skills/herdr/src/raw_input.rs:389-450 | outside the two corners a turn that makes progress makes the same progress with more bytes behind it |
| FramerFragments.FragmentationIsInvisibleIff | skills/herdr/src/raw_input.rs:214-217 | two pushes equal one push of the joined bytes, in chunks and full state, iff the cut is not in one of two named corners |
| FramerFragments.AnyFragmentation | skills/herdr/src/raw_input.rs:214-217 | any number of fragments gives the chunks and the state of one push |
| FramerBookkeeping.RunAccounts | skills/herdr/src/raw_input.rs:200-450 | on every run, chunks and buffer are the pushed bytes with some deleted: in order, nothing invented or repeated |
| FramerBookkeeping.RunWithoutIdleConserves | skills/herdr/src/raw_input.rs:389-450 | without timeouts a clean framer loses no byte |
| FramerBookkeeping.RunKeepsInvariant | skills/herdr/src/raw_input.rs:200-450 | discard count at most 128, no discard while the lone-ESC window is open, at most two awaited replies, on every run |
| FramerBookkeeping.IdleEmitsAllOrNothing | skills/herdr/src/raw_input.rs:249-387 | a timeout emits the whole buffer as one chunk or emits nothing |
| FramerBookkeeping.FlushLeavesIdleBuffer | skills/herdr/src/raw_input.rs:249-387 | after any timeout the buffer is empty, one ESC, an open paste, an open colour reply or a (escaped) incomplete scalar |
| FramerBookkeeping.LoneEscapeDelivered | skills/herdr/src/raw_input.rs:347-363 | a lone ESC is delivered by the first timeout, or by the second if a colour reply is awaited |
| FramerText.TextSurvives | skills/herdr/src/raw_input.rs:249-450 | valid UTF-8 without ESC, cut anywhere with timeouts anywhere, gives one chunk per scalar in order and an empty buffer |
| FramerText.PasteEndsAtTerminator | skills/herdr/src/raw_input.rs:657-664 | a body without the terminator cannot overlap the terminator behind it |
| FramerText.PasteIsAtomic | skills/herdr/src/raw_input.rs:305-313 | once the opener is buffered, any split with any timeouts gives exactly one chunk from opener to terminator, first; the run then goes on as an empty framer does with the bytes behind it |
| FramerText.PasteAlone | skills/herdr/src/raw_input.rs:305-313 | a paste with nothing behind it is the only chunk of the run, and the framer ends empty |
| FramerText.PasteDeliveredIffUtf8 | skills/herdr/src/raw_input.rs:657-664 | a complete paste is delivered iff its content is UTF-8; otherwise the next timeout drops it |
| FramerStream.ControlSequenceLenIff | skills/herdr/src/raw_input.rs:808-817 | a control sequence of ECMA-48 section 5.4 is recognised whole, whatever follows, iff it does not open like a mouse report or ends like one |
| FramerStream.ControlStringLen | skills/herdr/src/raw_input.rs:745-756 | a control string of ECMA-48 section 5.6 ends at its ST, an OSC also at its BEL |
| FramerStream.UnitAlone | skills/herdr/src/raw_input.rs:652-700 | every complete unit (sequence, string, SS3, Alt key, paste, scalar) is one event that takes all its bytes |
| FramerStream.UnitsSurviveFragmentation | skills/herdr/src/raw_input.rs:214-450 | a stream of complete units, cut anywhere, comes out as exactly these units in order, and the buffer ends empty |
| FramerStream.PatientIdle | skills/herdr/src/raw_input.rs:305-387 | a timeout changes nothing over an empty buffer, an open paste, an open colour reply or an incomplete scalar, with ESC in front or not |
| FramerStream.UnitsSurviveTimeouts | skills/herdr/src/raw_input.rs:214-450 | a stream of complete units, cut anywhere, with any timeouts between units, inside scalars, pastes and colour replies, comes out as exactly these units |
| FramerDiscard.LateStringIsSwallowedIff | skills/herdr/src/raw_input.rs:334-344 | a control string other than a colour reply that times out anywhere is swallowed through its terminator, cut anywhere before and after, and exactly the units behind it come out, iff the timeout is not between the two bytes of ST |
| FramerDiscard.SplitTerminatorExample | skills/herdr/src/raw_input.rs:334-344 | a concrete string whose ST a timeout tears: the key behind it is swallowed too |
| FramerDiscard.LateReportIsSwallowedIff | skills/herdr/src/raw_input.rs:323-332 | a colour-scheme report that times out is swallowed to its end iff the timeout is behind its third byte |
| FramerTails.LateMouseIsSwallowed | skills/herdr/src/raw_input.rs:293-303 | a mouse report of at most 128 bytes that times out behind its third byte is swallowed to its end, cut anywhere, and exactly the units behind it come out |
| FramerTails.LateMouseIsSwallowedIff | skills/herdr/src/raw_input.rs:293-303 | with the rest in one read: exactly when only the units come out, for reports of any length |
| FramerTails.OrphanedTailIsSwallowed | skills/herdr/src/raw_input.rs:392-402 | the rest of a mouse report whose ESC a timeout delivered is swallowed, cut anywhere, and the units behind it come out |
| FramerTails.TwiceOrphanedTailIsSwallowed | skills/herdr/src/raw_input.rs:279-291 | the same with a second timeout inside the rest, behind its two opening bytes |
| FramerTails.TwiceLateStringIsSwallowedIff | skills/herdr/src/raw_input.rs:252-273 | a second timeout while a string is swallowed: the rest is still swallowed iff the bytes in between can be of a colour reply, or for the other strings end in ESC, and are at most 128 |
| FramerRecovery.BrokenMouseTailIff | skills/herdr/src/raw_input.rs:890-916 | a timed-out mouse report that breaks off: what follows comes out iff the break is within 128 bytes, or the report was already given up and nothing more of it came |
| FramerRecovery.SecondTimeoutEndsMouse | skills/herdr/src/raw_input.rs:252-260 | a second timeout ends the swallowing of a mouse report: the run goes on as from a framer at rest |
| FramerRecovery.BrokenReportIsDroppedIff | skills/herdr/src/raw_input.rs:366-387 | bytes that open like a mouse report but cannot be one are dropped by the timeout, and nothing behind them is, iff they are no key |
| FramerRecovery.TwiceLateReportIsSwallowedIff | skills/herdr/src/raw_input.rs:252-273 | a second timeout while a colour-scheme report is swallowed: all up to its final is still swallowed iff the bytes in between look like such a report and are at most 128 |
| FramerRecovery.RunKeepsWindow | skills/herdr/src/raw_input.rs:844-853 | on every run at most 32 bytes, the head of a mouse report without its ESC, wait behind a delivered ESC |
| FramerRecovery.WindowClosesIff | skills/herdr/src/raw_input.rs:279-387 | a timeout that finds bytes behind a delivered ESC closes that window unless it delivers a bracket as a key |
| FramerHold.UnitsDespiteTimeouts | skills/herdr/src/raw_input.rs:347-352 | on every run of queries, tracked scheme reports and units, each unit whole or torn behind its ESC by a timeout while replies are awaited, exactly the units come out and the framer awaits what is left of two replies since the last query |
| FramerHold.EscIsHeldIff | skills/herdr/src/raw_input.rs:221-224 | a lone ESC is held back by a timeout iff fewer than two replies came since the last query; the next timeout delivers it, and no later ESC is held |
| FramerMeaning.UnitMeaning | skills/herdr/src/raw_input.rs:652-727 | each unit is reported as the one event that says of its bytes what they are: paste, focus, colour reply, scheme report, mouse, key or unsupported |
| FramerMeaning.StreamMeaning | skills/herdr/src/raw_input.rs:137-183 | a stream of units, cut anywhere, is reported as one event for each, which says what it is |
| FramerMeaning.LateReplyIsDelivered | skills/herdr/src/raw_input.rs:315-321 | a colour reply that times out behind its number is delivered whole, cut anywhere, with what follows |
| FramerMeaning.StringDeliveredIffUtf8 | skills/herdr/src/raw_input.rs:667-700 | a complete control string is delivered iff it is UTF-8; otherwise it waits, whatever follows, and a timeout drops it |
| FramerMeaning.CharDeliveredIffKey | skills/herdr/src/raw_input.rs:701-718 | a character is delivered iff the key table knows it |
| FramerEvents.ChunkYieldsEventIff | skills/herdr/src/raw_input.rs:166-183 | a drained chunk yields its event again unless it is a run of two or more ESC |
| FramerEvents.DrainedChunksYieldEvents | skills/herdr/src/raw_input.rs:137-183 | every drained chunk yields an event in the typed layer except runs of ESC, which the splitting policy never emits |
| FramerEvents.DoubledEscIsLost | skills/herdr/src/raw_input.rs:804-820 | without the splitting policy ESC ESC in front of a mouse report yields no event |
| FramerEvents.FlushedChunkYieldsEventIff | skills/herdr/src/raw_input.rs:162-183 | a chunk flushed by a timeout yields an event iff it is a lone ESC or the bracket after one |
| FramerEvents.FlushedKeyExample | skills/herdr/src/raw_input.rs:162-183 | ESC and a bracket time out: the framer emits them, the typed layer reports nothing |
| MouseReport.ReportWithTrailer | skills/herdr/src/raw_input.rs:970-998 | the mouse decoder accepts three plain fields with anything behind a further semicolon |
| FramerEvents.LateTailExample | skills/herdr/src/raw_input.rs:393-402 | concrete input for the first fragmentation corner, with the real mouse decoder |
| FramerEvents.OverrunExample | skills/herdr/src/raw_input.rs:890-916 | concrete input for the second fragmentation corner |
| KittyClip.VisibleCellsExact | skills/herdr/src/kitty_graphics.rs:804-848 | the visible window of an axis is exactly the covered cells, and exists exactly when there are any |
| KittyClip.ScaledParts | skills/herdr/src/kitty_graphics.rs:928-930 | floor-scaled offset and extent never exceed the source together |
| KittyClip.CropInside | skills/herdr/src/kitty_graphics.rs:850-900 | the source crop has at least one pixel and stays inside the requested source rectangle; which part of it that is says `CropIsProportional` |
| KittyClip.UncutShowsEverything | skills/herdr/src/kitty_graphics.rs:850-900 | an uncut placement shows its whole source rectangle |
| KittyClip.ClipExact | skills/herdr/src/kitty_graphics.rs:784-926 | the clip exists iff grid and pane share a cell, covers exactly the shared cells and crops inside the request |
| KittyCrop.CropIsProportional | skills/herdr/src/kitty_graphics.rs:850-900 | per axis: the crop starts behind the greatest whole number of source pixels within the share of the cut cells, and is as long as the greatest within the share of the visible cells, at least one |
| KittyCrop.ClipCropsExactly | skills/herdr/src/kitty_graphics.rs:784-926 | the same for both axes of a whole placement; the sub-cell offset of an axis is kept iff it is not cut in front |
| KittyCrop.HalfCutShowsFarHalf | skills/herdr/src/kitty_graphics.rs:850-900 | cut by exactly half, an image of even length shows its far half |
| KittyCrop.CutExample | skills/herdr/src/kitty_graphics.rs:850-900 | a concrete placement cut on the left shows pixels 50 to 100 of 100 |
| KittyClip.MinimumOffsetIsOffByOne | skills/herdr/src/kitty_graphics.rs:804-848 | at i32::MIN the saturating negation shows a cell that is not covered |
| KittyClip.MinimumOffsetShowsStrayCell | skills/herdr/src/kitty_graphics.rs:784-926 | at i32::MIN a whole placement is clipped to a cell of the pane that its grid does not cover |
| KittyClip.WindowExactIff | skills/herdr/src/kitty_graphics.rs:804-848 | for every offset, the window is exactly the covered cells iff the offset is above i32::MIN, or the grid stays outside the pane, or it reaches past the pane |
| KittyUpload.DecodeEncode | skills/herdr/src/kitty_graphics.rs:984-998 | base64 of RFC 4648 section 4: decoding undoes encoding |
| KittyUpload.EncodeJoins | skills/herdr/src/kitty_graphics.rs:984-998 | encoded pieces join without seams where the cut is a multiple of three |
| KittyUpload.EncodeKittyData | skills/herdr/src/kitty_graphics.rs:984-998 | the chunk loop writes exactly the specified frames |
| KittyUpload.FrameShape | skills/herdr/src/kitty_graphics.rs:984-998 | at most 4096 characters a payload, m=1 on all but the last, control keys on the first only |
| KittyUpload.PayloadsAreBase64 | skills/herdr/src/kitty_graphics.rs:984-998 | the joined payloads are the base64 text of the whole data |
| KittyUpload.UploadReassembles | skills/herdr/src/kitty_graphics.rs:984-998 | a receiver gets back exactly the data and consumes exactly these frames, whatever follows |
| KittyCache.HostGraphicsCache.constructor | skills/herdr/src/kitty_graphics.rs:475-478 | an empty cache |
| KittyCache.HostGraphicsCache.ClearBytes | skills/herdr/src/kitty_graphics.rs:494-504 | one delete per cached image, then an empty cache without a view |
| KittyCache.HostGraphicsCache.UpdateView | skills/herdr/src/kitty_graphics.rs:506-513 | reports whether the view changed and stores it |
| KittyCache.HostGraphicsCache.Paint | skills/herdr/src/kitty_graphics.rs:196-225 | clears when graphics are off, else updates with the view change |
| KittyCache.HostGraphicsCache.EncodeGraphicsUpdate | skills/herdr/src/kitty_graphics.rs:295-429 | commands and new maps are those of the update specification, for some order of the set iterations; what a view change does to it says `ViewChangeRestores` |
| KittyCache.HostGraphicsCache.DropRemovedLayers | skills/herdr/src/kitty_graphics.rs:303-328 | prunes sources and deletes unreferenced images of layers that left |
| KittyCache.HostGraphicsCache.PaintPlacement | skills/herdr/src/kitty_graphics.rs:331-416 | one placement: claim, upload or skip, release, display or skip |
| KittyCache.HostGraphicsCache.ReleaseSupersededSourceImage | skills/herdr/src/kitty_graphics.rs:433-459 | deletes the image a source moved away from, unless another source refers to it |
| KittyCache.HostGraphicsCache.DeleteStalePlacements | skills/herdr/src/kitty_graphics.rs:418-428 | deletes exactly the placements no visible entry claimed |
| KittyHost.EnsureKeepsStepIff | skills/herdr/src/kitty_graphics.rs:355-378 | uploading keeps host and cache in step iff it does not hit a colliding id without data |
| KittyHost.ProcessKeepsStepIff | skills/herdr/src/kitty_graphics.rs:331-416 | one placement keeps the mirror iff it is not a visible colliding placement without data |
| KittySessions.UpdateKeepsMirror | skills/herdr/src/kitty_graphics.rs:295-429 | executing a frame takes a mirrored host to a mirrored host; every command finds the image it names |
| KittySessions.ClearKeepsMirror | skills/herdr/src/kitty_graphics.rs:494-504 | clearing leaves a mirrored, empty host |
| KittySessions.NeverDrift | skills/herdr/src/kitty_graphics.rs:295-513 | over every run of frames, view changes and clears, host and cache agree and no command names a missing image |
| KittyRefinement.ProcessEffect | skills/herdr/src/kitty_graphics.rs:331-416 | what a supplied placement does to all three maps and to the claims |
| KittyRefinement.SuppliedFrameIsShown | skills/herdr/src/kitty_graphics.rs:295-429 | a supplied frame leaves exactly its visible placements, each with its image |
| KittyRefinement.GoodFrameIsShown | skills/herdr/src/kitty_graphics.rs:295-429 | displayable placements that agree on the content of each id are exactly what is left on screen |
| KittyRefinement.BadFrameIsNotShown | skills/herdr/src/kitty_graphics.rs:353-428 | one placement that is not displayable, or two contents under one id, keep the frame from being shown |
| KittyRefinement.FrameShownIff | skills/herdr/src/kitty_graphics.rs:295-429 | colliding ids included: the frame is shown exactly iff its placements agree per id, each has data or a ready image, and each that overwrites cached content has data and a key not cached before |
| KittyRefinement.FrameShownIffSupplied | skills/herdr/src/kitty_graphics.rs:295-429 | without collisions: the frame is shown exactly iff every visible placement without data is ready when its turn comes |
| KittyFrames.UpdateShowsFrame | skills/herdr/src/kitty_graphics.rs:295-429 | the host shows exactly the non-empty clips of the frame, with current geometry and image |
| KittyFrames.IncrementalRefinesRedraw | skills/herdr/src/kitty_graphics.rs:295-429 | from any mirrored cache the update ends with the placements of a redraw from nothing |
| KittyFrames.SettledFrameIsQuiet | skills/herdr/src/kitty_graphics.rs:393-428 | painting a settled frame again sends nothing and changes nothing |
| KittyFrames.RepeatIsQuiet | skills/herdr/src/kitty_graphics.rs:393-428 | repeating any supplied frame with an unchanged view sends nothing, with or without data |
| KittyRepaint.ViewChangeRestores | skills/herdr/src/kitty_graphics.rs:388-416 | painted under a changed view, any admissible frame brings a host that lost all placements to the state of a host that lost none |
| KittyRepaint.ViewChangeDisplaysAll | skills/herdr/src/kitty_graphics.rs:388-416 | under a changed view a display command with current clip and z goes out for every visible placement of a supplied frame, and a host that lost its placements shows the frame |
| KittyRepaint.PaintUnderAnotherView | skills/herdr/src/kitty_graphics.rs:196-225 | the same for a paint of a session whose view differs from that of the paint before |
| KittyChanges.ChangeIsDisplayed | skills/herdr/src/kitty_graphics.rs:391-416 | a visible placement whose clip, layer or scrollback changed, or that was not there, is displayed by the next supplied frame |
| KittyChanges.DepartedImageStays | skills/herdr/src/kitty_graphics.rs:303-328 | the image of terminal placements that left the frame stays on the host |
| KittyChanges.KeysDifferIff | skills/herdr/src/kitty_graphics.rs:679-719 | if ids separate, two placements share a key iff they agree in pane, image content, kind of source, image number and placement number |
| KittyChanges.WellKeyedIff | skills/herdr/src/kitty_graphics.rs:679-719 | if ids separate, a frame has keys of its own iff no two visible placements are the same and no source shows two images |
| KittyFrames.NoLeakedLayers | skills/herdr/src/kitty_graphics.rs:303-328 | with pane layers only, each with data or a ready image, the images after a frame are exactly those of its visible layers |
| KittyFrames.LayerRunsNeverLeak | skills/herdr/src/kitty_graphics.rs:303-459 | on every run of supplied layer frames and clears the cached images are those of the last frame |
| KittyCollect.WithheldIsReady | skills/herdr/src/kitty_graphics.rs:433-459 | a layer whose image is cached finds it when its turn comes, if no two contents share an id |
| KittyCollect.WithholdingRunsNeverLeak | skills/herdr/src/kitty_graphics.rs:303-459 | the same from the empty cache on every run that leaves pixels out wherever the image is cached, if no two contents share an id |
| KittyCollect.LayerPixelsAreNeverWithheld | skills/herdr/src/kitty_graphics.rs:603-624 | the collector never leaves out the pixels of a layer: it looks them up under an id that is never cached |
| KittyCollect.TerminalPixelsAreWithheldIfCached | skills/herdr/src/kitty_graphics.rs:573-578 | the pixels of a terminal image are left out iff it is cached under its id with its signature |
| KittyCollect.CollectedLayersNeverLeak | skills/herdr/src/kitty_graphics.rs:524-624 | on every run of layer frames as collected, and clears, the cached images are those of the last frame |
| KittyDrift.CollisionDrifts | skills/herdr/src/kitty_graphics.rs:353-378 | a visible colliding placement without data leaves an image in the cache that the host no longer has |
| KittyDrift.DriftExample | skills/herdr/src/kitty_graphics.rs:353-378 | a concrete run of two frames from the empty cache after which cache and host differ |
| KittyFrames.ElidedDataExample | skills/herdr/src/kitty_graphics.rs:433-459 | a concrete run from the empty cache in which that happens |
| KittyFrames.ElidedDataCanBeMissing | skills/herdr/src/kitty_graphics.rs:433-459 | an image released earlier in a frame cannot be shown by a later placement whose data was left out |
| Layout.Clamp | skills/herdr/src/layout.rs:209-211 | the result is in 0.1..0.9, a ratio in that range is kept, any other becomes the nearer end |
| Layout.ValidRatio | skills/herdr/src/layout.rs:549-555 | a finite ratio is clamped, a non-finite one becomes 0.5 |
| Layout.CollectIds | skills/herdr/src/layout.rs:468-476 | pushes the ids in tree order |
| Layout.CollectPanes | skills/herdr/src/layout.rs:413-437 | pushes id, rectangle and focus flag in tree order |
| Layout.CollectSplits | skills/herdr/src/layout.rs:439-466 | pushes the borders, each with its path |
| TileLayouts.TileLayout.constructor | skills/herdr/src/layout.rs:92-101 | one focused pane |
| TileLayouts.TileLayout.FromSaved | skills/herdr/src/layout.rs:272-275 | the given tree and focus |
| TileLayouts.TileLayout.PaneIds | skills/herdr/src/layout.rs:259-263 | the ids in tree order |
| TileLayouts.TileLayout.SplitFocusedWithRatio | skills/herdr/src/layout.rs:131-139 | splits the focused pane and focuses the new one |
| TileLayouts.TileLayout.InsertPaneNear | skills/herdr/src/layout.rs:142-162 | inserts iff the ids differ, the target exists and the moved id does not; else changes nothing |
| TileLayouts.TileLayout.CloseFocused | skills/herdr/src/layout.rs:165-186 | closes, moves the focus to the successor or predecessor; refuses the last pane |
| TileLayouts.TileLayout.FocusPane | skills/herdr/src/layout.rs:188-192 | focuses existing panes only |
| TileLayouts.TileLayout.SwapPanes | skills/herdr/src/layout.rs:196-206 | swaps two different existing ids, else changes nothing |
| TileLayouts.TileLayout.SetRatio | skills/herdr/src/layout.rs:209-211 | writes the clamped ratio at a path and reports whether the path was a split |
| TileLayouts.TileLayout.ResizeFocused | skills/herdr/src/layout.rs:215-239 | adjusts the ratio of the selected split, else changes nothing |
| TileLayouts.TileLayout.ResizePane | skills/herdr/src/layout.rs:241-257 | resizes another pane, restores the focus and reports whether the tree changed |
| TileLayouts.SplitKeepsWellFormed | skills/herdr/src/layout.rs:131-162 | splitting off a fresh pane keeps ids unique and the new focus in the tree |
| TileLayouts.CloseStaysWellFormed | skills/herdr/src/layout.rs:165-186 | closing the focused pane of several always succeeds and keeps ids unique and the focus in the tree |
| TileLayouts.CloseDuplicateExample | skills/herdr/src/layout.rs:165-186 | closing in a tree of two panes with one id reports failure and leaves a placeholder without focus |
| LayoutTree.InsertKeepsUnique | skills/herdr/src/layout.rs:520-547 | ids stay unique and the new pane comes directly behind its target |
| LayoutTree.CloseKeepsWellFormed | skills/herdr/src/layout.rs:165-186 | closing drops exactly that pane, keeps ids unique and the new focus in the tree |
| LayoutTree.RemoveNoneIff | skills/herdr/src/layout.rs:557-578 | nothing is left of a tree iff every pane carries the removed id |
| LayoutTree.RemoveUndoesSplit | skills/herdr/src/layout.rs:557-578 | removing the inserted pane restores the identical tree |
| LayoutTree.InsertThenClose | skills/herdr/src/layout.rs:142-186 | insert near a pane and close: the old tree and a known focus |
| LayoutTree.SwapInvolutive | skills/herdr/src/layout.rs:504-518 | swapping twice restores the tree |
| LayoutTree.SwapKeepsRects | skills/herdr/src/layout.rs:504-518 | swapping exchanges ids and leaves every rectangle in place |
| LayoutTree.SwapKeepsSplits | skills/herdr/src/layout.rs:504-518 | swapping leaves all borders in place |
| LayoutTree.SwapKeepsUnique | skills/herdr/src/layout.rs:196-206 | swapping keeps ids unique and their set the same |
| LayoutGeometry.SplitRectExact | skills/herdr/src/layout.rs:621-640 | the two parts share the axis without gap or overlap, after rounding; how long the first one is says `SplitsAtNearestCell` |
| LayoutGeometry.PanesTile | skills/herdr/src/layout.rs:413-437 | every cell of the area lies in exactly one pane, the one found by following the dividers |
| LayoutGeometry.PanesInside | skills/herdr/src/layout.rs:413-437 | no pane leaves the area |
| LayoutGeometry.PanesDisjoint | skills/herdr/src/layout.rs:413-437 | no cell belongs to two panes |
| LayoutGeometry.PanesInOrder | skills/herdr/src/layout.rs:413-476 | panes come in id order, the focus flag is right, one border less than panes |
| LayoutGeometry.NoEmptyPaneMeans | skills/herdr/src/layout.rs:413-437 | the hypothesis of the geometry theorems says exactly that no pane rectangle is empty |
| LayoutGeometry.BorderInside | skills/herdr/src/layout.rs:439-466 | a border runs strictly inside the area of its split |
| LayoutGeometry.PaneInsideOrApart | skills/herdr/src/layout.rs:413-466 | a pane lies inside the area of a split or shares no cell with it |
| LayoutGeometry.PaneBesideDivider | skills/herdr/src/layout.rs:413-466 | no pane straddles a divider |
| LayoutGeometry.BordersUnique | skills/herdr/src/layout.rs:439-466 | borders on one line whose areas meet are the same border |
| LayoutNavigation.BestAmong | skills/herdr/src/layout.rs:280-335 | the search returns the least candidate in the order edge, overlap, centre, position, or none if there is none |
| LayoutNavigation.NavigationIsComplete | skills/herdr/src/layout.rs:280-335 | navigation finds nothing iff the pane touches that side; else the best pane touching the focused edge |
| LayoutResize.NearestIsLeast | skills/herdr/src/layout.rs:356-368 | the search returns a candidate at the least distance, or none if there is none |
| LayoutResize.InteriorEdgeIsFound | skills/herdr/src/layout.rs:341-368 | an interior edge is found and exactly one split owns it |
| LayoutResize.RimFindsOtherSideOrNothing | skills/herdr/src/layout.rs:341-368 | at the rim the search finds the divider on the other side or nothing |
| LayoutResize.ResizeSelects | skills/herdr/src/layout.rs:215-239 | which split a resize moves: the requested edge if interior, else the opposite edge if interior, else none |
| LayoutResize.InteriorResize | skills/herdr/src/layout.rs:215-239 | towards an interior edge the resize writes the clamped ratio of the one split that owns the edge |
| LayoutResize.SetThenGet | skills/herdr/src/layout.rs:580-619 | writing a ratio at a path and reading it back; an unknown path changes nothing |
| LayoutResize.OtherRatiosStay | skills/herdr/src/layout.rs:580-619 | no other ratio changes |
| LayoutResize.SetRatioKeepsIds | skills/herdr/src/layout.rs:580-599 | a new ratio never changes the pane ids or their order, and unit ratios stay unit ratios |
| LayoutResize.ResizedKeepsIds | skills/herdr/src/layout.rs:215-239 | a resize never changes the pane ids or their order, whatever tree, area, pane and delta |
| LayoutResize.SetRatioIsLocal | skills/herdr/src/layout.rs:580-599 | a new ratio moves no pane outside the split and keeps the panes inside inside |
| LayoutResize.ResizeMovesTheEdge | skills/herdr/src/layout.rs:215-239 | a resize at an interior edge rewrites only the unique owning split, clamped, and nothing outside moves |
| LayoutGrowth.PanesGrow | skills/herdr/src/layout.rs:413-437 | in a longer area no pane gets shorter |
| LayoutGrowth.ResizeGrowsFocus | skills/herdr/src/layout.rs:215-239 | a growing resize at an interior edge never shrinks the focused pane |
| LayoutRounding.SplitsAtNearestCell | skills/herdr/src/layout.rs:621-640 | the first part of a split has the whole number of cells nearest to length times ratio, a tie going up |
| LayoutRounding.DividersAreNearest | skills/herdr/src/layout.rs:439-466 | every divider of a layout stands at the cell nearest to its ratio |
| LayoutRounding.PaneIsFitted | skills/herdr/src/layout.rs:413-437 | the length of every pane is what the nearest-cell shares along its path leave of the area |
| LayoutRounding.ResizeLandsOnNearestCell | skills/herdr/src/layout.rs:215-239 | a resize towards an interior edge puts that edge, and the focused pane with it, at the cell nearest to the clamped ratio of the owning split |
| LayoutRounding.StepMovesEdge | skills/herdr/src/layout.rs:215-239 | a delta of at least a cell inside the clamp moves the edge outwards by at least a cell; the pane lengthens by as much if no divider on its side runs across, and in general iff its share of its side grows |
| LayoutRounding.StepNeedNotLengthen | skills/herdr/src/layout.rs:215-239 | nested columns in which a step of one cell moves both edges of the focused pane and does not lengthen it |
| LayoutEdits.SplitReplacesPane | skills/herdr/src/layout.rs:520-547 | splitting puts in the place of the pane a split of that direction and ratio, the old pane first and the new one second |
| LayoutEdits.SplitDividesPane | skills/herdr/src/layout.rs:520-547 | the two panes divide the old rectangle in that direction and ratio, every other pane keeps its rectangle |
| LayoutEdits.RemoveLiftsSibling | skills/herdr/src/layout.rs:557-578 | closing puts the other side of the pane's split, as it is, in the place of that split |
| LayoutEdits.CloseFillsSplit | skills/herdr/src/layout.rs:557-578 | that side then fills the rectangle of the split, every other pane keeps its rectangle |
| LayoutEdits.RatiosListed | skills/herdr/src/layout.rs:478-502 | the list of ratios holds each split's path with its ratio and nothing else |
| LayoutEdits.ResizeShows | skills/herdr/src/layout.rs:241-257 | a resize shows in that list iff it changes the tree |
| LayoutEdits.RimResize | skills/herdr/src/layout.rs:215-239 | towards the rim a resize puts the focused pane's other edge at the cell nearest to the clamped ratio |
| LayoutEdits.NoDividerNoResize | skills/herdr/src/layout.rs:215-239 | a pane that fills the area along the axis is not resized along it |
| LayoutNeighbours.OverlapCounts | skills/herdr/src/layout.rs:392-396 | the overlap in the search key is the number of shared positions |
| LayoutNeighbours.FocusGoesToNearest | skills/herdr/src/layout.rs:280-335 | focus moves iff a pane adjoins the focused edge, to the one that shares most of it, then the one with the nearer middle, then the first |
| Detection.DetectionLoop.constructor | skills/herdr/src/pane.rs:581-598 | the loop variables before the first tick |
| Detection.DetectionLoop.ClearCurrentAgent | skills/herdr/src/pane.rs:885-893 | forgets the agent and reports whether there was one |
| Detection.DetectionLoop.ObserveProcessProbe | skills/herdr/src/pane.rs:895-920 | sets the agent at once, gives it up on the sixth miss |
| Detection.DetectionLoop.PendingIdleClear | skills/herdr/src/pane/agent_detection.rs:34-37 | forgets a pending idle |
| Detection.DetectionLoop.Reset | skills/herdr/src/pane.rs:608-627 | all variables start over; the shared release request survives |
| Detection.DetectionLoop.ResetPresence | skills/herdr/src/pane.rs:609-615 | no agent and nothing shown; only the handoff loop restarts the check clock |
| Detection.DetectionLoop.ResetProbing | skills/herdr/src/pane.rs:616-622 | probe, acquisition and exit variables start over |
| Detection.DetectionLoop.ActivePendingRelease | skills/herdr/src/pane.rs:153-166 | the released agent until its deadline, then nothing |
| Detection.DetectionLoop.Turn | skills/herdr/src/pane.rs:600-867 | one turn of the loop is the tick of the specification |
| Detection.DetectionLoop.Begin | skills/herdr/src/pane.rs:606-637 | reset, release request and release expiry |
| Detection.DetectionLoop.TakeRequest | skills/herdr/src/pane.rs:606-628 | a reset, then a new release request, if there are any |
| Detection.DetectionLoop.FinishRelease | skills/herdr/src/pane.rs:632-637 | the tick after a release starts over with probing |
| Detection.DetectionLoop.Probe | skills/herdr/src/pane.rs:667-748 | the probe stage: release, handshake, bookkeeping, announcement |
| Detection.DetectionLoop.TakeProbe | skills/herdr/src/pane.rs:667-681 | stamps the check clock, hides the released agent, ends the release on any other finding |
| Detection.DetectionLoop.AnnounceChange | skills/herdr/src/pane.rs:716-747 | a new agent is published as idle and gets its startup grace |
| Detection.DetectionLoop.Handshake | skills/herdr/src/pane.rs:682-703 | report the exit first, clear on the next look, else observe |
| Detection.DetectionLoop.RememberProbe | skills/herdr/src/pane.rs:704-715 | foreground group, acquisition window and restore flag after a probe |
| Detection.DetectionLoop.Screen | skills/herdr/src/pane.rs:750-791 | lifecycle, grace and scan gates in front of the screen read |
| Detection.DetectionLoop.Read | skills/herdr/src/pane.rs:793-866 | skip, acquisition sync, exit or screen detection |
| Detection.DetectionLoop.SyncContentChangeAcquisition | skills/herdr/src/pane.rs:387-427 | opens, keeps or ends the acquisition window |
| Detection.DetectionLoop.Publish | skills/herdr/src/pane/agent_detection.rs:238-287 | hold, publish or stay silent, as the stage says, and an exit marks itself as reported; when a reading is published says `ReadingIsPublished` |
| Detection.DetectionLoop.ShouldHoldWorkingToIdle | skills/herdr/src/pane/agent_detection.rs:39-77 | three confirmations or the cap release a held idle |
| DetectionRuns.TickEffect | skills/herdr/src/pane.rs:600-752 | what a tick does to agent, misses and the exit flags; exits are announced only when due |
| DetectionRuns.AgreementOnRuns | skills/herdr/src/pane.rs:600-752 | on every run the loop agrees with what an observer of probes and events can count; a reported exit has a pending clear and an agent |
| DetectionRuns.LossIsExplained | skills/herdr/src/pane.rs:873-920 | an agent gives way only to another one, to its announced exit or to the sixth miss |
| DetectionRuns.ExitIsAnnouncedBeforeLoss | skills/herdr/src/pane.rs:682-752 | on every run an agent is lost only after its exit was announced or after six undisturbed misses |
| DetectionRuns.ExitIsPublishedAtOnce | skills/herdr/src/pane.rs:689-866 | the tick that finds the shell publishes the exit, except in the spawned loop on skipped content |
| DetectionRuns.ReportedExitClearsNext | skills/herdr/src/pane.rs:352-385 | after the report the next tick probes and clears or replaces the agent |
| DetectionRuns.ExitIsAnnouncedOnce | skills/herdr/src/pane.rs:689-752 | an announced exit is not announced again before an identification or reset |
| DetectionProbing.TickClock | skills/herdr/src/pane.rs:387-427 | what a tick does to the check clock and the window start |
| DetectionProbing.BudgetOnRuns | skills/herdr/src/pane.rs:352-385 | on every run the probes of a window fit the budget of its age |
| DetectionProbing.WindowTriggersAtMostSeven | skills/herdr/src/pane.rs:248-256 | one acquisition window triggers at most seven acquisition probes |
| DetectionProbing.BurstKeepsWindow | skills/herdr/src/pane.rs:387-427 | screen changes less than two seconds apart neither move nor clear the window start |
| DetectionProbing.BurstTriggersAtMostSeven | skills/herdr/src/pane.rs:387-427 | an output burst of any length triggers at most seven acquisition probes |
| DetectionHold.TickHolds | skills/herdr/src/pane/agent_detection.rs:39-77 | a tick keeps holding, drops the hold, or releases it after enough holding |
| DetectionHold.HoldIsStreak | skills/herdr/src/pane/agent_detection.rs:39-77 | on every run the hold on record is an unbroken streak of at most three silent plain idle readings |
| DetectionHold.IdleIsConfirmed | skills/herdr/src/pane/agent_detection.rs:39-77 | working turns into plain idle only after a streak of three, or a shorter one over the cap |
| DetectionPublish.ReadingIsPublished | skills/herdr/src/pane/agent_detection.rs:238-287 | a tick that reads the screen shows the reading with the flag of its own state unless plain idle over working is held back, and publishes it in one event iff it differs from what was shown, the agent changed, or a stable blocker is due |
| DetectionPublish.EventsTellAll | skills/herdr/src/pane.rs:793-866 | on every run, whoever follows the events knows the state, the blocker and the working flag that the loop shows |
| DetectionPublish.ReadingIsKnown | skills/herdr/src/pane.rs:793-866 | on every run a reading that is not held back is known right after its tick |
| DetectionGrace.UnreadTickIsSilent | skills/herdr/src/pane.rs:750-791 | a tick that does not read, without an exit to announce, changes nothing shown and publishes at most a new agent as idle |
| DetectionGrace.NewAgentTick | skills/herdr/src/pane.rs:716-747 | a new agent is published as idle at once and gets three seconds |
| DetectionGrace.GraceTick | skills/herdr/src/pane.rs:758-776 | the grace is silent and ends at the first tick behind its time that is not left to a lifecycle integration |
| DetectionGrace.ExitEndsGrace | skills/herdr/src/pane.rs:758-764 | an exit that is due ends the grace |
| DetectionGrace.GraceLasts | skills/herdr/src/pane.rs:758-776 | on every run the three seconds behind a recognition are silent |
| DetectionGrace.FirstReadAfterGrace | skills/herdr/src/pane.rs:758-791 | on every run the tick behind the one that ends the grace reads the screen, changed content or not |
| DetectionGrace.BlockerIsConfirmed | skills/herdr/src/pane/agent_detection.rs:156-164 | on every run a blocker that stays is published again iff the last event is 800 milliseconds old |
| DetectionSchedule.LooksIff | skills/herdr/src/pane.rs:333-385 | a tick looks at the process table iff it knows the pid, there is a reason, and the matter is not left to a lifecycle integration |
| DetectionSchedule.TickRemembers | skills/herdr/src/pane.rs:667-715 | clock, group, restore and release flags after a tick, from what the tick saw |
| DetectionSchedule.TickMovesWindow | skills/herdr/src/pane.rs:387-427 | where the acquisition window is after a whole tick, and when the screen last changed |
| DetectionLooks.AgentIsRechecked | skills/herdr/src/pane.rs:352-385 | on every run a known agent is looked at again at the latest five seconds after the last look |
| DetectionLooks.OtherGroupIsLookedAt | skills/herdr/src/pane.rs:333-385 | on every run another foreground group than at the last look is looked at in its first tick |
| DetectionLooks.NoLookInBetween | skills/herdr/src/pane.rs:352-385 | on every run, with the same group and an agent that is neither leaving nor restored, there is no look within five seconds |
| DetectionLooks.ShellIsLeftAlone | skills/herdr/src/pane.rs:376-381 | on every run a foreground group without an agent that was looked at is not looked at again while it stays, no window is open and no release ends |
| DetectionLooks.RestoredAgentIsLookedAt | skills/herdr/src/pane.rs:352-356 | only the spawned loop starts with an agent; until it is found or given up each tick with a pid looks that is not left to a lifecycle integration, and the first one is not |
| DetectionLooks.ReleaseEndsWithALook | skills/herdr/src/pane.rs:632-637 | the first tick behind a release, without an agent, looks |
| DetectionLooks.ChangeLeadsToALook | skills/herdr/src/pane.rs:387-427 | without an agent a change on the screen leads to looks half a second apart |
| DetectionRelease.TickRelease | skills/herdr/src/pane.rs:631-681 | a running release outlasts a tick iff no probe of the tick found anything but the released agent |
| DetectionRelease.SuppressedAgentIsNotNew | skills/herdr/src/pane.rs:667-681 | while the release runs the released agent is neither identified, nor taken up, nor announced anew |
| DetectionRelease.ReleasedAgentStaysAway | skills/herdr/src/pane.rs:153-166 | on every run, between a request and its expiry the released agent is not taken up again and no event is about it, unless it never left |
| DetectionExamples.ExitExample | skills/herdr/src/pane.rs:600-867 | a concrete run that finds an agent, announces its exit and then loses it |
| DetectionExamples.HoldExample | skills/herdr/src/pane/agent_detection.rs:39-77 | a concrete run in which the fourth plain idle reading ends working |
| Manifest.Complexity.constructor | skills/herdr/scripts/agent_detection_manifest_check.py:151-151 | both counters at zero |
| Manifest.HasPositiveMatcher | skills/herdr/scripts/agent_detection_manifest_check.py:254-255 | true iff some positive key is non-empty |
| Manifest.CountMatchers | skills/herdr/scripts/agent_detection_manifest_check.py:209-217 | number of direct matchers; stops at one that is too long |
| Manifest.ValidateSelf | skills/herdr/scripts/agent_detection_manifest_check.py:201-230 | the checks on one gate in their order, with the counters they leave |
| Manifest.ValidateGate | skills/herdr/scripts/agent_detection_manifest_check.py:193-236 | outcome and counters of the recursive specification |
| Manifest.ValidateList | skills/herdr/scripts/agent_detection_manifest_check.py:231-236 | the nested gates of one key, first to last, up to the first error |
| Manifest.ValidateNestedGate | skills/herdr/scripts/agent_detection_manifest_check.py:239-251 | a gate under `not` needs some matcher before it is validated |
| Manifest.ValidateRule | skills/herdr/scripts/agent_detection_manifest_check.py:163-190 | the checks on id, state, region and skip flags in their order, then the gates, then the engine version |
| Manifest.ValidateManifest | skills/herdr/scripts/agent_detection_manifest_check.py:146-160 | the first error of the rules, in order |
| ManifestGates.AllowedUnfolds | skills/herdr/scripts/agent_detection_manifest_check.py:193-236 | allowed on all paths is allowed at the gate and on all paths of each child |
| ManifestGates.GateAccepts | skills/herdr/scripts/agent_detection_manifest_check.py:193-236 | a gate is accepted iff all gates below it are allowed and the counters fit; the counters then grow by the totals |
| ManifestGates.RegionIff | skills/herdr/scripts/agent_detection_manifest_check.py:173-183 | a region is accepted iff it is a known name or a known name with a positive count, at most 65535 and engine 3 for the top region |
| ManifestGates.FieldsIff | skills/herdr/scripts/agent_detection_manifest_check.py:163-189 | the field checks of a rule pass iff id, state, region and flags are allowed |
| ManifestGates.AcceptsExactlyTheValid | skills/herdr/scripts/agent_detection_manifest_check.py:146-236 | accepted iff there are 1 to 128 rules with allowed fields, every gate on every path is allowed (depth 8, 32 matchers, 512 characters, positivity) and the totals are at most 512 and 1024 |
| ManifestGates.AcceptedRuleHasMatcher | skills/herdr/scripts/agent_detection_manifest_check.py:254-266 | every accepted rule reaches a real matcher through any and all edges only, within eight |
| ManifestGates.ErrorsAreTrue | skills/herdr/scripts/agent_detection_manifest_check.py:146-251 | the error that stops the walk names a defect that the manifest has |

## Left out

- InputFramer: stdin threads, `poll`, channels and the blocking reader around the framer.
- EscapeSyntax: the key table, the colour-reply parser and the mouse decoder are parameters; so `TextSurvives` assumes that the key table accepts each scalar. Of the mouse decoder only the verdict on what is a report is modelled.
- FramerSpec: the 8-bit counter of awaited replies and the byte counters are unbounded; both stay below small bounds on every run.
- InputFramer.EventsFromChunks: an event is its class, with the paste content but without key codes and mouse coordinates, because key table and mouse decoder are parameters.
- KittyCache: collecting placements from panes and runtimes, and writing to standard output. `KittyCollect` has the decision which pixels to leave out. Ids come from two abstract functions; the set iterations run in an arbitrary order, returned as a ghost result.
- KittyUpload: the text of the control keys is one opaque string, and the terminal's decoder is the strict one of RFC 4648 section 4.
- KittyFrames.NoLeakedLayers: says nothing about terminal images, which the code keeps until their source moves on.
- KittyFrames.IncrementalRefinesRedraw: needs data on every visible placement, because a redraw from nothing does; `UpdateShowsFrame` covers frames whose data was left out.
- KittyClip.ClipExact: assumes known cell sizes, grid-times-cell products that fit 32 bits, offsets above the minimum and a requested rectangle inside the image.
- Layout: ratios are reals instead of 32-bit floats, coordinates do not overflow 16 bits, and edits replace the tree instead of mutating boxes. Pane id allocation is a parameter.
- LayoutNeighbours.FocusGoesToNearest: compares middles only where the area ends at or before position 32767, because the code caps doubled middles at 16 bits.
- LayoutNavigation.NavigationIsComplete: assumes that no pane is empty; layouts with empty panes are not covered.
- Detection: process tables, screen contents and the verdict of screen detection are inputs of a tick. Durations of sleeps, rendering notifications, OSC titles and the idle recheck interval are not modelled; a tick may come at any time.
- DetectionProbing.BurstTriggersAtMostSeven: counts probes triggered by the acquisition window, not those a group change or an idle recheck triggers.
- Manifest.ValidateSelf: the checks for unknown keys and for the types of values are absent, because a gate is a typed record here.
- Manifest.ValidateManifest: TOML loading, the checks on the manifest's own keys, versions and aliases, and the type and key checks on rules are absent, because the rules arrive as typed records.
- Manifest: the catalog and its digests.
- `event_hub.rs`, `metadata_tokens.rs`, `popup_size.rs`, `selection.rs`, `terminal_theme.rs` and the other small modules: they would add easy members only.
- Command line, sessions, sockets, worktrees, sound, release scripts and the TypeScript extensions: input, output and wrappers.
