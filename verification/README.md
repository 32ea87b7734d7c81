# NDI monitor: models and proofs

A Dafny model of the decoder of a network video monitor, and proofs about the parts of it in which
errors would be hard to see: memory shared by delayed video queues, triple-buffered scanout against
asynchronous page flips, pixel conversion and scaling, settings handed over by a control plane, a
mode policy under concurrent control, the life of a network advertiser, and the two algorithms of
the text rasteriser that index without guards.

`dafny verify dfyconfig.toml` checks the whole project. Where the program updates an object, there
is a class with its fields, and every method is proved to be a function of the old state; the laws
about single steps, about steps of different operations and about whole runs are lemmas on these
functions. What a function means is stated apart from it too: by its result on the input itself, by a
reference definition, by what a run achieves, or by an example. The objects carry the invariants:
their public methods require and keep `Valid()`.

| file | what it models |
|---|---|
| `VideoBudget.dfy`, `DelayedFrameQueue.dfy`, `DelayRuns.dfy`, `SharedBudget.dfy` | the allocator, one delayed queue, runs of one queue, runs of all queues on one budget |
| `FrameGeometry.dfy`, `FittedFrame.dfy` | layouts, windows, 16.16 sampling and addresses; what the rectangles are for |
| `PixelConvert.dfy`, `ColourAccuracy.dfy`, `FramePicture.dfy` | the plain and the ARM conversion loops, and the native scaler; the conversion against the definition of Y'CbCr; whole frames against the samples in them |
| `ScanoutModel.dfy`, `Scanout.dfy`, `FillCache.dfy`, `Pictures.dfy`, `DRMDisplay.dfy` | kernel, buffers and commits; what the display does; the cache of black bars; what is on screen; the display class |
| `FollowerProtocol.dfy`, `FollowerConfig.dfy`, `ConfigModel.dfy`, `ConfigRuns.dfy`, `ConfigFiles.dfy`, `Config.dfy` | revisions and framing; the finder's follower; handovers; runs and snapshots; what files say; the configuration class |
| `Advertiser.dfy`, `AdvertiserProgress.dfy`, `NDIReceiver.dfy` | registration as interleaved steps against the SDK; what the thread and the commands achieve; the receiver class |
| `AutoResolution.dfy` | source keys, the lock wait, the mode policy |
| `Channels.dfy` | the connector map |
| `EdgeSort.dfy`, `Cmap.dfy` | the edge sort and the character lookup of the rasteriser |
| `Wrappers.dfy`, `Numbers.dfy` | optional values and results; bytes and powers of two |

## Conventions

Times of queues are integers in microseconds and their intervals reals, so averaging and ceilings
are exact; aspect ratios are reals too. 16- and 32-bit arithmetic is written out where the program
relies on it: the fixed-point steps, the vector lanes, the glyph arithmetic. What the kernel, the
SDK, the disk, the clock and the field-by-field parsers say is a parameter of the step that asks.
The kernel is assumed to refuse a flip while another is pending, to let a modeset replace both the
buffer on screen and the queued one, and to take removed buffers off both.

## Where the program does less than it promises

Each of these is proved, with the exact condition under which the promise does hold.

- A delayed queue can drop frames before they are due: a single late frame raises the averaged
  interval and shortens the queue (`DelayedFrames.LateFrameDropsFramesNotDue`, `DropsOnlyDueIff`).
  At a constant frame rate it never does (`DelayRuns.ConstantRateNeverDropsEarly`).
- A glyph read through a range offset is returned without idDelta (`Cmap.MatchesOpenType`).
- On-screen text drawn over a letterbox bar outlives the text (`FillCache.TextStaysInBars`). A bar of
  a frame converted in software is black exactly if no text drawn into that buffer since its last
  clear lies on it (`FillCache.BarsBlackIff`).
- The native UYVY scaler starts at the even column at or before the left edge of its rectangle: with
  an odd left edge it paints one column of the bar and leaves the right end of the rectangle black
  (`FrameGeometry.NativeStaysInRectangleIff`, `NativeFillsRectangleIff`, `FillCache.NativeBarsBlackIff`).
- `set_output` for output 1 rewrites the video output of a followed device domain while outputs are
  not followed (`ConfigRuns.SetOutputKeepsDeviceIff`).
- A snapshot of a configuration that follows nothing is refused (`ConfigRuns.SnapshotAcceptedIff`).
- A receiver recreated by a reconnection after a failed recreation is left unregistered until the
  next recreation, change of the advertising settings or advertiser (`Advertiser.MissedIff`).
- Connector names are matched by their parts, so `HDMI-A-10` shares a channel with `HDMI-A-1`
  (`Channels.SharedIff`). The comment beside the code promises a stable map, which it is.

## Model

| member | source | states |
|---|---|---|
| `VideoBudget.Totals` | src/DelayedFrameQueue.h:26-30 | the sums over all entries are those of the ledger, in whatever order the entries are visited |
| `VideoBudget.QueuedIsSum` | src/DelayedFrameQueue.h:26-30 | what all owners hold is what one holds plus what the others hold, and nobody holds nothing |
| `VideoBudget.PortionIsLargest` | src/DelayedFrameQueue.h:36 | the portion times the number of delayed owners fits the budget and one byte more would not |
| `VideoBudget.VideoDelayBudget.Share` | src/DelayedFrameQueue.h:22-37 | records the owner's entry, sets the budget to available memory plus everything queued minus 256 MiB when a measurement comes along, and grants the largest amount that all delayed owners can have at once |
| `VideoBudget.VideoDelayBudget.Remove` | src/DelayedFrameQueue.h:38-41 | takes exactly the owner's entry out of the ledger |
| `DelayedFrames.DelayedFrameQueue.constructor` | src/DelayedFrameQueue.h:56-68 | a new queue has no delay, holds nothing, and is in the ledger |
| `DelayedFrames.DelayedFrameQueue.RecordHeld` | src/DelayedFrameQueue.h:162 | the ledger entry of the owner becomes the queue's real size times its frame size |
| `DelayedFrames.DelayedFrameQueue.UpdateLimit` | src/DelayedFrameQueue.h:163-166 | the frame limit follows from the portion granted for the queue's real contents |
| `DelayedFrames.DelayedFrameQueue.Trim` | src/DelayedFrameQueue.h:176-177 | the trimming loop leaves exactly the newest frames up to the depth |
| `DelayedFrames.DelayedFrameQueue.ResizeDelay` | src/DelayedFrameQueue.h:171-179 | depth, effective delay and contents after a resize for an interval, and the ledger entry after it |
| `DelayedFrames.DelayedFrameQueue.SetDelayMs` | src/DelayedFrameQueue.h:78-98 | the whole new state of queue and ledger after a delay change; the invariant of the queue holds |
| `DelayedFrames.DelayedFrameQueue.SetFrameBytesHint` | src/DelayedFrameQueue.h:71-76 | a changed hint re-runs the delay change with the new frame size; an unchanged one does nothing to queue or ledger |
| `DelayedFrames.DelayedFrameQueue.Prepare` | src/DelayedFrameQueue.h:115-126 | the limit, the measured interval and the two resizes before a frame goes in |
| `DelayedFrames.DelayedFrameQueue.Push` | src/DelayedFrameQueue.h:114-137 | the whole new state, the ledger entry, whether the queue had room, and the pushed frame last in it |
| `DelayedFrames.DelayedFrameQueue.PopDue` | src/DelayedFrameQueue.h:138-145 | hands out the oldest frame exactly if there is one and its enqueue time plus 1000 times the effective delay has come, or there is no delay; removes it and records the new size |
| `DelayedFrames.DelayedFrameQueue.Clear` | src/DelayedFrameQueue.h:153-159 | an empty queue that forgot its measurement, and a ledger that says so |
| `DelayedFrames.DelayedFrameQueue.Close` | src/DelayedFrameQueue.h:68 | destruction removes the queue from the ledger |
| `DelayedFrames.DepthCoversDelay` | src/DelayedFrameQueue.h:171-175 | after every resize (depth - 2) intervals last at least the effective delay |
| `DelayedFrames.ResizedFits` | src/DelayedFrameQueue.h:171-179 | the depth is the least that holds the requested delay beside two frames, as far as the limit goes, and the delay the most the limit holds, as far as requested |
| `DelayedFrames.DepthIsLeast` | src/DelayedFrameQueue.h:174 | one frame less than the depth would not last the requested delay |
| `DelayedFrames.DelayIsLargest` | src/DelayedFrameQueue.h:175 | one millisecond more than the effective delay would not fit the limit, or was not requested |
| `DelayedFrames.FrameIntervalIsSmaller` | src/DelayedFrameQueue.h:167-170 | a queue is sized for the smaller of the nominal and the measured interval |
| `DelayedFrames.LimitIsLargest` | src/DelayedFrameQueue.h:163-166 | the limit is the largest number of frames that fits the grant beside two free ones, up to 600 |
| `DelayedFrames.DelaySetTakes` | src/DelayedFrameQueue.h:78-85 | a delay change takes over request and rate, each cut to its range, and starting to delay forgets the measurement |
| `DelayedFrames.PushMeasures` | src/DelayedFrameQueue.h:120-126 | a push at a later time moves the measured interval a tenth of the way to the gap, the first gap counting whole |
| `DelayedFrames.PushCoversLastGap` | src/DelayedFrameQueue.h:120-126 | a push that measures leaves a depth that covers the delay at the last gap and at the average alike |
| `DelayedFrames.KeptIff` | src/DelayedFrameQueue.h:127-136 | a frame is reported as kept exactly if it displaces no other |
| `DelayedFrames.Antitone` | src/DelayedFrameQueue.h:174-175 | a longer interval never gives more depth nor less effective delay |
| `DelayedFrames.PushKeepsNewest` | src/DelayedFrameQueue.h:114-137 | after a push the queue is a non-empty run of the newest frames pushed, in order |
| `DelayedFrames.PushFills` | src/DelayedFrameQueue.h:114-137 | a push that drops frames leaves a queue as long as the depth it works with, or one frame more than the depth of its first resize |
| `DelayedFrames.PushDropsOnlyDue` | src/DelayedFrameQueue.h:114-137 | if the frames held arrived at least as far apart as the intervals the push resizes for, every frame it drops was already due |
| `DelayedFrames.LossIsForeseen` | src/DelayedFrameQueue.h:114-137 | how many frames a push drops and the delay it works with, as formulas over the state before the call |
| `DelayedFrames.DropsOnlyDueIff` | src/DelayedFrameQueue.h:114-137 | a push drops no frame early exactly if the newest of the frames that formula dooms has waited that delay |
| `DelayedFrames.LateFrameDropsFramesNotDue` | src/DelayedFrameQueue.h:120-124 | a counterexample to delay being always honoured: one frame 10 ms late in a steady 100 fps stream makes the averaged interval drop eight frames, the newest 60 ms early |
| `DelayRuns.StepKeepsNewest` | src/DelayedFrameQueue.h:71-159 | every call leaves a run of the newest frames the queue held or was given |
| `DelayRuns.StepIsFaithful` | src/DelayedFrameQueue.h:114-159 | no call lets a queue show a frame twice, out of order, or before its enqueue time plus the effective delay, or hold anything but the newest frames |
| `DelayRuns.RunIsFaithful` | src/DelayedFrameQueue.h:114-159 | the same over every run of calls |
| `DelayRuns.PolledFrameIsShown` | src/DelayedFrameQueue.h:138-149 | a poll at or after the due time of the oldest frame is given that frame |
| `DelayRuns.PollsDrainWhatIsDue` | src/DelayedFrameQueue.h:138-149 | n polls are given the n oldest frames in order, if these are due |
| `DelayRuns.SteadyStep` | src/DelayedFrameQueue.h:119-126 | at a constant frame rate every call keeps the measured interval equal to the rate |
| `DelayRuns.SteadyPushLosesOnlyDue` | src/DelayedFrameQueue.h:114-137 | at a constant rate a push drops only frames that are due |
| `DelayRuns.ConstantRateNeverDropsEarly` | src/DelayedFrameQueue.h:114-137 | over every run at a constant rate, whatever delay, hint or grant is set in between, no frame is dropped early |
| `DelayRuns.OpenedIsSteady` | src/DelayedFrameQueue.h:56-67 | a queue as its constructor leaves it is steady at every rate |
| `DelayRuns.ConstantRateFromTheStart` | src/DelayedFrameQueue.h:53-191 | a new queue never drops a frame early in a run at a constant rate |
| `SharedBudget.StepAgrees` | src/DelayedFrameQueue.h:22-51 | every call on every queue keeps the ledger equal to the real sizes of all live queues |
| `SharedBudget.SamePortion` | src/DelayedFrameQueue.h:25-36 | the portion depends on the budget and the set of delayed owners only |
| `SharedBudget.TrackKeepsAccount` | src/DelayedFrameQueue.h:22-41 | a queue that computed its limit since the budget or the set of delayed owners last changed stays within its current portion, whatever the others do |
| `SharedBudget.BudgetHolds` | src/DelayedFrameQueue.h:22-41 | once every delayed queue has done so, the frames held beyond two each take at most the budget; a queue without delay holds at most two |
| `SharedBudget.RunsKeepAccount` | src/DelayedFrameQueue.h:22-51 | both invariants over every run of any number of queues |
| `SharedBudget.EveryRunWithinBudget` | src/DelayedFrameQueue.h:22-51 | from an empty process the ledger always agrees and the budget holds whenever all delayed queues have settled |
| `EdgeSort.MedianToFront` | src/stb_truetype.h:3424-3444 | permutes the range and leaves a sentinel: some other edge is not before the pivot in front |
| `EdgeSort.ScanUp` | src/stb_truetype.h:3452-3454 | the unguarded upward scan stops inside the range at the first edge not before the pivot |
| `EdgeSort.ScanDown` | src/stb_truetype.h:3455-3457 | the unguarded downward scan stops inside the range at the first edge not after the pivot |
| `EdgeSort.Partition` | src/stb_truetype.h:3446-3466 | cuts the range into two non-empty parts in the right order, at most one edge of the left one being left to neither recursion, and permutes only the range |
| `EdgeSort.PartedIsBelow` | src/stb_truetype.h:3449-3466 | when the scans meet, every edge before the cut may stand before every edge after it |
| `EdgeSort.Round` | src/stb_truetype.h:3420-3476 | one round leaves a strictly shorter range which, once arranged, completes the whole; the recursion takes the shorter part |
| `EdgeSort.QuickSort` | src/stb_truetype.h:3417-3477 | terminates, permutes, arranges coarsely, and never nests more than log2(n) calls |
| `EdgeSort.Assemble` | src/stb_truetype.h:3467-3475 | two coarse parts in order, with an edge between them that neither recursion visits, are coarse |
| `EdgeSort.InsertPermutes` | src/stb_truetype.h:3403-3413 | moving one edge down is a permutation |
| `EdgeSort.InsertSorts` | src/stb_truetype.h:3403-3413 | moving an edge to the place where the comparison stops keeps the prefix sorted |
| `EdgeSort.Insert` | src/stb_truetype.h:3403-3413 | the inner loop moves the edge past exactly those it is before |
| `EdgeSort.SortedAscends` | src/stb_truetype.h:3397 | sorted means that no edge has a smaller y0 than one before it |
| `EdgeSort.InsertionSort` | src/stb_truetype.h:3399-3415 | a permutation of any array in ascending order of y0 |
| `EdgeSort.SortEdges` | src/stb_truetype.h:3479-3483 | the hybrid sort permutes the edges into ascending order of y0 and touches nothing beyond them |
| `Cmap.FirstWindow` | src/stb_truetype.h:1529-1535 | the first comparison leaves a window of a power of two segments that holds the answer |
| `Cmap.HalfWindow` | src/stb_truetype.h:1536-1543 | each comparison halves the window and keeps the answer in it |
| `Cmap.SelectedOnce` | src/stb_truetype.h:1529-1548 | no two segments are the first whose end code is not below the code point |
| `Cmap.SearchSegments` | src/stb_truetype.h:1517-1548 | the search on byte addresses finds that segment, for every well-formed table |
| `Cmap.ScanStopsAtSelected` | src/stb_truetype.h:1546-1560 | a linear scan stops at that segment |
| `Cmap.GlyphInWords` | src/stb_truetype.h:1546-1560 | the glyph of a segment in the words of the table: none before its start code, the code point plus idDelta modulo 65536 without a range offset, else the word the offset leads to |
| `Cmap.LookupInWords` | src/stb_truetype.h:1546-1560 | the same for the lookup of a code point in the segment selected for it |
| `Cmap.AsciiLookups` | src/stb_truetype.h:1546-1560 | in the usual ASCII segment moved down by 29 the letter A is glyph 36, and code points beside the segment have none |
| `Cmap.LetterA` | src/stb_truetype.h:1546-1560 | the same on a table given byte by byte |
| `Cmap.FindGlyph` | src/stb_truetype.h:1516-1560 | the format 4 lookup gives the glyph of a linear scan, for every well-formed table and code point |
| `Cmap.MatchesOpenType` | src/stb_truetype.h:1555-1559 | the lookup meets the OpenType specification, 'cmap' table, format 4, exactly where no non-zero idDelta accompanies a range offset that leads to a glyph |
| `Cmap.DeltaIgnored` | src/stb_truetype.h:1555-1559 | a table on which it does not: the glyph read through the range offset is returned without idDelta |
| `FrameGeometry.AcceptedLayout` | src/NDIVideoLayout.h:27-73 | an accepted frame has whole rows, whole chroma rows for NV12, and even dimensions where chroma needs them |
| `FittedFrame.AcceptedIff` | src/NDIVideoLayout.h:27-73 | which dimensions, strides and formats are accepted, exactly, and the number of bytes of each format |
| `FrameGeometry.DstInsideDisplay` | src/DRMDisplay.cpp:1239-1268 | the destination rectangle lies on the display in every scale mode |
| `FittedFrame.LetterboxFits` | src/DRMDisplay.cpp:1239-1268 | a letterboxed frame touches both edges in the tighter direction; in the other it is centred up to a pixel and as long as its proportions allow |
| `FittedFrame.SameProportionsFill` | src/DRMDisplay.cpp:1239-1268 | a frame of the display's proportions fills it in every mode |
| `FittedFrame.OthersFill` | src/DRMDisplay.cpp:1242-1267 | stretched, cropped and empty frames get the whole display |
| `FrameGeometry.SrcInsideFrame` | src/DRMDisplay.cpp:1273-1296 | the source window lies in the frame, starts evenly, stays even where the frame is, and is not empty |
| `FittedFrame.CropKeepsProportions` | src/DRMDisplay.cpp:1273-1296 | only cropping shows less than the frame, exactly where two by two pixels of the display's proportions exist: the whole even height or width, and in the other direction the largest even part in proportion, centred up to three pixels |
| `FittedFrame.CopiedWhereBothAre` | src/DRMDisplay.cpp:1656-1668 | an RGB frame is copied exactly where window and rectangle overlap |
| `FrameGeometry.SampleInside` | src/DRMDisplay.cpp:1349-1390 | the 16.16 accumulator never wraps and never leaves the source, for every source size |
| `FrameGeometry.SampleIdentityIff` | src/DRMDisplay.cpp:1349-1390 | sampling between equal sizes is the identity exactly below 65536 pixels |
| `FramePicture.SampleIsProportional` | src/DRMDisplay.cpp:1349-1390 | the sampled index is the proportional one or the one before it |
| `FrameGeometry.WindowInsideFrame` | src/DRMDisplay.cpp:1337-1442 | all bytes the UYVY, BGRX and NV12 paths read of any window pixel, chroma included, are in the frame |
| `FrameGeometry.FrameIsPaintedInBounds` | src/DRMDisplay.cpp:1634-1767 | for every accepted frame, mode and display, each pixel the software paths paint is on the display and copied (RGB) or sampled (YUV) from bytes of the frame |
| `FrameGeometry.NativeStaysInRectangleIff` | src/DRMDisplay.cpp:1594-1627 | every column the native UYVY scaler writes belongs to the destination rectangle exactly if its left edge is even or there is no pair to write |
| `FrameGeometry.NativeFillsRectangleIff` | src/DRMDisplay.cpp:1594-1627 | it writes every column of the rectangle exactly if both edges are even |
| `FrameGeometry.NativeLeavesRectangle` | src/DRMDisplay.cpp:1594-1627 | a 720x576 frame letterboxed on 1920x1080 is written one column into its left bar, and one column short on the right |
| `FrameGeometry.NativePairInside` | src/DRMDisplay.cpp:1584-1629 | the clamps of the native scaler never fire, and its pairs stay inside the display row |
| `FrameGeometry.NativeIsPaintedInBounds` | src/DRMDisplay.cpp:1584-1629 | for every accepted UYVY frame, mode and display the native rows and pairs are on the display and all bytes read for them are in the frame |
| `PixelConvert.LaneExact` | src/YuvToXrgb.h:34-58 | one lane of the vector conversion, 16- and 32-bit arithmetic and narrowing included, equals the plain conversion: no bit is lost |
| `ColourAccuracy.ScaledError` | src/YuvToXrgb.h:8-13 | the integer coefficients of Recommendations ITU-R BT.601, BT.709 and BT.2020 keep every channel within 0.6 before rounding |
| `ColourAccuracy.LimitedIsAccurate` | src/YuvToXrgb.h:20-32 | for all bytes every channel of a converted pixel is within 1.1 of the colour they stand for by the definition of Y'CbCr, cut off at black and white, in its place under an opaque alpha byte |
| `ColourAccuracy.FullIsAccurate` | src/YuvToXrgb.h:9-32 | the same within 1.4 in full range, where products are rounded down |
| `ColourAccuracy.EveryTripleIsAColour` | src/YuvToXrgb.h:20-32 | every luma and chroma stand for a colour, so the accuracy is never empty |
| `ColourAccuracy.SystemBySize` | src/YuvToXrgb.h:15-19 | frames up to 720x576 are BT.601, up to 1920x1080 BT.709, larger ones BT.2020 |
| `PixelConvert.StoreEight` | src/YuvToXrgb.h:34-58 | eight pixels stored, each the plain conversion, nothing else touched |
| `PixelConvert.NeonUyvyRow` | src/DRMDisplay.cpp:138-188 | blocks of sixteen, of eight and single pixels give the plain conversion of every pixel, for every width |
| `PixelConvert.NeonNv12Row` | src/DRMDisplay.cpp:192-224 | the same for NV12 rows |
| `PixelConvert.NeonRow` | src/DRMDisplay.cpp:138-224 | a whole window row is converted pixel by pixel |
| `PixelConvert.Resample` | src/DRMDisplay.cpp:227-258 | picking from the converted row with the accumulating step gives the sampled pixels |
| `PixelConvert.NeonScaledRow` | src/DRMDisplay.cpp:227-258 | convert-then-resample gives the row of the plain loop |
| `PixelConvert.PlainRow` | src/DRMDisplay.cpp:1372-1388 | the inner scalar loop paints the sampled pixels and nothing else |
| `PixelConvert.PlainBlit` | src/DRMDisplay.cpp:1337-1442 | the scalar double loop paints exactly the destination rectangle with the sampled pixels |
| `PixelConvert.ArmBlit` | src/DRMDisplay.cpp:1337-1442 | the ARM loop paints exactly the destination rectangle, copying windows of its size and sampling others |
| `PixelConvert.ArmMatchesPlain` | src/DRMDisplay.cpp:1349-1442 | the ARM path paints the plain path's pixels |
| `FramePicture.UyvyPixelOfPicture` | src/DRMDisplay.cpp:1396-1442 | a frame laid out as Cb, Y, Cr, Y for each pair is read back as the samples it was laid out from |
| `FramePicture.Nv12PixelOfPicture` | src/DRMDisplay.cpp:1337-1392 | a luma plane and a plane of Cb and Cr in turn, one for two rows, are read back as the samples they were laid out from |
| `FramePicture.UyvyFrameIsPainted` | src/DRMDisplay.cpp:1396-1442 | for every accepted UYVY frame, mode and display each pixel painted is the conversion of the samples of one pixel of the window, about where the proportions put it, within 1.1 of its colour |
| `FramePicture.Nv12FrameIsPainted` | src/DRMDisplay.cpp:1337-1392 | the same for NV12 frames within 1.4 |
| `PixelConvert.NativeRow` | src/DRMDisplay.cpp:1607-1627 | one row of the native scaler, with its accumulator and clamps, writes exactly its pairs: two sampled lumas with the chroma of the first sample |
| `PixelConvert.NativeBlit` | src/DRMDisplay.cpp:1584-1629 | the native scaler writes exactly the pairs from the even column at or before the left edge, and nothing beside them |
| `PixelConvert.NativeShowsSampled` | src/DRMDisplay.cpp:1611-1626 | of each pair the first pixel is the one the software paths paint; the second has its own luma, and its own colour too where the chroma of both samples is the same |
| `FramePicture.NativeBytesArePixels` | src/DRMDisplay.cpp:1594-1627 | the bytes written are those of the pixels of the native rectangle, two each |
| `PixelConvert.AcceptedIsReadable` | src/NDIVideoLayout.h:27-73 | every accepted frame, copied whole, meets what the conversion methods require |
| `ScanoutModel.OwnCommitSafe` | src/DRMDisplay.cpp:950-1005 | committing the current buffer by flip or modeset makes the next one safe to paint; three buffers are needed |
| `ScanoutModel.OtherCommitSafe` | src/DRMDisplay.cpp:1679-1695 | committing a buffer of the other ring leaves this ring as it is |
| `ScanoutModel.TwoBuffersAreNotEnough` | src/DRMDisplay.h:217 | with two buffers the second commit would have the buffer on screen painted next |
| `ScanoutModel.AtomicTrySafe` | src/DRMDisplay.cpp:1062-1113 | an atomic commit, accepted, dropped or refused, keeps both rings safe |
| `ScanoutModel.CommittedSafe` | src/DRMDisplay.cpp:950-1113 | a commit on either path, whatever the kernel answers, reverted rotation included, keeps both rings safe |
| `ScanoutModel.NativeAllocatedSafe` | src/DRMDisplay.cpp:1506-1570 | the native allocation loop keeps safety although it frees buffers that may be on screen |
| `Scanout.ReadiedSafe` | src/DRMDisplay.cpp:1709-1712 | replacing a current buffer of the wrong size keeps safety |
| `Scanout.ShownUyvySafe` | src/DRMDisplay.cpp:1679-1766 | a UYVY frame, natively or converted after a failed attempt, paints no visible buffer |
| `Scanout.SetModeToSafe` | src/DRMDisplay.cpp:2261-2378 | a mode change with any number of failed allocations keeps safety |
| `Scanout.StepSafe` | src/DRMDisplay.cpp:926-2465 | every step of the display or the kernel keeps safety and paints no buffer that is on screen or queued |
| `Scanout.RunSafe` | src/DRMDisplay.cpp:926-2465 | the same over every run |
| `Scanout.NeverPaintsVisible` | src/DRMDisplay.cpp:926-2465 | triple buffering is safe from a fresh display: no interleaving of frames, splashes, black, modesets, rotations, hotplugs, refused or late flips and forced resets paints a buffer on screen or queued |
| `Pictures.DrawnShows` | src/DRMDisplay.cpp:1732-1760 | inside its rectangle a buffer shows exactly the frame and the text over it; around it exactly the text and, without a clear, what was lit before |
| `Pictures.WaitingEnds` | src/DRMDisplay.cpp:933-948 | a wait ends a pending flip exactly if an event is there or the vertical blank comes |
| `Pictures.CommitGoesThroughIff` | src/DRMDisplay.cpp:950-1113 | exactly when a commit is accepted, told from flags, queue and the kernel's answers; its buffer is then the latest one, and else the latest one stays |
| `Pictures.RefusedCommit` | src/DRMDisplay.cpp:950-1113 | a refused commit leaves a flip pending exactly if it had to wait for one |
| `Pictures.LatestComesOnScreen` | src/DRMDisplay.cpp:926-931 | the next vertical blank brings the latest buffer on screen |
| `Pictures.CommittedIsOnItsWay` | src/DRMDisplay.cpp:1764-1766 | a commit that goes through makes the current buffer the latest one and leaves its pixels alone |
| `Pictures.ReadiedFits` | src/DRMDisplay.cpp:1709-1714 | a buffer of the display's size is to hand exactly if the current one has it or an allocation yields one |
| `Pictures.RgbFrameIsShown` | src/DRMDisplay.cpp:1644-1767 | an XRGB frame is painted exactly if a buffer can be had, shows frame and text in its rectangle, and is on its way to the screen exactly if the commit goes through; otherwise what was shown stays |
| `Pictures.SplashIsShown` | src/DRMDisplay.cpp:2043-2190 | the same for a splash, which leaves nothing of what was in the buffer and nothing in the fill cache |
| `Pictures.BlackIsShown` | src/DRMDisplay.cpp:2233-2248 | the same for black |
| `Pictures.NativeIsTakenIff` | src/DRMDisplay.cpp:1506-1570 | the native path is taken exactly if it was not given up, the colours match and its buffers are there or can all be made, black and of the display's size |
| `Pictures.NativeFrameIsShown` | src/DRMDisplay.cpp:1679-1705 | a native frame is painted as whole pairs with nothing around them; it is done with if its commit goes through or has to wait, else the path is given up and its buffers go |
| `Pictures.UyvyFrameIsShown` | src/DRMDisplay.cpp:1679-1767 | a UYVY frame is painted on the native path alone or converted, and whatever is going to be on screen still holds what was painted |
| `Pictures.TornDown` | src/DRMDisplay.cpp:2325-2349 | no buffer of either ring is left, on screen, queued or cached |
| `Pictures.ModeTakesEffect` | src/DRMDisplay.cpp:2261-2378 | a mode with pixels takes effect: the display and its new buffers have its size, nothing old is shown or cached, and black goes to the screen; without pixels nothing changes |
| `FillCache.DrawnAgrees` | src/DRMDisplay.cpp:1304-1325 | one frame, cleared or skipped by the cache, leaves nothing lit on its bars but the text drawn into the buffer since its last clear, and keeps every entry of the cache agreeing with its pixels |
| `FillCache.TextStaysInBars` | src/DRMDisplay.cpp:1757-1760 | on-screen text drawn over a bar is still there after the next frame without text: the cache is hit |
| `FillCache.StepAgrees` | src/DRMDisplay.cpp:1304-1332 | every step, with or without text, keeps the agreement, and every frame's bars show text only |
| `FillCache.RunAgrees` | src/DRMDisplay.cpp:1304-1332 | the same over every run |
| `FillCache.BarsBlackIff` | src/DRMDisplay.cpp:1304-1332 | over every run a letterboxed or cropped frame converted in software is committed with black bars exactly if none of the text drawn into its buffer since the last clear lies on them |
| `FillCache.RunFits` | src/DRMDisplay.cpp:1304-1332 | text that stays inside the pictures it is drawn on never lies on the bars of a later frame |
| `FillCache.BarsAlwaysBlack` | src/DRMDisplay.cpp:1304-1332 | over every run in which text stays inside the pictures, everything outside what is painted of a letterboxed or cropped frame is black |
| `FillCache.NativeBarsBlackIff` | src/DRMDisplay.cpp:1594-1627 | a native picture leaves the bars black, whatever it shows, exactly if the rectangle's left edge is even or there is nothing to paint |
| `FillCache.NativePictureOnItsBar` | src/DRMDisplay.cpp:1682-1688 | a native 720x576 frame letterboxed on 1920x1080 lights its left bar |
| `DisplayObject.StepSound` | src/DRMDisplay.cpp:926-2465 | every step keeps what the display object promises: no buffer painted while visible, a cache that agrees with the pixels, bars that show text only |
| `DisplayObject.DRMDisplay.constructor` | src/DRMDisplay.h:190-240 | a fresh display with three buffers of each kind and an empty cache is sound |
| `DisplayObject.DRMDisplay.WaitForFlip` | src/DRMDisplay.cpp:933-948 | the pending flag stays exactly if no event was there and no vertical blank came |
| `DisplayObject.DRMDisplay.InvalidateFillCache` | src/DRMDisplay.cpp:1327-1332 | no entry of the cache can be hit any more |
| `DisplayObject.DRMDisplay.AtomicPlaneCommit` | src/DRMDisplay.cpp:1062-1113 | one atomic attempt is the protocol's |
| `DisplayObject.DRMDisplay.AtomicCommitFb` | src/DRMDisplay.cpp:1090-1102 | a refused rotation is reverted and tried once more, as in the protocol |
| `DisplayObject.DRMDisplay.CommitFb` | src/DRMDisplay.cpp:950-1005 | a commit is the protocol's on either path: accepted exactly when it goes through, and then its buffer is the latest one |
| `DisplayObject.DRMDisplay.CommitCurrent` | src/DRMDisplay.cpp:1764-1766 | the ring advances exactly if the commit was accepted |
| `DisplayObject.DRMDisplay.ReadyCurrent` | src/DRMDisplay.cpp:1709-1714 | a missing or wrongly sized buffer is replaced |
| `DisplayObject.DRMDisplay.FillBg` | src/DRMDisplay.cpp:1304-1325 | clears unless the slot's entry matches size, mode and rectangle, and records what it cleared for |
| `DisplayObject.DRMDisplay.FreeRing` | src/DRMDisplay.cpp:2332 | all buffers of the ring are gone, from screen and queue too |
| `DisplayObject.DRMDisplay.FreeNative` | src/DRMDisplay.cpp:1702 | the same for the native buffers |
| `DisplayObject.DRMDisplay.AllocNative` | src/DRMDisplay.cpp:1517-1570 | the allocation loop, with the clean-up of a failure at any buffer |
| `DisplayObject.DRMDisplay.ReadyNative` | src/DRMDisplay.cpp:1506-1516 | native buffers are kept, replaced or given up as the protocol says |
| `DisplayObject.DRMDisplay.PaintRgb` | src/DRMDisplay.cpp:1732-1760 | the buffer shows exactly the frame and the text in the rectangle; around it, the protocol's bars |
| `DisplayObject.DRMDisplay.ShowRgb` | src/DRMDisplay.cpp:1707-1767 | a frame's state and paint log are the protocol's |
| `DisplayObject.DRMDisplay.PaintNative` | src/DRMDisplay.cpp:1682-1688 | the whole native buffer black, then whole pairs of the picture from the even column at or before the left edge |
| `DisplayObject.DRMDisplay.CommitNative` | src/DRMDisplay.cpp:1690-1703 | an accepted or busy flip keeps the native path, any other failure gives it up |
| `DisplayObject.DRMDisplay.ShowNative` | src/DRMDisplay.cpp:1679-1705 | a native attempt's state, log and outcome are the protocol's |
| `DisplayObject.FrameTold` | src/DRMDisplay.cpp:1634-1767 | whatever a frame paints shows it, and what is going to be on screen still holds it |
| `DisplayObject.DRMDisplay.ShowFrameMemory` | src/DRMDisplay.cpp:1634-1767 | a frame on any path is the protocol's step and keeps the display sound; every painting shows the frame where the geometry puts it, a buffer going on screen still holds it, and with a buffer to hand an RGB frame is painted and goes on screen whenever the commit goes through |
| `DisplayObject.DRMDisplay.ShowSplash` | src/DRMDisplay.cpp:2043-2190 | a splash is the protocol's step, invalidates the cache of all buffers and keeps the display sound; with a buffer to hand it alone is lit, and goes on screen if the commit goes through |
| `DisplayObject.DRMDisplay.ShowBlackImpl` | src/DRMDisplay.cpp:2233-2248 | black is the protocol's step |
| `DisplayObject.DRMDisplay.ShowBlack` | src/DRMDisplay.cpp:2253-2256 | black is the protocol's step and keeps the display sound; with a buffer to hand nothing is lit, and it goes on screen if the commit goes through |
| `DisplayObject.DRMDisplay.TearDown` | src/DRMDisplay.cpp:2325-2349 | a mode change leaves no buffer, nothing active and no cache entry |
| `DisplayObject.DRMDisplay.SetMode` | src/DRMDisplay.cpp:2261-2378 | a mode change is the protocol's step and keeps the display sound; size and buffers are those of the new mode |
| `DisplayObject.DRMDisplay.ResetFlipPending` | src/DRMDisplay.h:123 | the forced reset changes the flag alone, on any display, and keeps a sound one sound |
| `FollowerProtocol.CheckIff` | src/FollowerProtocol.h:28-42 | a well-formed request passes exactly if it is not older than what is applied, or resets; otherwise it is refused as older |
| `FollowerProtocol.PassesIff` | src/FollowerProtocol.h:27-42 | which requests pass, well formed or not: a non-negative integer revision, a boolean reset if any, nothing older than applied without it |
| `FollowerProtocol.CommittedPasses` | src/FollowerProtocol.h:27-44 | a committed revision is the one reported, and the same or a newer one passes afterwards |
| `FollowerProtocol.ReadLine` | src/FollowerProtocol.h:50-70 | gives the bytes before the first byte 10 if that is among the first 1048576 and refuses otherwise, for every way the bytes are split into reads |
| `FollowerProtocol.LaterBytesDoNotMatter` | src/FollowerProtocol.h:65-67 | what follows the newline has no influence |
| `FollowerConfig.NdiFollower.constructor` | src/FollowerConfig.h:32-36 | nothing applied yet |
| `FollowerConfig.NdiFollower.ApplyConfig` | src/FollowerConfig.h:37-53 | state and response of a request; the finder is recreated exactly for an accepted new document, and the one that runs was always made from the configuration reported |
| `FollowerConfig.StepNeverGoesBack` | src/FollowerConfig.h:37-53 | a refused or failed request changes nothing; an accepted one never lowers the revision without reset |
| `FollowerConfig.AcceptedIff` | src/FollowerConfig.h:37-53 | a request is accepted exactly if it passes, hands over the ndi document alone, that parses, and the finder could be recreated or runs on it already; what is then applied is what it says |
| `FollowerConfig.RevisionNeverDecreases` | src/FollowerConfig.h:37-53 | the same over every run, recreation failures included |
| `FollowerConfig.Received` | src/FollowerConfig.h:37-53 | one delivery from a history with one content per revision: the state keeps or moves up to the content delivered |
| `FollowerConfig.Converged` | src/FollowerConfig.h:37-53 | the same over every sequence of deliveries, stale, repeated, invalid or not even finder requests |
| `FollowerConfig.Converges` | src/FollowerConfig.h:37-53 | any delivery order with duplicates ends in the configuration of the highest delivered valid revision |
| `FollowerConfig.StaysUnconfigured` | src/FollowerConfig.h:37-53 | with no valid delivery nothing is ever configured |
| `ConfigModel.NoFaultsIff` | src/Config.cpp:278-292 | the reported faults are empty exactly if every domain is known and parses |
| `ConfigModel.AllOrNothing` | src/Config.cpp:264-335 | a request is accepted exactly if its revision passes, all its domains parse and audio consents; else the configuration is unchanged |
| `ConfigModel.AcceptedIff` | src/Config.cpp:264-335 | the same told from the documents: the six known domains, the reader of each, and the consent of the audio engine to the settings stamped with this revision |
| `ConfigModel.TakenTakes` | src/Config.cpp:297-331 | each domain handed over sets its fields to what its document says, whatever was there before |
| `ConfigModel.TakenLeaves` | src/Config.cpp:297-331 | each domain not handed over keeps its fields, and the channel number and the observed address stay |
| `ConfigModel.TakenMerges` | src/Config.cpp:297-331 | taking over two sets of domains at one revision, one after the other, is taking over their union |
| `ConfigModel.PartsMerge` | src/Config.cpp:264-335 | a list of partial requests at one revision is accepted throughout and takes over their union |
| `ConfigModel.AnyOrderAnyGrouping` | src/Config.cpp:264-335 | handing over a document's domains in any order, any grouping and with retries gives the state of one request with all of them |
| `ConfigModel.ReplayIsIdempotent` | src/Config.cpp:264-335 | an accepted request sent again is accepted and changes nothing |
| `ConfigRuns.WrittenIsReadBack` | src/Config.cpp:174-238 | what set_output writes, load and get_output bring back |
| `ConfigRuns.WrittenKeepsOthers` | src/Config.cpp:217-228 | set_output keeps the other fields of the file |
| `ConfigRuns.LoadLeaves` | src/Config.cpp:64-156 | load with arbitrary disk contents, ended by an ill-typed value anywhere, leaves every followed domain, the address and the followed device's video output alone |
| `ConfigFiles.DecoderFileIs` | src/Config.cpp:71-86 | the decoder file is read without error exactly if every value that counts has its type, and each setting becomes the value or its default |
| `ConfigFiles.DeviceFileIs` | src/Config.cpp:102-114 | the same for the device file |
| `ConfigFiles.LoadedIs` | src/Config.cpp:64-156 | the same for all files: loading succeeds exactly if every value that counts has its type, and then each setting not followed is what its file says or the default |
| `ConfigFiles.OutputIs` | src/Config.cpp:174-199 | an output that is read has its file's values or the defaults, and output 1 without a file the legacy settings; it fails exactly for an ill-typed value |
| `ConfigFiles.GotIsWhatIsSet` | src/Config.cpp:174-238 | what is set is what is got, whatever the file says by then; followed outputs are got from the document only |
| `ConfigRuns.TakenLive` | src/Config.cpp:297-331 | a handover makes the live fields of its domains those of its documents and keeps the others |
| `ConfigRuns.StepLive` | src/Config.cpp:64-335 | every operation keeps the live fields of each followed domain equal to the parse of its last accepted document; ownership only grows |
| `ConfigRuns.RunLive` | src/Config.cpp:64-335 | the same over every run of requests, loads, output reads and writes and address changes |
| `ConfigRuns.OtherOwners` | src/Config.cpp:297-323 | the observed address is set_runtime_ip's alone; audio settings change only when handed over and carry that revision |
| `ConfigRuns.SetOutputKeepsDeviceIff` | src/Config.cpp:211-238 | set_output keeps a followed device's video output exactly if it is not for output 1, is ignored, or asks for the same |
| `ConfigRuns.SetOutputOverridesDevice` | src/Config.cpp:233-237 | one request and one observation after which a followed device domain has another video output than its document |
| `ConfigRuns.RunKeepsVideoOutput` | src/Config.cpp:64-335 | with outputs followed, or without set_output for output 1, every run keeps it |
| `ConfigRuns.SnapshotRestores` | src/Config.cpp:245-248 | a snapshot applied to a fresh configuration restores followed set, revision, documents and all live fields; only the audio revision tag becomes the snapshot's |
| `ConfigRuns.SnapshotAcceptedIff` | src/Config.cpp:245-248 | it is accepted exactly if something is followed |
| `ConfigObject.ParseDomains` | src/Config.cpp:278-291 | the loop over the request's domains finds all faults and parses every good document, in any order |
| `ConfigObject.Config.constructor` | src/Config.h:122-136 | the defaults of a fresh configuration |
| `ConfigObject.Config.Take` | src/Config.cpp:297-325 | the fields after the domains were taken over, with audio and address kept by their owners |
| `ConfigObject.Config.Follow` | src/Config.cpp:326-329 | exactly the request's domains are followed from now on |
| `ConfigObject.Config.ApplyConfig` | src/Config.cpp:264-335 | state and response of a request; followed domains stay live and followed |
| `ConfigObject.Config.LoadDecoder` | src/Config.cpp:71-86 | the decoder file, read field by field up to an ill-typed one |
| `ConfigObject.Config.LoadDevice` | src/Config.cpp:102-114 | the device file, under two owners |
| `ConfigObject.Config.LoadDisplay` | src/Config.cpp:129-155 | the splash and on-screen display files |
| `ConfigObject.Config.Load` | src/Config.cpp:64-156 | all files in turn, for the domains not followed, which succeeds exactly if every value that counts has its type; followed ones stay live |
| `ConfigObject.Config.GetOutput` | src/Config.cpp:174-199 | cached, absent, read or legacy settings of an output, and the cache after it |
| `ConfigObject.Config.SetOutput` | src/Config.cpp:211-238 | state and file after an observation; nothing while outputs are followed |
| `ConfigObject.Config.SetRuntimeIp` | src/Config.cpp:201-204 | the address changes and nothing else |
| `ConfigObject.Config.AppliedRevision` | src/Config.cpp:240-243 | null exactly while nothing is followed, else the applied revision |
| `ConfigObject.Config.FollowerSnapshot` | src/Config.cpp:245-248 | the snapshot of the state |
| `Advertiser.CallsKeepCounts` | src/NDIReceiver.cpp:47-70 | whatever is called, each handle ever created is live or destroyed, never both |
| `Advertiser.InstalledKeeps` | src/NDIReceiver.cpp:85-97 | the recheck under the lock installs or destroys what was created outside it |
| `Advertiser.AdvertisingSetKeeps` | src/NDIReceiver.cpp:113-123 | changing the permission or the settings keeps registration consistent |
| `Advertiser.DiscoveryReloadedKeeps` | src/NDIReceiver.cpp:436-446 | changing the address takes the old advertiser down |
| `Advertiser.RecreatedKeeps` | src/NDIReceiver.cpp:194-242 | recreating the receiver never destroys it while registered |
| `Advertiser.DestroyedKeeps` | src/NDIReceiver.cpp:281-308 | so does the end |
| `Advertiser.StepKeeps` | src/NDIReceiver.cpp:47-446 | every step of the creating thread and of all other operations keeps the invariant |
| `Advertiser.RunKeeps` | src/NDIReceiver.cpp:47-446 | the same over every interleaving |
| `Advertiser.NeverMisused` | src/NDIReceiver.cpp:47-446 | over every interleaving nothing is destroyed twice or while registered, an installed advertiser serves the current address with advertising on, and what is registered is the live pair under the current settings |
| `Advertiser.EverythingIsDestroyed` | src/NDIReceiver.cpp:281-308 | after the join and the final destruction every handle ever created has been destroyed |
| `Advertiser.ShutdownEndsThread` | src/NDIReceiver.cpp:72-103 | from wherever it is, the thread ends within one round of the stop flag, so the join returns |
| `Advertiser.MissedIff` | src/NDIReceiver.cpp:225-242 | a receiver that could be registered is left unregistered exactly by a recreation that fails and then succeeds in reconnecting, or a receiver created by connect or init under an installed advertiser |
| `Advertiser.FailedRecreationLosesRegistration` | src/NDIReceiver.cpp:225-242 | one such run |
| `Advertiser.RegisteredWhenItCanBe` | src/NDIReceiver.cpp:47-446 | as long as receivers can be created, an installed advertiser and the permission mean that the receiver is registered |
| `AdvertiserProgress.LookingThreadInstalls` | src/NDIReceiver.cpp:73-97 | a thread about to look ends its round with an advertiser for the wanted address installed and the receiver registered, if the SDK creates one, whatever harmless calls of other threads come between |
| `AdvertiserProgress.WaitingThreadInstalls` | src/NDIReceiver.cpp:72-103 | the same from where it waits: a change of address or permission, or a failed creation, never leaves the thread idle |
| `AdvertiserProgress.CreatingThreadRetries` | src/NDIReceiver.cpp:80-97 | a creation that fails or comes for an old address leaves nothing behind, and the thread waiting for its next round; any other ends with the advertiser in place |
| `AdvertiserProgress.HoldingThreadRetries` | src/NDIReceiver.cpp:85-97 | the same for a thread that holds what was created |
| `AdvertiserProgress.ExitsIff` | src/NDIReceiver.cpp:98-102 | the thread exits exactly when it wakes up after a shutdown, and only a shutdown sets the flag |
| `AdvertiserProgress.ExitsOnlyThroughShutdown` | src/NDIReceiver.cpp:72-103 | over every run without a shutdown it never exits |
| `AdvertiserProgress.AdvertisingTakesEffect` | src/NDIReceiver.cpp:113-123 | permission and settings are those asked for; without permission the advertiser is gone, with it a registered receiver is registered anew under the new settings |
| `AdvertiserProgress.DiscoveryTakesEffect` | src/NDIReceiver.cpp:436-446 | the address is the one asked for and an advertiser for another one has ended |
| `AdvertiserProgress.RecreationTakesEffect` | src/NDIReceiver.cpp:194-242 | the old receiver has ended, and a new one is there and registered where the SDK gives it |
| `AdvertiserProgress.ReceiverTakesEffect` | src/NDIReceiver.cpp:177-192 | a receiver is there exactly if one was or the SDK gives it, and starting it starts the thread once |
| `ReceiverObject.NDIReceiver.constructor` | src/NDIReceiver.h:175-208 | no handle, no thread, everything accounted for |
| `ReceiverObject.NDIReceiver.RegisterReceiver` | src/NDIReceiver.cpp:47-56 | registers exactly when all that is needed is there |
| `ReceiverObject.NDIReceiver.UnregisterReceiver` | src/NDIReceiver.cpp:58-62 | unregisters the registered pair |
| `ReceiverObject.NDIReceiver.DestroyAdvertiser` | src/NDIReceiver.cpp:64-70 | unregisters, then destroys |
| `ReceiverObject.NDIReceiver.Look` | src/NDIReceiver.cpp:75-79 | decides under the lock to create for the current server if advertising is on, one is set and none is installed, and to wait otherwise |
| `ReceiverObject.NDIReceiver.Create` | src/NDIReceiver.cpp:80-84 | the thread holds what the SDK created outside the lock |
| `ReceiverObject.NDIReceiver.Install` | src/NDIReceiver.cpp:85-97 | installs and registers what was created if it is still wanted for the current address, destroys it otherwise |
| `ReceiverObject.NDIReceiver.Wake` | src/NDIReceiver.cpp:98-102 | a waiting thread looks again, or exits if told to stop |
| `ReceiverObject.NDIReceiver.SetAdvertising` | src/NDIReceiver.cpp:113-123 | the settings are those asked for; without permission the advertiser is gone, with it a registered receiver stays registered; every handle stays accounted for |
| `ReceiverObject.NDIReceiver.ReloadDiscovery` | src/NDIReceiver.cpp:436-446 | the address is the one asked for, and an advertiser for another one is gone; every handle stays accounted for |
| `ReceiverObject.NDIReceiver.CreateRecv` | src/NDIReceiver.cpp:177-192 | keeps an existing receiver, else creates one if the SDK does |
| `ReceiverObject.NDIReceiver.RecreateRecvPreservingSource` | src/NDIReceiver.cpp:194-242 | a receiver other than the old one is there exactly if the SDK gives it; every handle stays accounted for |
| `ReceiverObject.NDIReceiver.Connect` | src/NDIReceiver.cpp:310-354 | creates the receiver for a named source, without registering it |
| `ReceiverObject.NDIReceiver.InitRecv` | src/NDIReceiver.cpp:252-268 | creates the receiver and starts the thread once |
| `ReceiverObject.NDIReceiver.DestroyAll` | src/NDIReceiver.cpp:281-308 | after the join, advertiser and receiver go in this order |
| `AutoResolution.BezoutHolds` | src/AutoResolutionPolicy.h:17 | the greatest common divisor is a combination of both numbers |
| `AutoResolution.GcdDivides` | src/AutoResolutionPolicy.h:17 | it divides both |
| `AutoResolution.MakeReduces` | src/AutoResolutionPolicy.h:15-19 | a key of positive rates holds the coprime numerator and denominator |
| `AutoResolution.KeysEqualIff` | src/AutoResolutionPolicy.h:11-24 | keys of positive rates are equal exactly if the sizes are and n d' = n' d |
| `AutoResolution.UnknownIsNeverKnown` | src/AutoResolutionPolicy.h:15-19 | an unknown rate never equals a known one |
| `AutoResolution.LockResolutionControl` | src/ResolutionControl.h:17-29 | the wait ends after at most 250 failed tries, holds the lock exactly if it reports Applied, and never does so past its deadline |
| `AutoResolution.PastDeadlineIff` | src/ResolutionControl.h:17-29 | deadlines are milliseconds against a clock in nanoseconds, and zero is none |
| `AutoResolution.TriedExactlyWhenDue` | src/AutoResolutionPolicy.h:71-89 | a frame leads to a modeset exactly if the policy is automatic and the lock free, unless its source is the one matched or failed less than a second before; success and failure are remembered |
| `AutoResolution.RetriedAfterASecond` | src/AutoResolutionPolicy.h:71-89 | after an attempt the same source is tried again exactly if it failed and a second has passed, another one at once |
| `AutoResolution.StepReflects` | src/AutoResolutionPolicy.h:34-89 | the fields always reflect the last effective event |
| `AutoResolution.RunReflects` | src/AutoResolutionPolicy.h:34-89 | over every run |
| `AutoResolution.PolicyHolds` | src/AutoResolutionPolicy.h:34-89 | over every run a matched source is not applied again before another attempt or a reset, an attempt that directly follows a failed one for the same source comes at least a second later, matched and failed are never both set, and manual hands are respected |
| `AutoResolution.NoModesetInManualHands` | src/AutoResolutionPolicy.h:34-62 | between a manual change and any later automatic modeset automatic mode was enabled again |
| `AutoResolution.AutoResolutionPolicy.constructor` | src/AutoResolutionPolicy.h:32 | starts as configured, with nothing matched |
| `AutoResolution.AutoResolutionPolicy.SetManual` | src/AutoResolutionPolicy.h:36-47 | only a change applied under the lock takes the display into manual hands, and it forgets what was matched and failed |
| `AutoResolution.AutoResolutionPolicy.EnableAuto` | src/AutoResolutionPolicy.h:50-59 | only the lock decides whether automatic mode is enabled, which starts with nothing matched |
| `AutoResolution.AutoResolutionPolicy.Reinitialize` | src/AutoResolutionPolicy.h:62-68 | a reinitialised display forgets what was matched |
| `AutoResolution.AutoResolutionPolicy.MatchSource` | src/AutoResolutionPolicy.h:71-89 | a frame leads to a modeset exactly if the policy is automatic, the lock is free, and the source is neither matched nor failed within the last second; what comes of it is remembered |
| `Channels.BeforeIsTotal` | src/main.cpp:1713 | the order of names is total and antisymmetric |
| `Channels.BeforeIff` | src/main.cpp:1713 | one name is before another if it is a beginning of it or smaller at the first difference |
| `Channels.KnownConnectors` | src/main.cpp:1697-1702 | HDMI-A-1, HDMI-A-2 and DP-1 keep channels 1, 2 and 3 |
| `Channels.UnknownConnectors` | src/main.cpp:1697-1702 | eDP-1 and DP-2 have no channel of their own, DSI-1 and LVDS-1 are no outputs |
| `Channels.SortedNamesSort` | src/main.cpp:1713 | sorting permutes the names into that order |
| `Channels.KnownPass` | src/main.cpp:1703-1708 | the first pass gives known connectors their numbers and records them as used |
| `Channels.UnknownPass` | src/main.cpp:1709-1712 | the second pass collects every other output once |
| `Channels.LowestFreeChannel` | src/main.cpp:1715-1716 | the search for a channel ends at the lowest unused one |
| `Channels.UnknownChannels` | src/main.cpp:1714-1718 | each takes the lowest channel left by the fixed ones and the names before it |
| `Channels.AssignChannels` | src/main.cpp:1688-1719 | the map built from the enumeration is an assignment as stated on the set of names alone |
| `Channels.AssignmentIsUnique` | src/main.cpp:1688-1719 | a set of names has one assignment |
| `Channels.NoChannelIsSkipped` | src/main.cpp:1714-1718 | below the channel of an unknown connector every number from one on is a known or an earlier connector's |
| `Channels.ThreeOutputs` | src/main.cpp:1688-1719 | HDMI-A-1, DP-2 and eDP-1 get channels 1, 2 and 3, and DSI-1 none |
| `Channels.OrderDoesNotMatter` | src/main.cpp:1688-1719 | every permutation of the connectors gets the same map |
| `Channels.SharedIff` | src/main.cpp:1697-1702 | two connectors share a channel exactly if both are known under the same number |
| `Channels.TenthSharesWithFirst` | src/main.cpp:1697-1702 | names are matched by their parts, so HDMI-A-10 shares channel 1 with HDMI-A-1 |

## Left out

- PixelConvert.ArmMatchesPlain: for a window of the destination's size it asks for sides below 65536 pixels; beyond, plain sampling is not the identity (`SampleIdentityIff`) while the ARM path copies.
- FollowerConfig.Converges: the finder's recreation is taken to succeed, and no request resets the revision.
- Channels.AssignChannels: takes distinct names; a name enumerated twice would be given a second channel.
- Byte counts of the delay budget are unbounded; the wrap of 64-bit sums is not modelled.
- Intervals so long that converting the delay to a C++ `int` is undefined are not excluded; the model uses the mathematical floor.
- IEEE rounding and NaN: intervals, aspect ratios, refresh rates and edge coordinates are reals.
- The text of `/proc/meminfo` is not parsed; the available bytes are a parameter. `accept_frame_timestamp` is not modelled.
- Calls on different queues interleave as whole calls; the allocator's lock inside one call is not split further.
- DMA-BUF and compressed-frame paths of the display, and with them `atomic_plane_state_` 1, are not modelled.
- How the display controller converts a native UYVY buffer; the buffer's bytes are modelled.
- Text lights pixels and never turns a lit one black again; its translucent background could, after many frames.
- `reset_flip_pending` and `set_scale_mode` take no lock. They are placed between the steps of other operations, not inside a frame being drawn.
- `show_frame_memory` without data, `set_hdmi_enabled` and the preparation of a rotation are not modelled; a rotation is the step that takes effect.
- What a splash or on-screen text looks like: their pixels are an arbitrary set.
- Flip events carry no buffer: the program's handler does not look at it either.
- Mode matching by refresh rate, and a mode change to the mode already active, which does nothing.
- The parsers of documents and of the splash file are deterministic partial functions; what they accept is not modelled.
- Numbers of different JSON kinds are different values here; the library compares 1 and 1.0 as equal, which only decides whether an unchanged finder is recreated.
- Reported faults are a set: their order is that of the request's keys in the program.
- Writing files, sockets, deadlines of a partial line, and the reply loop.
- `save_device`, which reads the configuration only.
- The receive thread, source lookup, FrameSync and tally; `classify_source_change` and `on_source_change` would only add easy members.
- `set_discovery_server` takes no lock; it is called before the advertiser thread exists, where it is a reload of the address in the model.
- Connector names are distinct, as the kernel's are; the order of their characters is that of their codes.
- Formats 0, 6, 12 and 13 of the character map, and all of the rasteriser's floating-point drawing.
