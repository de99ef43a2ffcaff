# PixelBeetle: the ledger and everything derived from it

PixelBeetle is a shared canvas of 16 colours. Every painted pixel is a two-phase transfer in a
TigerBeetle ledger: a claim takes a pixel's one spendable unit, a confirm posts it and puts the unit
back, a void or a timeout gives it back unpainted. The ledger is append-only and everything else the
system keeps is derived from it: the standing bitmap, the one-minute checkpoints in memory and in an
append-only sidecar file, the snapshot file, the claim and lock registry, and what each browser shows.
The proofs here say that these derived structures agree with the ledger, that the ledger itself keeps
one unit per pixel, and that the drawing bot's rasterizers, text format, importer and worker pool do
what they are for.

`dafny verify dfyconfig.toml` checks all of it.

## How the pieces fit

**Time travel and recovery.** The meaning of the ledger is `Canvas.CanvasBefore`: every posted claim
stamped before an instant, in ledger order, over an empty canvas. `History.Agrees` says that a cache
(bitmap, checkpoints kept and spilled, next boundary, timeline bounds, watermark) says what a ledger
says. A full replay establishes it (`History.WarmAgrees`), a snapshot boot keeps it
(`History.SnapshotBootAgrees`) and gives the very state of a full replay
(`History.SnapshotPlusDeltaIsReplay`), every delivered event keeps it
(`ChangeStream.DeliveriesAgree`), and a seek into an agreeing cache returns the fold of the ledger
(`Services.Service.FrameAt`), which shows at every cell the colour of its last claim
(`Canvas.CanvasShows`). `Timeline` says which paints the slider's bounds are the first and last of. `Recovery` follows a server through whole lives, with crashes at any
moment between saves and evictions, `LocalConfirms` one whose own confirms paint by the wall clock, and
`Sessions.BootDeliverSeek` runs the objects the whole way from either boot to the answer of a seek. The
classes `Services.Service`, `AnchorGrids.AnchorGrid`, `SidecarFiles.SidecarFile` and
`Replay.StreamConsumer` hold the fields the program holds; each method equates the new state with a
function of the old one, and the lemmas are about those functions. The two binary formats are byte
sequences with readers that refuse everything the program refuses.

**The claim protocol.** `TigerBeetle` is a small ledger with the account rule, linked chains,
resolve-once and increasing stamps. `Claims.Sound` says of each pixel account that credits posted are
debits posted plus one, that its open pendings are at most one, and that its debits count its posted
claim legs; `ClaimProtocol.RunsSound` proves it for every interleaving of provisioning, funding,
claims, confirms, voids and expiries from any number of servers and direct bots. `GameServers` is one
server over that ledger, a class whose methods are the service's methods; `Registry` interleaves the
mutex regions of many players' calls with the reaper.

**The bot.** `Shapes` proves the Bresenham and midpoint loops against closed forms, `TextArt` and
`Palette` the text format's reader and printer and the round trip, `Image` the import pipeline.
`PaintPool` and `Hub` are state machines over channel operations, atomic counters and mutex regions.

### Where the code and its comments differ

- `internal/game/game.go:215-223` says the confirm's wall clock is safe in both directions. Seeks can be
  wrong in each. With the clock ahead, a minute boundary between the ledger's stamp and the clock is
  checkpointed without a paint the ledger puts before it, and a later seek misses the paint
  (`ConfirmClock.ClockAheadHidesPaint`). With the clock in an earlier millisecond, the standing
  bitmap is given out for an instant before the paint (`ConfirmClock.ClockBehindShowsEarly`).
  `ConfirmClock.SeeksRightIff` is the exact condition for seeks, `ConfirmClock.ConfirmAgreesIff` that for
  the whole invariant, which also fixes watermark and next boundary.
- `internal/game/game.go:230-234` says that the watermark raised to the wall clock only drops events the
  cache has applied. A snapshot saved between the paints of two overlapping confirms carries a watermark
  past both and the bitmap of one; the other is lost to every later boot from a snapshot
  (`LocalConfirms.OverlapLosesPaint`, and exactly what is lost: `LocalConfirms.BootShows`).
- `internal/game/warm.go:65-85` falls back to a full replay when the snapshot is unusable, and
  `internal/game/persist.go:157-160` promises an error for it. An anchor count of 2^63 or more, one flipped
  bit away from any saved file, is a negative capacity at `internal/game/persist.go:202`: the process
  panics at every boot (`Snapshot.FlippedBitPanics`). Below 2^63 the reader accepts or refuses
  (`SnapshotFiles.LoadSnapshotFile`).
- `internal/game/game.go:107-145` means to restore a superseded claim's lock exactly, but remembers the
  cell's lock whoever holds it by then. Another player's lock put back after its own claim was refused
  stays with no claim behind it (`Registry.OrphanReached`).
- `internal/bot/paint.go:119-122` allows for a retry that is pushed after the run has finished.
  `PaintPool.ClosedMeansDone` proves that no retry exists by then unless the run is cancelled.
- The eviction loop at `internal/game/anchors.go:138-140` tests a byte total that the loop does not
  change, so an overfull pool is cut to one anchor; `Checkpoints.Excess` follows the code.
- `internal/bot/image.go:126-128` skips empty boxes; `Image.BoxNonEmpty` proves there are none.

## Model

| member | source | states |
|---|---|---|
| `Canvas.UnpackIsInverse` | internal/tbclient/tbclient.go:75-90 | an account id unpacks to (x, y) if and only if it is the id packed from (x, y) |
| `Canvas.CanvasIsPrefixFold` | internal/game/warm.go:93-124 | on an ordered ledger the canvas before an instant is the fold of exactly the transfers stamped before it; what that fold shows is `Canvas.CanvasShows` |
| `Canvas.CanvasShows` | internal/game/game.go:391-400 | for every ledger, instant and cell (x, y) of the grid, byte y*w+x of the canvas is the last post leg before the instant that debits account 2^64+x*2^32+y with a code of at least 1000, as (code-1000) mod 16 plus 1, and 0 if there is none |
| `Canvas.BitmapShows` | internal/game/warm.go:97-104 | so it is of the standing bitmap and the whole ledger |
| `Canvas.PaintsItsCell` | internal/tbclient/tbclient.go:254-266 | a transfer paints a cell if and only if it is a post leg on that cell's account with a claim code |
| `Canvas.FoldBetween` | internal/game/game.go:368-403 | folding the transfers between two instants onto the earlier canvas gives the later canvas: what a seek from a checkpoint relies on |
| `Canvas.CanvasSteps` | internal/game/warm.go:93-121 | passing one transfer applies exactly that transfer |
| `Canvas.QuietAfter` | internal/game/anchors.go:92-106 | with no posted claim from an instant on, the canvas of every later instant is the final one: why quiet stretches may be filled with the standing bitmap |
| `Canvas.LaterTransfersInvisible` | internal/game/game.go:391-400 | transfers stamped at or after an instant never show in the canvas before it |
| `Paging.FoldFrom` | internal/game/warm.go:32-53 | the callback is handed every transfer from its start on once, in order, up to the first stop; floor(k/4000)+1 queries when k transfers do not stop; with a limit it fails if and only if that many full pages pass without a stop |
| `Paging.StopsPast` | internal/game/game.go:391-395 | a callback that stops past an instant is handed exactly the transfers up to it |
| `Checkpoints.StepKeeps` | internal/game/anchors.go:110-123 | recording one boundary keeps the window spaced by a minute and within both caps, keeps the newest anchor, and appends exactly one checkpoint to evicted plus kept |
| `Checkpoints.ExcessMeetsCaps` | internal/game/anchors.go:128-145 | what eviction keeps has at most 1440 anchors and at most 192 MiB of bitmaps, unless one anchor is left |
| `Checkpoints.InsertRetains` | internal/game/anchors.go:110-145 | a new checkpoint costs the older ones only when the distinct bitmaps exceed 192 MiB, and then all of them; otherwise the window is the newest 1440, and one within both caps loses nothing |
| `Checkpoints.RunRetains` | internal/game/anchors.go:128-145 | after any run whose bitmaps total at most 192 MiB, memory holds exactly the newest 1440 checkpoints ever recorded, or all of them |
| `Checkpoints.SyncRecords` | internal/game/anchors.go:81-90 | what one event records: the standing bitmap at each minute after the newest boundary up to the event, or at the event's own minute if nothing was recorded, and nothing else |
| `Checkpoints.FillRecords` | internal/game/anchors.go:92-106 | the same up to the clock, and nothing before the first event |
| `Checkpoints.AdvanceRecords` | internal/game/anchors.go:81-106 | advancing records every boundary up to the event once, in order, a minute apart, each with the given bitmap, and changes nothing before |
| `Checkpoints.AdvanceTwice` | internal/game/anchors.go:92-106 | advancing in two stages with the same bitmap is advancing once |
| `Checkpoints.RunSpaced` | internal/game/anchors.go:81-171 | after any run of syncs and fills the evicted list followed by the one in memory is every boundary once, in order and exactly a minute apart, and what is in memory is within the caps |
| `Checkpoints.SpilledIrrelevant` | internal/game/anchors.go:128-171 | what was evicted earlier never influences what is kept |
| `AnchorGrids.AnchorGrid.SyncTo` | internal/game/anchors.go:81-90 | the deduplicated grid after an event is the checkpoint list of the specification: pool keys are exactly the hashes in the list, the byte count is the sum of the pooled lengths |
| `AnchorGrids.AnchorGrid.FillTo` | internal/game/anchors.go:98-106 | the same for filling boundaries up to the clock |
| `AnchorGrids.AnchorGrid.Insert` | internal/game/anchors.go:110-123 | a checkpoint is appended under its hash, its bitmap pooled only if new, and retention applied |
| `AnchorGrids.AnchorGrid.Evict` | internal/game/anchors.go:128-171 | all but the newest move from the window to the evicted list when the pooled bytes exceed 192 MiB, otherwise exactly those beyond the newest 1440, in order; only unreferenced bitmaps leave the pool |
| `AnchorGrids.AnchorGrid.SpillDropped` | internal/game/anchors.go:152-164 | each dropped anchor is written to the sidecar before it is forgotten, in order |
| `AnchorGrids.AnchorGrid.Prune` | internal/game/anchors.go:146-170 | the pool keeps exactly the bitmaps a surviving anchor refers to, and their byte total |
| `AnchorGrids.AnchorGrid.SidecarAt` | internal/game/anchors.go:179-189 | the evicted entry found is the newest at or before the instant; none is found only if there is none |
| `AnchorGrids.AnchorGrid.CheckpointAt` | internal/game/anchors.go:195-212 | the anchor found is the newest in memory at or before the instant, with its own bitmap; none only if all are later |
| `AnchorGrids.AnchorGrid.Restore` | internal/game/persist.go:239-258 | a grid rebuilt from a loaded list and pool stands for the window that was saved |
| `AnchorGrids.AnchorGrid.AdoptScan` | internal/game/persist.go:398-442 | adopting a scan makes every record ever written the evicted part of the timeline |
| `AnchorGrids.PoolSmall` | internal/game/anchors.go:56-63 | deduplication: never more bitmaps than anchors |
| `Sidecar.AppendLogs` | internal/game/persist.go:309-359 | appending a record, full or reusing a stored bitmap, logs one more checkpoint and disturbs none |
| `Sidecar.WriteKeeps` | internal/game/persist.go:309-359 | the returned reference reads back the written bitmap byte for byte, through reuse records, and the file scans to one more entry |
| `Sidecar.ScanResumes` | internal/game/persist.go:398-442 | scanning a grown file is resuming the scan of the old one where it ended |
| `Sidecar.ScanReads` | internal/game/persist.go:398-442 | scanning any bytes reads record after record from byte 0, each an 8-byte boundary, an 8-byte hash, a 4-byte length and that many bytes, at most 192 MiB, or none if an earlier entry has the hash, whose last bitmap it then refers to; it stops where no such record can be read |
| `Sidecar.ScanOfCut` | internal/game/persist.go:398-442 | for any file and any byte cut, the scan finds exactly the records that end within the cut |
| `Sidecar.CutRecovers` | internal/game/persist.go:398-442 | after any run of writes, from any prefix of the file, the scan rebuilds exactly the references of the records wholly inside and each still reads back its bitmap |
| `Sidecar.CutAtRecord` | internal/game/persist.go:398-442 | a file cut at the end of any record is a complete file again, of the records before the cut, ready for more |
| `Sidecar.CutHoldsRecords` | internal/game/persist.go:398-442 | every byte cut has such an end at or before it, no whole record past it, and scans to the same references as the file up to that end |
| `SidecarFiles.SidecarFile.WriteAnchorBlob` | internal/game/persist.go:309-359 | one record is appended, its reference is what a scan finds, its bitmap is stored only if not stored before |
| `SidecarFiles.SidecarFile.ReadAnchorBlob` | internal/game/persist.go:364-391 | a reference reads if and only if it names 1 to 192 Mi bytes within the file that have its hash, and then gives those bytes; the scan's i-th reference gives back the bitmap the i-th record was written for, and no reference another bitmap of the run than the one its hash names |
| `SidecarFiles.SidecarFile.ScanAnchorSidecar` | internal/game/persist.go:398-442 | the loop rebuilds the scan's entries and its index of stored bitmaps from the bytes alone |
| `SidecarFiles.SidecarFile.ResetAnchorSidecar` | internal/game/persist.go:446-466 | an empty file that remembers nothing |
| `Bytes.LittleEndianRoundTrip` | internal/game/persist.go:110-137 | a word written in n little-endian bytes reads back, for every n |
| `Bytes.GetPut` | internal/game/persist.go:110-137 | every four or eight bytes are the encoding of the word they read as |
| `Bytes.WordLayout` | internal/game/persist.go:110-137 | the lowest byte comes first |
| `Snapshot.LoadOfSaved` | internal/game/persist.go:59-259 | loading what was saved returns the bitmap, watermark, bounds, anchors, pool, byte total and the boundary a minute past the newest anchor, whatever order the pool map was written in |
| `Snapshot.AcceptsExactlySaved` | internal/game/persist.go:160-259 | a file loads if and only if it is the encoding, for this very grid, of a state whose anchors all refer to bitmaps it lists: magic, grid, lengths, references and end of file at once |
| `Snapshot.OtherGridRefused` | internal/game/persist.go:171-181 | a snapshot of one grid is refused by a server of any other |
| `Snapshot.FileLayout` | internal/game/persist.go:23-45 | where an accepted file keeps its magic, watermark, grid, bounds, bitmap and anchors, byte by byte |
| `Snapshot.NextIsMinute` | internal/game/persist.go:244-254 | whatever was loaded, the next boundary is the first full minute past the newest anchor, or past the watermark when there is none |
| `Snapshot.AcceptedFilesPrefixFree` | internal/game/persist.go:160-259 | no accepted file is a strict prefix or a proper extension of another |
| `Snapshot.PanicsForRefusing` | internal/game/persist.go:198-202 | every file the reader panics on is one it should have refused |
| `Snapshot.SavedNeverPanics` | internal/game/persist.go:127-131 | no saved file is one the reader panics on |
| `Snapshot.FlippedBitPanics` | internal/game/persist.go:198-202 | one flipped bit of any saved file, the top one of the anchor count, makes it one |
| `Snapshot.BytesOfListed` | internal/game/persist.go:218-234 | the byte total counted while loading is the total of the pooled bitmaps |
| `SnapshotFiles.WriteSnapshot` | internal/game/persist.go:59-155 | the streamed file is the encoding of the state with the pool in some order of its keys |
| `SnapshotFiles.LoadSnapshotFile` | internal/game/persist.go:160-259 | the cursor loop accepts a file if and only if it is the encoding for this grid of a state with fewer than 2^63 anchors, all of them pooled; it panics exactly on a file in order up to an anchor count of 2^63 or more, and refuses the rest |
| `SnapshotFiles.LoadPool` | internal/game/persist.go:214-234 | the pool section: every entry within the file, keyed by its hash, its bytes counted |
| `History.FoldOneAgrees` | internal/game/warm.go:93-121 | one more transfer keeps bitmap, checkpoints, bounds and watermark agreeing with the ledger |
| `History.WarmAgrees` | internal/game/warm.go:77-145 | a full replay agrees with the ledger it replayed, whatever the clock says |
| `History.AboveWatermarkIsNoOp` | internal/game/warm.go:157-184 | a transfer already seen but stamped above the watermark changes no pixel |
| `History.RefoldAgrees` | internal/game/warm.go:157-184 | folding such a transfer again keeps the whole cache agreeing |
| `History.SnapshotBootAgrees` | internal/game/warm.go:149-200 | a boot from a snapshot of any agreeing cache agrees with the whole ledger whatever agreeing checkpoints the sidecar holds, more or fewer than the saving run had spilled, as long as none lies past the boundary the boot reaches |
| `History.BootReaches` | internal/game/warm.go:157-195 | a boot reaches every boundary that the snapshot, an event after its watermark or the clock had reached |
| `History.WarmSpaced` | internal/game/warm.go:77-145 | a replayed timeline, evicted and kept, has every boundary from first to last once, in order, a minute apart |
| `History.SnapshotPlusDeltaIsReplay` | internal/game/warm.go:65-200 | warming on a prefix, saving, loading and folding the rest gives the bitmap, window, next boundary, bounds, watermark and all checkpoints of one full replay |
| `History.FillThenFoldAll` | internal/game/anchors.go:92-106 | boundaries filled in ahead of a transfer are the ones it would have recorded |
| `History.StandingFrame` | internal/game/game.go:352-362 | at or after the newest paint the standing bitmap is the frame |
| `History.CheckpointFrame` | internal/game/game.go:368-388 | any recorded checkpoint, in memory or spilled, is the ledger's canvas at its boundary |
| `Services.Service.FullReplay` | internal/game/warm.go:77-145 | the replay loop leaves the state of the specification, whose timeline bounds are the ledger's first and last paint, and the sidecar holds exactly what it evicted |
| `Services.Service.WarmFromSnapshot` | internal/game/warm.go:149-200 | boots to the state of snapshot plus delta exactly when the file loads, with every record of the sidecar as the evicted part; a refused file changes nothing; a file the reader panics on ends the process |
| `Services.Service.WarmCache` | internal/game/warm.go:65-145 | either boot ends in the specified state, snapshot plus delta when the file loads, full replay otherwise, with the sidecar holding exactly what the cache has spilled; `Sessions.Boot` says it agrees with the ledger |
| `Services.Service.SaveSnapshot` | internal/game/persist.go:59-155 | nothing before warm-up; afterwards a file the reader never panics on, that loads back as the state itself |
| `Services.Service.NotePaint` | internal/game/game.go:328-335 | the first paint sets both bounds; a later one widens them just as far as its instant, and never narrows them; that the bounds are the ledger's is `Timeline.ReplayBounds` |
| `Services.Service.FoldFrame` | internal/game/game.go:391-403 | from any checkpoint's canvas: the fold of all claims up to the end of the millisecond, or too broad exactly when 50 full pages of 4000 transfers lie between |
| `Services.Service.FrameAt` | internal/game/game.go:352-404 | a seek before the newest paint starts at the newest checkpoint not after it, in RAM before the sidecar, or at the beginning when there is none; it reports too broad exactly when 50*4000 transfers lie from there to the end of the millisecond; otherwise the frame is the fold of all posted claims up to tsMs*1000000+999999 over an empty canvas, each cell y*w+x showing the colour of its last such claim; later seeks get the standing bitmap, which is that fold |
| `Services.Service.ApplyEvent` | internal/game/game.go:410-445 | the state and the decision to broadcast are those of the specified event step |
| `Services.Service.SyncMirrored` | internal/game/anchors.go:81-90 | whatever advancing the grid evicts, the sidecar goes on holding exactly what the cache has spilled |
| `Services.Service.PaintConfirmed` | internal/game/game.go:224-237 | a local confirm checkpoints, paints, widens the bounds and raises the watermark to the wall clock, never lowering it |
| `ConfirmClock.ConfirmAgreesIff` | internal/game/game.go:212-237 | for every wall clock, ahead of the ledger's stamp or behind it, the whole invariant, the agreement later events and boots rely on, holds after a confirm exactly when the next boundary lies past the stamp and, unless the paint changes nothing, no minute boundary lies between stamp and clock and watermark and paint bound reach the stamp |
| `ConfirmClock.ClockAheadAgreesIff` | internal/game/game.go:212-237 | with the clock at or past the stamp the invariant holds exactly when no minute boundary lies between, or the paint changes nothing |
| `ConfirmClock.ClockBehindAgreesIff` | internal/game/game.go:212-237 | with the clock behind the stamp and a visible paint the invariant holds exactly when next boundary and watermark were past the stamp already and the paint bound, once raised to the clock, reaches it |
| `ConfirmClock.SeeksRightIff` | internal/game/game.go:215-237 | for every wall clock, every seek is right after a confirm, its checkpoints and the standing bitmap the ledger's, exactly when the paint changes nothing, or no minute boundary lies between stamp and clock and the paint bound, once raised to the clock, reaches the stamp's millisecond |
| `ConfirmClock.ClockBehindShowsEarly` | internal/game/game.go:215-237 | a clock a millisecond behind: the frame given out for the millisecond before the paint's stamp already shows the paint |
| `ConfirmClock.ClockAheadHidesPaint` | internal/game/game.go:215-237 | a clock a millisecond ahead over a minute boundary: after one more paint, a seek between the two starts at that boundary's checkpoint, folds nothing, and misses the first paint |
| `ChangeStream.DecodersAgree` | internal/replay/parse.go:95-126 | the event decoder and the ledger reader see the same paint of a post leg exactly when it is a claim leg or falls outside the grid |
| `ChangeStream.PostingDecodes` | internal/replay/parse.go:95-126 | a post leg's event names the cell whose account 2^64+x*2^32+y it debits, or (0, 0) if it debits no pixel, and the colour code-1000 mod 256, or 0 below 1000 |
| `ChangeStream.PostingAgrees` | internal/game/game.go:410-445 | the next posted claim is painted, keeps the cache agreeing, and is broadcast exactly when it changes the canvas; watermark and bounds move to its stamp if it does and stay where they are if it does not |
| `ChangeStream.RedeliveryIsNoOp` | internal/game/game.go:410-445 | a redelivered posting leaves bitmap, checkpoints, bounds and watermark as they are and is not broadcast |
| `ChangeStream.DeliverAgrees` | internal/replay/replay.go:157-171 | one delivery, new or again, with or without the connection's memory, keeps the agreement; again changes nothing |
| `ChangeStream.DeliveriesAgree` | internal/replay/replay.go:99-171 | after every delivery sequence of next events and redeliveries, with reconnects anywhere, the bitmap is the fold of the ledger as far as delivered |
| `Recovery.ReplayedConsumerAgrees` | internal/game/warm.go:77-145 | a freshly replayed server's cache agrees with the ledger, and its watermark and boundaries admit exactly the rest of it |
| `Recovery.ResumedConsumerAgrees` | internal/game/warm.go:149-200 | so do those of a server booted from a snapshot beside whatever part of a sidecar a crash left |
| `Recovery.SidecarUsable` | cmd/server/main.go:127-160 | at any moment of a running server's life, with evictions going on since the snapshot was saved, any prefix of what its sidecar holds agrees with any longer ledger and lies before the boundary the next boot reaches |
| `Recovery.StepKeeps` | cmd/server/main.go:82-160 | a delivery, a save, a crash with a boot of either kind: each keeps cache, snapshot file and sidecar agreeing with the ledger |
| `Recovery.EveryLifeAgrees` | cmd/server/main.go:82-160 | after any number of deliveries, saves, crashes and boots in any order the cache agrees with what it has taken in of the ledger |
| `Timeline.ReplayBounds` | internal/game/warm.go:93-121 | after a full replay the lower bound is the least millisecond, and the upper the greatest, of the transfers that paint a cell of the grid; both are 0 when none does. A paint of millisecond 0 leaves no lower bound, 0 being the value for none |
| `Timeline.SnapshotPlusDeltaBounds` | internal/game/warm.go:149-200 | so they are after a boot from a snapshot of any earlier replay, unless that was of nothing and the first transfer is stamped 0, which no boot then reads |
| `Timeline.ResumeBounds` | internal/game/warm.go:157-184 | a boot from any snapshot adds to what its bounds had taken in exactly the paints past its watermark |
| `Timeline.DeliveriesBounds` | internal/game/game.go:410-445 | deliveries add exactly the delivered transfers that changed the canvas |
| `Timeline.EveryLifeBounded` | cmd/server/main.go:82-160 | through any number of deliveries, saves, crashes and boots the bounds are those of some set of paints that holds every one that changed the canvas |
| `Timeline.BoundedEnds` | internal/game/game.go:337-344 | so the lower bound is always the ledger's first paint, and the upper a paint not before the last that changed the canvas |
| `LocalConfirms.StepKeeps` | internal/game/game.go:197-246 | with a server's own confirms painting by the wall clock, deliveries, saves and boots, the bitmap is at every step that of exactly the transfers said to be taken, in ledger order |
| `LocalConfirms.BootShows` | internal/game/warm.go:157-184 | a boot from a snapshot shows exactly the ledger without the paints stamped at or below its watermark that the saved bitmap did not show |
| `LocalConfirms.BootRightIff` | internal/game/warm.go:157-184 | the canvas after such a boot is the ledger's if and only if, at every cell, the last posted claim is not lost or the last one carried shows the same colour |
| `LocalConfirms.LostForGood` | internal/game/game.go:230-237 | a lost paint returns by no redelivery, no later save and no later boot from a snapshot |
| `LocalConfirms.OverlapLosesPaint` | internal/game/game.go:224-237 | two overlapping confirms with a snapshot saved between their paints: the next boot never shows the first |
| `Sessions.Boot` | internal/game/warm.go:65-200 | either boot, from any disk an earlier life may have left, ends in a server that agrees with the ledger, in the state `Recovery` follows |
| `Sessions.TakeDelivery` | internal/replay/replay.go:99-171 | the consumer and the server take one delivery as the specified consumer does |
| `Sessions.CrashLeavesRecords` | internal/game/persist.go:398-442 | whatever byte a crash cuts the sidecar at, what it leaves holds the complete file of some first records and no whole record past it |
| `Sessions.CrashLeavesDisk` | cmd/server/main.go:127-160 | a server whose sidecar survives up to any record leaves a disk its successor may boot from |
| `Sessions.BootDeliverSeek` | internal/game/game.go:346-445 | boot by replay or from a snapshot, take in any deliveries of the rest of the ledger, seek to an instant caught up to: the answer is the fold of all posted claims up to the millisecond over an empty canvas, or too broad exactly when fifty full pages lie past the newest checkpoint not after it, or past the beginning when there is none |
| `Replay.StreamConsumer.ProcessBody` | internal/replay/replay.go:157-171 | a bad message or one this connection has seen changes nothing; any other is remembered and handed on, and broadcast as the server decides |
| `TigerBeetle.CreatePlainEffect` | docs/tigerbeetle-cheatsheet.md:31-38 | a plain or pending transfer is created if and only if its accounts exist, differ, and the account rule allows its amount, and is refused without effect otherwise; created, it moves its amount and is stamped later than all before |
| `TigerBeetle.ResolveEffect` | docs/tigerbeetle-cheatsheet.md:53-64 | a post or void is taken if and only if its pending is open, releases it, posts it if it is a post, and closes it for good |
| `TigerBeetle.ExpireEffect` | docs/tigerbeetle-cheatsheet.md:59-65 | expiry changes the ledger if and only if the pending is open: it then frees the reservation, and never writes a transfer |
| `Claims.ClaimKeeps` | internal/tbclient/tbclient.go:228-248 | a claim that is created holds its pixel, a refused one leaves the ledger as it was, and both keep it sound |
| `Claims.LegKeeps` | internal/tbclient/tbclient.go:270-304 | a post or void leg is taken only for an open claim; a post leaves its pixel owed one unit, a void gives it back |
| `Claims.ExpireKeeps` | docs/tigerbeetle-cheatsheet.md:85 | expiry gives the unit back |
| `Claims.UnitKeeps` | internal/tbclient/tbclient.go:194-212 | a unit is taken in only as a pixel's one funding or as the refund a posted claim owes it |
| `Claims.FundOfInjective` | internal/tbclient/tbclient.go:194-199 | no two pixels share a funding transfer id |
| `ClaimProtocol.ConfirmChain` | internal/tbclient/tbclient.go:292-304 | a confirm is both legs or neither, and reports which leg broke it |
| `ClaimProtocol.FundKeeps` | internal/tbclient/tbclient.go:194-218 | funding a funded pixel again is `exists` and changes nothing; otherwise it succeeds if and only if both accounts exist |
| `ClaimProtocol.ConfirmKeeps` | internal/tbclient/tbclient.go:292-304 | a confirm that names its claim's pixel succeeds if and only if the claim is open, and keeps the ledger sound |
| `ClaimProtocol.DoKeeps` | docs/tigerbeetle-cheatsheet.md:67-85 | every legitimate action, taken or refused, keeps the ledger sound |
| `ClaimProtocol.RunsSound` | docs/tigerbeetle-cheatsheet.md:67-89 | from an empty ledger, every interleaving of every client's actions leaves a sound ledger |
| `ClaimProtocol.UnitConserved` | docs/tigerbeetle-cheatsheet.md:71-83 | a funded pixel has credits posted = debits posted + 1, at most one unresolved claim, and debits posted equal to its posted claim legs |
| `ClaimProtocol.ClaimWinsIff` | docs/tigerbeetle-cheatsheet.md:75-78 | a fresh claim wins if and only if its pixel is funded and nobody holds it |
| `ClaimProtocol.ForeignConfirmBreaks` | internal/tbclient/tbclient.go:289-304 | a confirm of an open claim keeps the ledger sound if and only if it names the claim's own pixel |
| `ClaimProtocol.SoundIsCanvasLedger` | internal/tbclient/tbclient.go:250-266 | every reachable ledger is ordered, has unique ids, and posts nothing but claim legs: what the change stream proofs rely on |
| `Clients.Client.SubmitBatch` | internal/tbclient/tbclient.go:314-333 | the first failing status decides the error, and expiry is told apart |
| `Clients.Client.CreateAccounts` | internal/tbclient/tbclient.go:101-130 | existing accounts are kept, missing ones created, the pool on request |
| `Clients.Client.EnsureAllPixels` | internal/tbclient/tbclient.go:138-177 | every cell of the grid ends up with an account and exactly one unit; run again, nothing changes |
| `Clients.Client.FundAll` | internal/tbclient/tbclient.go:160-177 | the batched funding loop reaches every cell and funds none twice, in requests the ledger's limit of 8190 always fits |
| `Clients.FundBatch` | internal/tbclient/tbclient.go:179-190 | a funding batch is its transfers one by one, each created or existing |
| `Clients.FundCellsKeeps` | internal/tbclient/tbclient.go:179-218 | funding any list of cells leaves each with one unit, and is a no-op where all had one |
| `Clients.CellsCover` | internal/tbclient/tbclient.go:143-176 | the row-major loop reaches every cell |
| `Registry.RefusedClaimRestores` | internal/game/game.go:107-149 | a claim the ledger refuses leaves claims and index as they were, makes up no lock, and leaves every unexpired lock as it was if and only if the cell holds no unexpired lock of the player's without a claim |
| `Registry.BackedClaimRestores` | internal/game/game.go:107-149 | where every lock is backed by its player's claim, as on a server whose calls do not overlap, the locks come back whole but for an expired lock of another player on the cell |
| `Registry.BeginTakes` | internal/game/game.go:115-128 | a registered claim replaces the player's earlier one and its lock, locks its cell for the player until the given instant, and leaves everyone else's claims and locks as they were, but for one on that cell |
| `Registry.OrphanReached` | internal/game/game.go:107-149 | a run with one call in flight per player that leaves an unexpired lock with no claim, which its player's next refused claim deletes |
| `Registry.InterleavingsPaired` | internal/game/game.go:94-194 | with one call in flight per player, claims and index are mutual inverses at every step of every interleaving with other players and the reaper |
| `Registry.StepKeeps` | internal/game/game.go:94-276 | each mutex region keeps the pairing |
| `Registry.OverlapUnpairs` | internal/game/game.go:107-149 | for every consistent table and every two overlapping claims of one player whose first is refused, registry and index are no longer inverse |
| `Registry.ReapOneMore` | internal/game/game.go:450-479 | reaping lock by lock, in any order, removes exactly what the reaped locks stand for |
| `GameServers.GameServer.EnsurePixel` | internal/game/game.go:515-534 | a touched pixel has its account and its unit, whatever was there before; no claim and no painted pixel is affected |
| `GameServers.GameServer.Claim` | internal/game/game.go:94-179 | out of bounds is refused untouched, as is a cell another player's lock holds past now; otherwise the claim wins if and only if no one holds the pixel in the ledger: it is then registered, its cell locked for 3 s, the player's earlier claim and lock gone and voided, all else as before; a refused one is undone |
| `GameServers.GameServer.VoidSuperseded` | internal/game/game.go:159-175 | after the void the superseded claim is not open, and the new claim still holds its pixel |
| `GameServers.GameServer.Confirm` | internal/game/game.go:197-246 | resolves if and only if the player owns a claim the ledger still holds open, and then the pixel shows its colour and the claim is gone; otherwise neither server nor ledger changes |
| `GameServers.GameServer.Cancel` | internal/game/game.go:249-264 | resolves if and only if owned and not timed out; the claim is then neither registered nor open; otherwise nothing changes |
| `GameServers.GameServer.ReapExpired` | internal/game/game.go:450-479 | exactly the expired locks and the claims they stand for are dropped |
| `GameServers.GameServer.LedgerTimesOut` | docs/tigerbeetle-cheatsheet.md:59-65 | a timeout in the ledger leaves the server's bitmap and registry true |
| `GameServers.GameServer.VacateClaim` | internal/game/game.go:182-194 | exactly the claim goes, with its own index entry and its player's lock of the cell; every other claim, entry and lock stays; registry and index stay inverse |
| `GameServers.ClaimEffect` | internal/game/game.go:130-156 | the submit wins if and only if the pixel is free, and never repaints anything |
| `GameServers.ConfirmOutcome` | internal/game/game.go:197-213 | a registered claim's confirm succeeds if and only if it is open, paints its own pixel in the ledger's fold, and reports expiry as such |
| `GameServers.ConfirmPaints` | internal/game/game.go:224-237 | the two legs change the fold of the ledger exactly as the server changes its bitmap |
| `GameServers.ClampAgreesIff` | internal/tbclient/tbclient.go:228-248 | the server's colour and the ledger's clamped one paint alike exactly for palette colours and those that wrap onto the last |
| `Shapes.LinePoints` | internal/bot/shapes.go:207-234 | the loop ends on the exact far endpoint with max(abs dx, abs dy)+1 points, the k-th of which is the closed form |
| `Shapes.LineWithinHalf` | internal/bot/shapes.go:207-234 | every point takes k steps on the longer axis and is within half a pixel of the true line |
| `Shapes.LineTie` | internal/bot/shapes.go:219-233 | where the true line passes midway between two pixels the one farther from the start is painted |
| `Shapes.TrackSteps` | internal/bot/shapes.go:219-233 | one turn of the loop keeps the error term equal to the cross error of the steps taken |
| `Shapes.ErrorSteps` | internal/bot/shapes.go:219-233 | the longer axis always advances, the shorter one exactly when that keeps twice the cross error within the longer side |
| `Shapes.CirclePoints` | internal/bot/shapes.go:156-175 | the outline is exactly the eight-fold reflection of the nearest pixels, in scanline order without duplicates, rows above the origin clipped |
| `Shapes.RingIsNearest` | internal/bot/shapes.go:152-156 | a pixel, m out along its longer axis and n along the other, is on the outline if and only if the circle crosses that row within half a pixel of it: (2m-1)^2 < 4(r^2-n^2) < (2m+1)^2 |
| `Shapes.CircleStep` | internal/bot/shapes.go:160-173 | err stays x^2+y^2-r^2+2y+1-x and every point stays within -x..x-1 of the circle |
| `Shapes.NearestUnique` | internal/bot/shapes.go:152-156 | a row of the octant has at most one such pixel |
| `Shapes.NothingBeyond` | internal/bot/shapes.go:160-173 | when the walk leaves the octant no nearest pixel is missed |
| `Shapes.SetToScanline` | internal/bot/shapes.go:178-203 | every point of the set on or below the origin's row once, top row first, left to right |
| `Palette.NearestColor` | internal/bot/palette.go:63-73 | the first palette entry at the least distance, 2, 4 and 3 times the squared differences of red, green and blue |
| `Palette.NearestOnlyOne` | internal/bot/palette.go:59-73 | there is only one such index |
| `Palette.PaletteFixed` | internal/bot/palette.go:10-27 | every palette colour quantizes to itself |
| `Palette.HexRoundTrip` | internal/bot/palette.go:31-57 | a colour printed as hex parses back |
| `Palette.HexReads` | internal/bot/palette.go:31-57 | exactly # and two digits of either case for each channel, high digit first, read as a colour, in the order red, green, blue |
| `Palette.PaletteColorRoundTrip` | internal/bot/palette.go:77-83 | what the legend prints for an index resolves to that index |
| `Palette.ParseHexDigits` | internal/bot/palette.go:31-45 | the loop accepts exactly seven characters of # and six digits of either case, and gives their bytes |
| `TextArt.ParseTextArt` | internal/bot/blueprint.go:41-82 | success: every rune known, one placement for each inked rune with its legend colour, scanline order, the widest row and the row count; failure: the first bad legend token or the first unknown rune with its line and column |
| `TextArt.ParsedOnlyOne` | internal/bot/blueprint.go:41-82 | those conditions leave one result for every text |
| `TextArt.SheetIsText` | internal/bot/blueprint.go:43-56 | a text is the lines of its sheet, each ended by a newline that may be missing at the very end; the first is a legend if and only if the text starts with legend: |
| `TextArt.FinalNewline` | internal/bot/blueprint.go:43-46 | a final newline makes no difference |
| `TextArt.CarriageReturnsIgnored` | internal/bot/blueprint.go:59 | a drawing saved with carriage returns, legend line included, reads as the same drawing or fails with the same error |
| `TextArt.FieldsSplit` | internal/bot/blueprint.go:91-92 | any white space separates: the fields around it are those before it and those after it |
| `TextArt.FieldsOfSolid` | internal/bot/blueprint.go:91-92 | a text without white space is one field |
| `TextArt.TokenReads` | internal/bot/blueprint.go:93-105 | exactly c=#rrggbb reads as an entry, c one ASCII character that is not '=', '.' or a blank |
| `TextArt.TokensInOrder` | internal/bot/blueprint.go:92-107 | the first bad token decides, and each later entry is added to or replaces the earlier ones |
| `TextArt.ParseLegend` | internal/bot/blueprint.go:90-108 | tokens in order, the later entry wins, the first bad one is the error |
| `TextArt.PrintedReadsBack` | internal/bot/blueprint.go:145-196 | for every drawing and every lettering of its colours, reading the printed text succeeds and gives the same height, the same width unless there are no rows, and the same last-wins cells of the box in strict scanline order |
| `TextArt.FormatTextArt` | internal/bot/blueprint.go:151-196 | prints with letters by falling usage, ties by index, '.' for uncovered cells, and the result reads back as drawn |
| `TextArt.PrintedExample` | internal/bot/blueprint.go:178-194 | three dark cells of a two by two box print as one legend line and the rows aa and .a |
| `TextArt.CountUsage` | internal/bot/blueprint.go:156-159 | in whatever order the cell map is walked, each colour's count is the number of cells showing it |
| `TextArt.LinesOfRows` | internal/bot/blueprint.go:185-194 | the printed rows split back into themselves |
| `TextArt.FieldsOfEntries` | internal/bot/blueprint.go:178-183 | the printed legend splits back into its tokens |
| `TextArt.CellsOfScanline` | internal/bot/blueprint.go:16-20 | in scanline order placements and cells say the same |
| `TextArt.Compose` | internal/bot/blueprint.go:113-143 | the last placement at a cell wins across both layers, the box grows right and down just as far as needed, cells left of or above the origin are dropped, order is scanline |
| `Image.FitScale` | internal/bot/image.go:75-93 | fits the box, never upscales, never vanishes; one side binds and the other is the exact aspect rounded down, at least 1 |
| `Image.BoxNonEmpty` | internal/bot/image.go:110-114 | every destination pixel's source range holds a pixel, the first starts at 0 and the last ends at the size |
| `Image.InOneBox` | internal/bot/image.go:110-114 | every source pixel lies in exactly one box |
| `Image.BoxesConserve` | internal/bot/image.go:110-125 | the boxes' channel sums add up to the whole image's |
| `Image.SinglePixel` | internal/bot/image.go:114-125 | the sums of one pixel are its own red, green, blue and alpha, each divided by 256; with the splitting of boxes this fixes every sum |
| `Image.AverageIsMean` | internal/bot/image.go:120-124 | the average of destination pixel (x, y) is the mean of the box from x*w/dw to (x+1)*w/dw and y*h/dh to (y+1)*h/dh, rounded down |
| `Image.NativeAverage` | internal/bot/image.go:107-124 | an image that needs no shrinking keeps every channel of every pixel |
| `Image.SolidImports` | internal/bot/image.go:102-139 | an image of one opaque colour imports, at every cell, as the palette colour nearest to it |
| `Image.AverageBelowAlpha` | internal/bot/image.go:129-130 | averages of premultiplied pixels are premultiplied |
| `Image.BlendIsComposite` | internal/bot/image.go:147-154 | for channels not above alpha the byte never wraps and is the exact composite over the empty canvas, rounded to the nearest |
| `Image.ImportComposites` | internal/bot/image.go:129-135 | so every channel an imported pixel is quantized from is the composite of its box |
| `Image.SumBox` | internal/bot/image.go:114-125 | the accumulator loops give the box sums and the pixel count |
| `Image.ImageToBlueprint` | internal/bot/image.go:102-139 | one placement for each destination pixel of average alpha at least 26, with its quantized composite colour, in scanline order; nothing only for an empty image; an image of one opaque colour c fills its box with the palette colour nearest to c |
| `PaintPool.StepWeight` | internal/bot/paint.go:132-195 | how each operation changes any weighing of the places a placement can be in: the one law the pool's invariants follow from |
| `PaintPool.StepKeeps` | internal/bot/paint.go:132-195 | each placement is in exactly one place or finished once, `remaining` counts those not finished and equals total - painted - given up once painted ones are decremented; claims made, claims still possible and claims not needed are four for each placement; a placement is given up only at its fourth failure |
| `PaintPool.RoomInQueue` | internal/bot/paint.go:116-130 | queue and waiting retries never exceed `remaining`, so a push never blocks and the buffer never overflows |
| `PaintPool.ClosedMeansDone` | internal/bot/paint.go:119-123 | once doneCh is closed nothing is queued, held or backing off, and it was closed once |
| `PaintPool.NeverStuck` | internal/bot/paint.go:144-193 | while a worker has not stopped some operation is possible |
| `PaintPool.StoppedMeansEnded` | internal/bot/paint.go:197-223 | when the workers have stopped every placement was finished exactly once: given up, after exactly four claims, or painted, after one claim more than it had failed, at most four |
| `PaintPool.EveryScheduleEnds` | internal/bot/paint.go:68-224 | every uncancelled schedule is finite, of at most 32*total + workers operations, and one that cannot go on has finished every placement |
| `Hub.StepKeeps` | internal/hub/hub.go:73-210 | every step keeps each subscriber on its way to the server's bitmap outside the cells whose newest paint it dropped |
| `Hub.AnnounceExact` | internal/hub/hub.go:191-198 | copying the subscriber set moves a waiting paint into every registered client's future without changing it, and sends nothing to any other |
| `Hub.SendExact` | internal/hub/hub.go:199-206 | queueing a paint, or dropping it because the channel is full of any kind of event, changes a client's future only at a cell it drops the newest paint of |
| `Hub.ConnectExact` | internal/hub/hub.go:73-80 | a client registered now is on its way to the bitmap, though paints are still being broadcast past it |
| `Hub.GoneGetsNoMore` | internal/hub/hub.go:82-98 | a client that has disconnected stays so, and nothing more sets out for it |
| `Hub.FlushExact` | internal/web/static/app.js:372-376 | flushing the deltas in order changes nothing about where a page ends up |
| `Hub.DrainedPageIsBitmap` | internal/hub/hub.go:100-166 | after any run, whenever paints are dropped, a drained subscriber's page is the server's bitmap on every cell whose newest paint it did not drop, and all of it if it dropped none |
| `Hub.DeltasAreFold` | internal/hub/hub.go:139-146 | applying the wire deltas of a ledger's posted claims in order gives the ledger's canvas |
| `Hub.DrainedPageShowsLedger` | internal/hub/hub.go:100-166 | when the server has taken in a ledger's posted claims, a drained subscriber's page shows, at every cell whose newest paint it did not drop, the colour of the cell's last claim |
| `Hub.SwapIsHarmlessIff` | internal/hub/hub.go:168-172 | two paints may be broadcast out of order exactly when they are for different cells or the same colour |
| `Hub.DrainedCellIff` | internal/hub/hub.go:100-210 | with nothing dropped but broadcasts starting and arriving in any order, a drained page shows the server's byte at a cell if and only if no delta for it was received since the snapshot or the last one received carries that byte |

## Left out

Hypotheses, stated as preconditions where they are needed:

- Hashes: bitmaps are keyed by an abstract 64-bit hash under which no two bitmaps of a run collide and none is 0, the value that means no previous record (internal/game/anchors.go:67-74, internal/game/persist.go:337).
- Clocks: stamps and clocks are below 2^63 nanoseconds; an event is not older than the newest boundary already filled in, for `History.FoldOneAgrees`, `History.SnapshotBootAgrees` and `ChangeStream.PostingAgrees`; `Recovery` and `Sessions` ask only that the last full minute of each boot's clock is not after a later transfer, and that boot clocks do not run backwards.
- Calls: one call in flight per player (`Registry.OverlapUnpairs` shows why); transfer ids are fresh UUIDs, modelled as identifiers not in the ledger and not of a funding transfer.
- Confirms: each names its claim's own pixel (`ClaimProtocol.ForeignConfirmBreaks` shows why); the server always does.
- Canvas: at least one cell and at most 192 MiB of them, so that one bitmap fits the pool.

Contracts narrower than the code:

- GameServers.GameServer.Claim: colours are at most 15, as internal/web/server.go:224 checks; `GameServers.ClampAgreesIff` says what happens beyond. A re-claim of a cell while its own pending is live is refused and undone, as in the code.
- Services.Service.PaintConfirmed: says what the confirm does to the cache by the wall clock; that the history then agrees has the exact condition of `ConfirmClock.ConfirmAgreesIff`.
- Services.Service.SaveSnapshot: the loaded state is the saved one when there is an anchor; the empty fallback at internal/game/persist.go:253 does not reproduce a fresh grid.
- Services.Service.FrameAt: the cache must be caught up to the requested instant, which is not negative, and sidecar reads do not fail.
- Recovery.EveryLifeAgrees: a snapshot is saved once the grid holds an anchor, as for `Services.Service.SaveSnapshot`.
- AnchorGrids.AnchorGrid.Evict: writes to the sidecar succeed; a failed one drops the checkpoint in the code.
- AnchorGrids.AnchorGrid.SpillDropped: writes succeed, as for `AnchorGrids.AnchorGrid.Evict`.
- SidecarFiles.SidecarFile.WriteAnchorBlob: writes succeed and are whole; a crash during one is a cut of the file.
- SnapshotFiles.LoadSnapshotFile: words of 2^63 or more in the stamp fields are read as they are, where the code takes them as negative; no saved file holds one.
- ChangeStream.DeliveriesAgree: covers ledger time only; `LocalConfirms` says what a bitmap shows when local confirms, which raise the watermark by the wall clock, are mixed with delivery. It takes two paints of one cell to reach the bitmap in ledger order.
- Registry.RefusedClaimRestores: an expired lock on the claimed cell may be gone afterwards, as in the code.
- Hub.DrainedPageIsBitmap: broadcasts for one cell start and arrive in paint order, which nothing in the code enforces; `Hub.DrainedCellIff` says what a page shows without it, `Hub.SwapIsHarmlessIff` which swaps matter.
- PaintPool.EveryScheduleEnds: runs that are not cancelled; back-off durations and the rate cap are not modelled, any order of timers is.
- TextArt.ParseTextArt: text is a sequence of decoded runes; bytes that are not UTF-8 are not part of this model.
- Image.ImageToBlueprint: pixels obey the premultiplied contract of image.Color; the 64-bit sums are not bounded, since an image overflowing them cannot be held.

Not modelled:

- Failed or partial writes, fsync, rename, flock: files are byte sequences, and a crash is a cut of one. Appending to a file with a torn tail is left out, because the scan does not truncate it.
- One Service object: its history fields are `Services.Service` and its claim fields `GameServers.GameServer`, sharing only the confirm's paint, so that each can be stated alone.
- The fold callback: `Paging.FoldFrom` returns the transfers it hands over instead of calling a closure that changes captured variables; the closures are `Services.Service.FoldTransfers` and `Services.Service.PaintFrame`.
- TigerBeetle's lazy expiry and its other flags, codes and limits: a timeout is a step at any moment after the claim.
- The claim and confirm handlers' HTTP, cookies, JSON, AMQP queues and reconnect timing: the delivery sequence is an input.
- The lock overlay: adds are applied before removes within one flush, so it has no order to agree with.
- Rectangles, text in the bitmap font, shape parsing, offsets, bounds validation, shuffling: easy members.
- Metrics, latency percentiles, the load pacer, previews, flags and scripts.
