/** What a local confirm does to the derived cache, stamped by the server's clock instead of the
    ledger's, and exactly when the history survives that. */
module ConfirmClock {
  import opened Canvas
  import opened Checkpoints
  import opened History

  /** The cache after painting a confirmed claim at wall clock `nowNs`. */
  ghost function Confirmed(c: Cache, p: Paint, nowNs: nat, g: Size): Cache
    requires |c.bmp| == g.Cells() && g.Contains(p.x, p.y)
    ensures |Confirmed(c, p, nowNs, g).bmp| == g.Cells()
  {
    var synced := c.(grid := SyncTo(c.grid, nowNs, c.bmp));
    var painted := synced.(bmp := c.bmp[Index(p.x, p.y, g) := p.color % 16 + 1],
                           warmTs := if nowNs > c.warmTs then nowNs else c.warmTs);
    NotePaint(painted, nowNs / NS_PER_MS)
  }

  /** A minute boundary lies after instant `ns` and not after `nowNs`. */
  predicate MinuteBetween(ns: nat, nowNs: nat) {
    ns < nowNs / NS_PER_MS / INTERVAL_MS * INTERVAL_MS * NS_PER_MS
  }

  function Later(a: nat, b: nat): nat {
    if a < b then b else a
  }

  /** The next boundary, once the confirm has moved it past the clock, lies past the stamp. */
  predicate NextPast(c: Cache, ns: nat, nowNs: nat) {
    ns / NS_PER_MS < Later(c.grid.next, nowNs / NS_PER_MS / INTERVAL_MS * INTERVAL_MS + INTERVAL_MS)
  }

  /** The watermark and the newest paint bound, once raised to the clock, reach the stamp. */
  predicate BoundsReach(c: Cache, ns: nat, nowNs: nat) {
    ns <= Later(c.warmTs, nowNs) && ns / NS_PER_MS <= Later(c.lastMs, nowNs / NS_PER_MS)
  }

  /** Whatever the wall clock says, ahead of the ledger's stamp or behind it, the whole cache agrees with
      the ledger after a confirm exactly when the next boundary lies past the stamp and, unless the paint
      changed nothing, no minute boundary lies after the stamp and not after the clock, and watermark and
      paint bound reach the stamp. */
  lemma ConfirmAgreesIff(c: Cache, l: seq<Transfer>, t: Transfer, nowNs: nat, g: Size)
    requires Agrees(c, l, g) && Follows(l, t) && Paints(t, g) && NotOlder(c, t.timestamp)
    ensures |c.bmp| == g.Cells()
    ensures Agrees(Confirmed(c, IsPostedClaim(t, g).value, nowNs, g), l + [t], g)
            <==> NextPast(c, t.timestamp, nowNs)
                 && (Apply(c.bmp, t, g) == c.bmp
                     || (!MinuteBetween(t.timestamp, nowNs) && BoundsReach(c, t.timestamp, nowNs)))
  {
    hide MinuteBetween, NextPast, BoundsReach, Agrees, Confirmed, Apply;
    AgreesSize(c, l, g);
    if !NextPast(c, t.timestamp, nowNs) {
      PaintPastBoundary(c, l, t, nowNs, g);
    } else if Apply(c.bmp, t, g) == c.bmp || (!MinuteBetween(t.timestamp, nowNs) && BoundsReach(c, t.timestamp, nowNs)) {
      ConfirmAgrees(c, l, t, nowNs, g);
    } else if MinuteBetween(t.timestamp, nowNs) {
      BoundaryMissesPaint(c, l, t, nowNs, g);
    } else {
      BoundsMissPaint(c, l, t, nowNs, g);
    }
  }

  /** With the clock at or after the stamp only the minute boundary matters. */
  lemma ClockAheadAgreesIff(c: Cache, l: seq<Transfer>, t: Transfer, nowNs: nat, g: Size)
    requires Agrees(c, l, g) && Follows(l, t) && Paints(t, g) && NotOlder(c, t.timestamp)
    requires t.timestamp <= nowNs
    ensures |c.bmp| == g.Cells()
    ensures Agrees(Confirmed(c, IsPostedClaim(t, g).value, nowNs, g), l + [t], g)
            <==> !MinuteBetween(t.timestamp, nowNs) || Apply(c.bmp, t, g) == c.bmp
  {
    hide Agrees, Confirmed, Apply, MinuteBetween;
    ConfirmAgreesIff(c, l, t, nowNs, g);
  }

  /** With the clock behind the stamp no boundary is recorded too early, but the invariant asks that next
      boundary, watermark and paint bound were past a visible paint's stamp already. */
  lemma ClockBehindAgreesIff(c: Cache, l: seq<Transfer>, t: Transfer, nowNs: nat, g: Size)
    requires Agrees(c, l, g) && Follows(l, t) && Paints(t, g) && NotOlder(c, t.timestamp)
    requires nowNs < t.timestamp
    ensures |c.bmp| == g.Cells()
    ensures Apply(c.bmp, t, g) != c.bmp ==>
              (Agrees(Confirmed(c, IsPostedClaim(t, g).value, nowNs, g), l + [t], g)
               <==> NextPast(c, t.timestamp, nowNs) && t.timestamp <= c.warmTs
                    && t.timestamp / NS_PER_MS <= Later(c.lastMs, nowNs / NS_PER_MS))
  {
    hide Agrees, Confirmed, Apply;
    ConfirmAgreesIff(c, l, t, nowNs, g);
  }

  // ---- What a seek sees ----

  /** Every checkpoint a seek may start from is the ledger's canvas at its boundary, and the standing bitmap
      is the frame of every instant it is given for. */
  ghost predicate SeeksRight(c: Cache, l: seq<Transfer>, g: Size) {
    CheckpointsAgree(c.grid.All(), l, g) && forall tsMs: nat :: c.lastMs <= tsMs ==> c.bmp == FrameSpec(l, tsMs, g)
  }

  /** Whatever the clock says, every seek is right after a confirm exactly when the paint changed nothing, or
      no minute boundary lies after the stamp and not after the clock and the newest paint bound, once
      raised to the clock, reaches the stamp's millisecond. */
  lemma SeeksRightIff(c: Cache, l: seq<Transfer>, t: Transfer, nowNs: nat, g: Size)
    requires Agrees(c, l, g) && Follows(l, t) && Paints(t, g) && NotOlder(c, t.timestamp)
    ensures |c.bmp| == g.Cells()
    ensures SeeksRight(Confirmed(c, IsPostedClaim(t, g).value, nowNs, g), l + [t], g)
            <==> Apply(c.bmp, t, g) == c.bmp
                 || (!MinuteBetween(t.timestamp, nowNs) && t.timestamp / NS_PER_MS <= Later(c.lastMs, nowNs / NS_PER_MS))
  {
    hide MinuteBetween, Agrees, Apply, Confirmed, CheckpointsAgree, Later;
    AgreesSize(c, l, g);
    ConfirmedParts(c, t, nowNs, g);
    var r := Confirmed(c, IsPostedClaim(t, g).value, nowNs, g);
    if Apply(c.bmp, t, g) == c.bmp || !MinuteBetween(t.timestamp, nowNs) {
      CheckpointsSurvive(c, r, l, t, nowNs, g);
      StandingIff(c, l, t, r.lastMs, g);
    } else {
      BoundaryMissesPaint(c, l, t, nowNs, g);
    }
  }

  lemma ConfirmedParts(c: Cache, t: Transfer, nowNs: nat, g: Size)
    requires |c.bmp| == g.Cells() && Paints(t, g)
    ensures var r := Confirmed(c, IsPostedClaim(t, g).value, nowNs, g);
            && r.bmp == Apply(c.bmp, t, g) && r.lastMs == Later(c.lastMs, nowNs / NS_PER_MS) >= c.lastMs
            && r.grid == SyncTo(c.grid, nowNs, c.bmp)
  {
    hide SyncTo;
  }

  /** The bitmap with the paint is the frame from a paint bound on exactly when the bound reaches the stamp's
      millisecond, or the paint changed nothing. */
  lemma StandingIff(c: Cache, l: seq<Transfer>, t: Transfer, lastMs: nat, g: Size)
    requires Agrees(c, l, g) && c.lastMs <= lastMs
    ensures |c.bmp| == g.Cells()
    ensures (forall tsMs: nat :: lastMs <= tsMs ==> Apply(c.bmp, t, g) == FrameSpec(l + [t], tsMs, g))
            <==> Apply(c.bmp, t, g) == c.bmp || t.timestamp / NS_PER_MS <= lastMs
  {
    hide AtRest, CanvasBefore, Fold, CheckpointsAgree, PaintsBefore, BoundariesPast, Apply;
    forall tsMs: nat | lastMs <= tsMs
      ensures FrameSpec(l + [t], tsMs, g) == if t.timestamp / NS_PER_MS <= tsMs then Apply(c.bmp, t, g) else c.bmp
    {
      CanvasAppend(l, t, (tsMs + 1) * NS_PER_MS, g);
      assert CanvasBefore(l, (tsMs + 1) * NS_PER_MS, g) == c.bmp;
    }
    assert FrameSpec(l + [t], lastMs, g) == if t.timestamp / NS_PER_MS <= lastMs then Apply(c.bmp, t, g) else c.bmp;
  }

  // ---- An input for each direction ----

  /** A posted claim of the canvas's corner. */
  function CornerLeg(id: nat, color: nat, ns: nat): Transfer {
    Transfer(id, PixelID(0, 0), 0, 1, 0, 0, CLAIM_CODE + color, 0, 0, Flags(false, false, true, false), ns)
  }

  lemma CornerPaints(id: nat, color: nat, ns: nat, b: Bitmap, g: Size)
    requires g.Contains(0, 0) && color < 16 && |b| == g.Cells()
    ensures IsPostedClaim(CornerLeg(id, color, ns), g) == Some(Paint(0, 0, color))
    ensures Apply(b, CornerLeg(id, color, ns), g) == b[Index(0, 0, g) := color + 1]
  {
    UnpackIsInverse(PixelID(0, 0), 0, 0);
  }

  /** A clock a millisecond behind: the standing bitmap, given out for the millisecond before the paint's
      stamp, already shows the paint. */
  lemma ClockBehindShowsEarly(g: Size)
    requires g.Contains(0, 0)
    ensures var t := CornerLeg(1, 0, 60_001_000_000);
            && Paints(t, g)
            && var r := Confirmed(EmptyCache(g), IsPostedClaim(t, g).value, 60_000_000_000, g);
               r.lastMs == 60_000 && r.bmp != FrameSpec([t], 60_000, g)
  {
    hide SyncTo;
    var t := CornerLeg(1, 0, 60_001_000_000);
    CornerPaints(1, 0, 60_001_000_000, Blank(g), g);
    CanvasAppend([], t, 60_001_000_000, g);
    assert [] + [t] == [t];
    assert FrameSpec([t], 60_000, g) == Blank(g);
    assert Confirmed(EmptyCache(g), IsPostedClaim(t, g).value, 60_000_000_000, g).bmp[Index(0, 0, g)] == 1;
  }

  /** A clock a millisecond ahead over a minute boundary: after one more paint, which no clock disturbs, a
      seek between the two starts at that boundary's checkpoint, finds nothing to fold, and misses the
      first paint. */
  lemma ClockAheadHidesPaint(g: Size)
    requires g.Contains(0, 0)
    ensures var t, u := CornerLeg(1, 0, 59_999_000_000), CornerLeg(2, 1, 60_002_000_000);
            var l := [t, u];
            && Paints(t, g) && Paints(u, g) && Ordered(l)
            && var once := Confirmed(EmptyCache(g), IsPostedClaim(t, g).value, 60_000_000_000, g);
               var r := Confirmed(once, IsPostedClaim(u, g).value, 60_002_000_000, g);
               && r.lastMs > 60_001 && r.grid.All() == [Checkpoint(60_000, Blank(g))] && r.grid.spilled == []
               && CountBefore(l, 60_000_000_000) == CountBefore(l, 60_002_000_000) == 1
               && Fold(Blank(g), l[1..1], g) != FrameSpec(l, 60_001, g)
  {
    hide Fold, CanvasBefore, SyncTo, CountBefore, FrameSpec;
    CornerPaints(1, 0, 59_999_000_000, Blank(g), g);
    FirstBoundary(Blank(g));
    var once := Confirmed(EmptyCache(g), Paint(0, 0, 0), 60_000_000_000, g);
    CornerPaints(2, 1, 60_002_000_000, once.bmp, g);
    SameMinute(once.grid, once.bmp);
    HiddenFrame(g);
  }

  lemma FirstBoundary(b: Bitmap)
    ensures SyncTo(EMPTY_GRID, 60_000_000_000, b) == Grid([], [Checkpoint(60_000, b)], 120_000)
  {
    hide TotalBytes, Bitmaps;
    var first := Grid([], [], 60_000);
    var w := [Checkpoint(60_000, b)];
    assert first.window + [Checkpoint(60_000, b)] == w;
    assert w[..0] == [] && w[0..] == w && first.spilled + w[..0] == [];
    assert Step(first, b) == Grid([], w, 120_000);
    assert Advance(Step(first, b), 60_000, b) == Step(first, b);
  }

  lemma SameMinute(gr: Grid, b: Bitmap)
    requires gr.next == 120_000
    ensures SyncTo(gr, 60_002_000_000, b) == gr
  {}

  lemma HiddenFrame(g: Size)
    requires g.Contains(0, 0)
    ensures var t, u := CornerLeg(1, 0, 59_999_000_000), CornerLeg(2, 1, 60_002_000_000);
            var l := [t, u];
            && CountBefore(l, 60_000_000_000) == CountBefore(l, 60_002_000_000) == 1
            && Fold(Blank(g), l[1..1], g) != FrameSpec(l, 60_001, g)
  {
    hide Apply;
    var t, u := CornerLeg(1, 0, 59_999_000_000), CornerLeg(2, 1, 60_002_000_000);
    assert [t, u][..1] == [t] && [t][..0] == [] && [t] + [u] == [t, u] && [] + [t] == [t];
    CanvasAppend([], t, 60_002_000_000, g);
    CanvasAppend([t], u, 60_002_000_000, g);
    CornerPaints(1, 0, 59_999_000_000, Blank(g), g);
    assert FrameSpec([t, u], 60_001, g) == Blank(g)[Index(0, 0, g) := 1];
    assert FrameSpec([t, u], 60_001, g)[Index(0, 0, g)] == 1 && Blank(g)[Index(0, 0, g)] == 0;
  }

  /** The boundary after a sync. */
  lemma SyncNext(gr: Grid, nowNs: nat, bmp: Bitmap)
    requires AtRest(gr)
    ensures SyncTo(gr, nowNs, bmp).next == Later(gr.next, nowNs / NS_PER_MS / INTERVAL_MS * INTERVAL_MS + INTERVAL_MS)
  {
    hide Spaced, WithinCaps, Advance;
    var ms := nowNs / NS_PER_MS;
    AdvanceRecords(Start(gr, ms), ms, bmp);
    if Start(gr, ms).next <= ms {
      LastMinute(SyncTo(gr, nowNs, bmp).next, ms);
    }
  }

  lemma PaintPastBoundary(c: Cache, l: seq<Transfer>, t: Transfer, nowNs: nat, g: Size)
    requires Agrees(c, l, g) && Paints(t, g) && !NextPast(c, t.timestamp, nowNs)
    ensures |c.bmp| == g.Cells() && !Agrees(Confirmed(c, IsPostedClaim(t, g).value, nowNs, g), l + [t], g)
  {
    hide AtRest, SyncTo, CanvasBefore, Fold, SettledFrom, CheckpointsAgree, BoundariesPast;
    SyncNext(c.grid, nowNs, c.bmp);
    assert t in l + [t];
  }

  lemma ConfirmAgrees(c: Cache, l: seq<Transfer>, t: Transfer, nowNs: nat, g: Size)
    requires Agrees(c, l, g) && Follows(l, t) && Paints(t, g) && NotOlder(c, t.timestamp)
    requires NextPast(c, t.timestamp, nowNs)
    requires Apply(c.bmp, t, g) == c.bmp || (!MinuteBetween(t.timestamp, nowNs) && BoundsReach(c, t.timestamp, nowNs))
    ensures |c.bmp| == g.Cells() && Agrees(Confirmed(c, IsPostedClaim(t, g).value, nowNs, g), l + [t], g)
  {
    hide SyncTo, CanvasBefore, Fold, SettledFrom, CheckpointsAgree, MinuteBetween;
    var r := Confirmed(c, IsPostedClaim(t, g).value, nowNs, g);
    SyncAgrees(c, l, nowNs, g);
    SyncNext(c.grid, nowNs, c.bmp);
    CanvasAppend(l, t, 0, g);
    CheckpointsSurvive(c, r, l, t, nowNs, g);
    SettledAppend(l, c.bmp, (c.lastMs + 1) * NS_PER_MS, t, (r.lastMs + 1) * NS_PER_MS, g);
    SettledAppend(l, c.bmp, c.warmTs + 1, t, r.warmTs + 1, g);
  }

  lemma BoundsMissPaint(c: Cache, l: seq<Transfer>, t: Transfer, nowNs: nat, g: Size)
    requires Agrees(c, l, g) && Paints(t, g)
    requires Apply(c.bmp, t, g) != c.bmp && !BoundsReach(c, t.timestamp, nowNs)
    ensures |c.bmp| == g.Cells() && !Agrees(Confirmed(c, IsPostedClaim(t, g).value, nowNs, g), l + [t], g)
  {
    hide AtRest, SyncTo, CanvasBefore, Fold, CheckpointsAgree, PaintsBefore, BoundariesPast, Apply;
    var r := Confirmed(c, IsPostedClaim(t, g).value, nowNs, g);
    CanvasAppend(l, t, 0, g);
    CanvasAppend(l, t, (r.lastMs + 1) * NS_PER_MS, g);
    CanvasAppend(l, t, r.warmTs + 1, g);
    assert CanvasBefore(l, (r.lastMs + 1) * NS_PER_MS, g) == c.bmp;
    assert CanvasBefore(l, r.warmTs + 1, g) == c.bmp;
  }

  lemma CheckpointsSurvive(c: Cache, r: Cache, l: seq<Transfer>, t: Transfer, nowNs: nat, g: Size)
    requires Agrees(c, l, g) && NotOlder(c, t.timestamp)
    requires r.grid == SyncTo(c.grid, nowNs, c.bmp)
    requires !MinuteBetween(t.timestamp, nowNs) || Apply(c.bmp, t, g) == c.bmp
    ensures CheckpointsAgree(r.grid.All(), l + [t], g)
  {
    hide MinuteBetween, Apply, CanvasBefore, Fold, AtRest, SyncTo, SettledFrom, PaintsBefore;
    SyncAgrees(c, l, nowNs, g);
    var cs := r.grid.All();
    forall i | 0 <= i < |cs| ensures cs[i].bmp == CanvasBefore(l + [t], cs[i].tsMs * NS_PER_MS, g) {
      RecordedOrOld(c, nowNs, i);
      CheckpointSurvives(cs[i], c, l, t, nowNs, g);
    }
  }

  /** Every checkpoint after a sync was there before or shows the bitmap of the sync. */
  lemma RecordedOrOld(c: Cache, nowNs: nat, i: nat)
    requires AtRest(c.grid) && BoundariesPast(c.grid)
    ensures var cs := SyncTo(c.grid, nowNs, c.bmp).All();
            i < |cs| ==> cs[i].tsMs + INTERVAL_MS <= c.grid.next
                         || (cs[i].bmp == c.bmp && cs[i].tsMs <= nowNs / NS_PER_MS / INTERVAL_MS * INTERVAL_MS)
  {
    hide Advance, WithinCaps, Spaced;
    var ms := nowNs / NS_PER_MS;
    AdvanceRecords(Start(c.grid, ms), ms, c.bmp);
  }

  lemma CheckpointSurvives(cp: Checkpoint, c: Cache, l: seq<Transfer>, t: Transfer, nowNs: nat, g: Size)
    requires |c.bmp| == g.Cells() && cp.bmp == CanvasBefore(l, cp.tsMs * NS_PER_MS, g)
    requires cp.tsMs + INTERVAL_MS <= c.grid.next
             || (cp.bmp == c.bmp && cp.tsMs <= nowNs / NS_PER_MS / INTERVAL_MS * INTERVAL_MS)
    requires NotOlder(c, t.timestamp)
    requires !MinuteBetween(t.timestamp, nowNs) || Apply(c.bmp, t, g) == c.bmp
    ensures cp.bmp == CanvasBefore(l + [t], cp.tsMs * NS_PER_MS, g)
  {
    hide MinuteBetween, Apply, CanvasBefore, Fold;
    CanvasAppend(l, t, cp.tsMs * NS_PER_MS, g);
    if t.timestamp < cp.tsMs * NS_PER_MS {
      PaintBetween(t.timestamp, cp.tsMs, nowNs);
    }
  }

  lemma PaintBetween(ns: nat, boundaryMs: nat, nowNs: nat)
    requires ns < boundaryMs * NS_PER_MS && boundaryMs <= nowNs / NS_PER_MS / INTERVAL_MS * INTERVAL_MS
    ensures MinuteBetween(ns, nowNs)
  {}

  /** The last full minute is the newest boundary the confirm records, with the old bitmap. */
  lemma NewestBoundary(c: Cache, ns: nat, nowNs: nat)
    requires AtRest(c.grid) && NotOlder(c, ns) && MinuteBetween(ns, nowNs)
    ensures var r := SyncTo(c.grid, nowNs, c.bmp);
            && AtRest(r) && r.window != []
            && r.All()[|r.All()| - 1] == Checkpoint(nowNs / NS_PER_MS / INTERVAL_MS * INTERVAL_MS, c.bmp)
  {
    hide Spaced, WithinCaps, Advance, MinuteBetween;
    var ms := nowNs / NS_PER_MS;
    var start := Start(c.grid, ms);
    SyncRests(c.grid, nowNs, c.bmp);
    MinuteDue(c.grid.next, ns, nowNs);
    NewestOfAdvance(start, ms, c.bmp);
  }

  lemma NewestOfAdvance(gr: Grid, ms: nat, bmp: Bitmap)
    requires WellFormed(gr) && gr.next <= ms
    ensures var r := Advance(gr, ms, bmp);
            r.window != [] && r.All()[|r.All()| - 1] == Checkpoint(ms / INTERVAL_MS * INTERVAL_MS, bmp)
  {
    hide Spaced, WithinCaps, Advance;
    AdvanceRecords(gr, ms, bmp);
    var r := Advance(gr, ms, bmp);
    LastMinute(r.next, ms);
    assert r.All()[|r.All()| - 1] == r.window[|r.window| - 1];
  }

  lemma MinuteDue(next: nat, ns: nat, nowNs: nat)
    requires next % INTERVAL_MS == 0 && next <= ns / NS_PER_MS + INTERVAL_MS && MinuteBetween(ns, nowNs)
    ensures next <= nowNs / NS_PER_MS
    ensures nowNs / NS_PER_MS / INTERVAL_MS * INTERVAL_MS <= nowNs / NS_PER_MS
  {}

  lemma BoundaryMissesPaint(c: Cache, l: seq<Transfer>, t: Transfer, nowNs: nat, g: Size)
    requires Agrees(c, l, g) && Follows(l, t) && Paints(t, g) && NotOlder(c, t.timestamp)
    requires MinuteBetween(t.timestamp, nowNs) && Apply(c.bmp, t, g) != c.bmp
    ensures |c.bmp| == g.Cells()
    ensures !CheckpointsAgree(Confirmed(c, IsPostedClaim(t, g).value, nowNs, g).grid.All(), l + [t], g)
    ensures !Agrees(Confirmed(c, IsPostedClaim(t, g).value, nowNs, g), l + [t], g)
  {
    hide AtRest, SyncTo, CanvasBefore, Fold, SettledFrom, PaintsBefore, Apply;
    var r := SyncTo(c.grid, nowNs, c.bmp);
    SyncAgrees(c, l, nowNs, g);
    NewestBoundary(c, t.timestamp, nowNs);
    var at := |r.All()| - 1;
    var ns := r.All()[at].tsMs * NS_PER_MS;
    assert CanvasBefore(l, ns, g) == c.bmp;
    CanvasAppend(l, t, ns, g);
    assert r.All()[at].bmp != CanvasBefore(l + [t], ns, g);
  }

  lemma LastMinute(next: nat, ms: nat)
    requires next % INTERVAL_MS == 0 && ms < next <= ms + INTERVAL_MS
    ensures next - INTERVAL_MS == ms / INTERVAL_MS * INTERVAL_MS
  {}
}
