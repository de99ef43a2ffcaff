/** The server's derived state: boot, change delivery, history seeks and snapshots. */
module Services {
  import opened Bytes
  import opened Canvas
  import opened Checkpoints
  import opened Sidecar
  import opened SidecarFiles
  import opened AnchorGrids
  import opened Snapshot
  import opened SnapshotFiles
  import opened Paging
  import opened History
  import opened ChangeStream
  import Timeline
  import ConfirmClock

  datatype SnapshotBoot = Booted | Unusable | Died

  datatype Frame = Frame(bmp: Bitmap, effMs: nat) | TooBroad | SidecarError

  /** The canvases a ledger passes through are all bitmaps of the run. */
  ghost predicate InRun(l: seq<Transfer>, g: Size, run: iset<Bitmap>) {
    forall n :: 0 <= n <= |l| ==> Fold(Blank(g), l[..n], g) in run
  }

  ghost predicate Stamped(l: seq<Transfer>) {
    forall t :: t in l ==> t.timestamp < U63
  }

  /** A loaded snapshot stands for a cache. */
  ghost predicate StandsFor(s: Loaded, c: Cache, hash: Bitmap -> u64, run: iset<Bitmap>) {
    && s.bmp == c.bmp && s.warmTs == c.warmTs && s.firstMs == c.firstMs && s.lastMs == c.lastMs
    && s.nextBoundary == c.grid.next
    && Holds(s.list, s.pool, s.poolBytes, c.grid.window, hash, run)
  }

  class Service {
    const g: Size
    const hash: Bitmap -> u64
    ghost const run: iset<Bitmap>
    const sidecar: SidecarFile?
    var bmp: Bitmap
    var ag: AnchorGrid
    var warmTs: u64
    var firstPaintMs: u64
    var lastPaintMs: u64
    var warmed: bool

    ghost predicate Valid()
      reads this, ag, sidecar
    {
      && Configured()
      && |bmp| == g.Cells() && bmp in run
      && GridValid()
    }

    ghost predicate Configured()
      reads this
    {
      && 0 < g.Cells() <= MAX_POOL_BYTES && CollisionFree(hash, run)
      && (sidecar != null ==> sidecar.hash == hash && sidecar.run == run)
    }

    ghost predicate GridValid()
      reads this, ag, sidecar
    {
      ag.onEvict == sidecar && ag.Valid() && ag.hash == hash && ag.run == run
    }

    ghost function View(): Cache
      reads this, ag
    {
      Cache(bmp, ag.grid, warmTs, firstPaintMs, lastPaintMs)
    }

    /** The sidecar holds exactly what the cache has spilled, as it does from the first boot on. */
    ghost predicate Mirrored()
      reads this, ag, sidecar
    {
      sidecar != null ==> sidecar.written == ag.grid.spilled
    }

    constructor (g: Size, hash: Bitmap -> u64, ghost run: iset<Bitmap>, sidecar: SidecarFile?)
      requires 0 < g.Cells() <= MAX_POOL_BYTES && CollisionFree(hash, run) && Blank(g) in run
      requires sidecar != null ==> sidecar.Valid() && sidecar.hash == hash && sidecar.run == run
      ensures Valid() && View() == EmptyCache(g) && !warmed
      ensures this.g == g && this.hash == hash && this.run == run && this.sidecar == sidecar
    {
      this.g, this.hash, this.run, this.sidecar := g, hash, run, sidecar;
      bmp := Blank(g);
      ag := new AnchorGrid(hash, run, sidecar);
      warmTs, firstPaintMs, lastPaintMs, warmed := 0, 0, 0, false;
    }

    /** Opens the sidecar file of an earlier life, remembering nothing of what it wrote. */
    method OpenSidecar()
      requires Valid()
      modifies sidecar
      ensures Valid() && (sidecar != null ==> sidecar.data == old(sidecar.data) && sidecar.written == old(sidecar.written))
    {
      hide CollisionFree, Logs, Remembers, Recorded, Holds;
      if sidecar != null {
        sidecar.Reopen();
      }
    }

    /** Widens the timeline bounds. */
    method NotePaint(ms: u64)
      modifies this`firstPaintMs, this`lastPaintMs
      ensures firstPaintMs <= ms <= lastPaintMs && old(lastPaintMs) <= lastPaintMs
      ensures old(firstPaintMs) == 0 ==> firstPaintMs == ms
      ensures old(firstPaintMs) != 0 ==> firstPaintMs <= old(firstPaintMs) && firstPaintMs in {old(firstPaintMs), ms}
      ensures lastPaintMs in {old(lastPaintMs), ms}
      ensures View() == History.NotePaint(old(View()), ms)
    {
      if firstPaintMs == 0 || ms < firstPaintMs {
        firstPaintMs := ms;
      }
      if ms > lastPaintMs {
        lastPaintMs := ms;
      }
    }

    /** Folds one ledger transfer into the state being built. */
    method FoldTransfer(t: Transfer)
      requires Valid() && t.timestamp < U63 && Apply(bmp, t, g) in run
      modifies this, ag, sidecar
      ensures Valid() && ag == old(ag) && ag.prior == old(ag.prior)
      ensures View() == FoldOne(old(View()), t, g)
    {
      hide AnchorGrid.Valid, CollisionFree, SyncTo, CanvasBefore, Fold, Logs, Remembers;
      ag.SyncTo(t.timestamp, bmp);
      match IsPostedClaim(t, g) {
        case None =>
        case Some(p) =>
          bmp := bmp[Index(p.x, p.y, g) := p.color % 16 + 1];
          NotePaint(t.timestamp / NS_PER_MS);
      }
      warmTs := t.timestamp;
    }

    /** Runs the fold callback over every transfer the iterator hands it. */
    method FoldTransfers(ts: seq<Transfer>)
      requires Valid() && Stamped(ts)
      requires forall n :: 0 <= n <= |ts| ==> Fold(bmp, ts[..n], g) in run
      modifies this, ag, sidecar
      ensures Valid() && ag == old(ag) && ag.prior == old(ag.prior)
      ensures View() == FoldAll(old(View()), ts, g)
    {
      hide AnchorGrid.Valid, CollisionFree, CanvasBefore, FoldOne, Apply;
      assert ts[..0] == [];
      for i := 0 to |ts|
        invariant Valid() && ag == old(ag) && ag.prior == old(ag.prior)
        invariant View() == FoldAll(old(View()), ts[..i], g)
      {
        assert ts[..i + 1][..i] == ts[..i];
        FoldAllBitmap(old(View()), ts[..i], g);
        assert Fold(old(bmp), ts[..i + 1], g) == Apply(bmp, ts[i], g);
        FoldTransfer(ts[i]);
      }
      assert ts[..|ts|] == ts;
    }

    /** Boots by replaying the whole ledger, regenerating the sidecar. */
    method FullReplay(l: seq<Transfer>, nowMs: nat)
      requires Valid() && Ordered(l) && Stamped(l) && InRun(l, g, run) && nowMs < U63
      modifies this, sidecar
      ensures Valid() && Mirrored() && warmed && fresh(ag)
      ensures View() == Warm(l, nowMs, g)
      ensures Timeline.BoundsOf(View(), Timeline.PaintsIn(l, 0, |l|, g), l)
    {
      hide AnchorGrid.Valid, CollisionFree, CanvasBefore, FoldAll, FillTo, CountBefore, FirstStop, Ordered;
      hide Timeline.BoundsOf, Timeline.PaintsIn;
      assert l[..0] == [] && l[..|l|] == l;
      Timeline.ReplayBounds(l, |l|, nowMs, g);
      StartOver();
      var visited, _, _ := FoldFrom(l, 0, 0, _ => false);
      CountBeforeZero(l);
      NeverStops(l[0..]);
      assert visited == l;
      FoldTransfers(visited);
      FillGrid(nowMs);
      if sidecar != null {
        ag.SidecarIsValid();
        assert [] + ag.grid.spilled == ag.grid.spilled;
      }
      warmed := true;
    }

    /** Fills the boundaries up to the clock. */
    method FillGrid(nowMs: nat)
      requires Valid() && nowMs < U63
      modifies ag, sidecar
      ensures Valid() && ag.prior == old(ag.prior)
      ensures View() == Filled(old(View()), nowMs)
    {
      hide AnchorGrid.Valid, CollisionFree, FillTo;
      ag.FillTo(nowMs, bmp);
    }

    /** An empty build state over an empty sidecar. */
    method StartOver()
      requires Configured() && Blank(g) in run
      modifies this, sidecar
      ensures Valid() && fresh(ag) && View() == EmptyCache(g) && ag.prior == []
    {
      hide AnchorGrid.Valid, CollisionFree;
      if sidecar != null {
        sidecar.ResetAnchorSidecar();
      }
      ag := new AnchorGrid(hash, run, sidecar);
      bmp, warmTs, firstPaintMs, lastPaintMs := Blank(g), 0, 0, 0;
    }

    /** A snapshot this server saved from the cache `saved`, with the ledger it meets at boot. */
    ghost predicate Usable(s: Loaded, saved: Cache, l: seq<Transfer>)
      reads this
    {
      && StandsFor(s, saved, hash, run) && AtRest(saved.grid) && saved.grid.window != []
      && |saved.bmp| == g.Cells() && saved.bmp in run
      && var d := l[CountBefore(l, saved.warmTs + 1)..];
         forall n :: 0 <= n <= |d| ==> Fold(saved.bmp, d[..n], g) in run
    }

    /** Boots from a snapshot of `saved` and the transfers after its watermark, then indexes the
        whole sidecar; a snapshot that does not load leaves everything as it was, and one the reader
        panics on ends the process. */
    method WarmFromSnapshot(file: seq<byte>, l: seq<Transfer>, nowMs: nat, ghost saved: Cache) returns (r: SnapshotBoot)
      requires Valid() && Ordered(l) && Stamped(l) && nowMs < U63
      requires Load(file, g).Some? ==> Usable(Load(file, g).value, saved, l)
      modifies this, sidecar
      ensures r == match Reads(file, g) case Panicked => Died case Refused => Unusable case Accepted(_) => Booted
      ensures !r.Booted? ==> unchanged(this) && (sidecar != null ==> unchanged(sidecar))
      ensures r.Booted? ==> Valid() && Mirrored() && warmed && fresh(ag)
      ensures r.Booted? ==> View() == Respilled(if sidecar == null then [] else old(sidecar.written),
                                         Resume(Unspilled(saved), l, nowMs, g))
    {
      hide AnchorGrid.Valid, CollisionFree, CanvasBefore, FoldAll, Fold, FillTo, FirstStop, Ordered, Load, Holds, WellFormed, CountBefore;
      hide SidecarFile.Valid, Encode, Encodable, Referenced, Panics;
      var loaded := LoadSnapshotFile(file, g);
      if loaded.Panicked? {
        return Died;
      }
      if loaded.Refused? {
        return Unusable;
      }
      var s := loaded.s;
      if sidecar != null {
        ag.SidecarIsValid();
      }
      Adopt(s, saved);
      var visited, _, _ := FoldFrom(l, s.warmTs + 1, 0, _ => false);
      NeverStops(l[CountBefore(l, s.warmTs + 1)..]);
      FoldTransfers(visited);
      FillGrid(nowMs);
      if sidecar != null {
        ResumeStarted(Unspilled(saved), l, nowMs, g);
        ag.SidecarIsValid();
        ag.AdoptScan();
        ag.SidecarIsValid();
        assert [] + ag.grid.spilled == ag.grid.spilled;
      }
      warmed := true;
      return Booted;
    }

    /** Takes over a loaded snapshot as the state to fold the delta into. */
    method Adopt(s: Loaded, ghost saved: Cache)
      requires Configured() && (sidecar != null ==> sidecar.Valid())
      requires StandsFor(s, saved, hash, run) && AtRest(saved.grid) && saved.grid.window != []
      requires |saved.bmp| == g.Cells() && saved.bmp in run
      modifies this`ag, this`bmp, this`warmTs, this`firstPaintMs, this`lastPaintMs
      ensures Valid() && fresh(ag) && View() == Unspilled(saved)
      ensures ag.prior == if sidecar == null then [] else sidecar.written
      ensures AtRest(Unspilled(saved).grid) && saved.grid.next > 0
    {
      hide CollisionFree, Pools, Names, AllStorable, Logs, Remembers, Spaced, WithinCaps, Bitmaps;
      PoolValues(s.pool, saved.grid.window, hash);
      ag := new AnchorGrid.Restore(hash, run, sidecar, saved.grid.window, s.list, s.pool, s.poolBytes, s.nextBoundary);
      bmp, warmTs, firstPaintMs, lastPaintMs := s.bmp, s.warmTs, s.firstMs, s.lastMs;
    }

    /** Boots from the snapshot when there is a usable one, otherwise by replaying everything. */
    method WarmCache(file: Option<seq<byte>>, l: seq<Transfer>, nowMs: nat, ghost saved: Cache) returns (died: bool)
      requires Valid() && Ordered(l) && Stamped(l) && InRun(l, g, run) && nowMs < U63
      requires file.Some? && Load(file.value, g).Some? ==> Usable(Load(file.value, g).value, saved, l)
      modifies this, sidecar
      ensures died <==> file.Some? && Panics(file.value, g)
      ensures died ==> unchanged(this) && (sidecar != null ==> unchanged(sidecar))
      ensures !died ==> Valid() && Mirrored() && warmed && fresh(ag)
      ensures !died ==>
              if file.Some? && Load(file.value, g).Some? then
                View() == Respilled(if sidecar == null then [] else old(sidecar.written), Resume(Unspilled(saved), l, nowMs, g))
              else View() == Warm(l, nowMs, g) && Timeline.BoundsOf(View(), Timeline.PaintsIn(l, 0, |l|, g), l)
    {
      if file.Some? {
        var r := WarmFromSnapshot(file.value, l, nowMs, saved);
        if !r.Unusable? {
          return r.Died?;
        }
      }
      FullReplay(l, nowMs);
      died := false;
    }

    /** The state as a snapshot file; nothing is written before warm-up completes. */
    method SaveSnapshot() returns (file: Option<seq<byte>>)
      requires Valid()
      ensures file.Some? <==> warmed
      ensures file.Some? ==> !Panics(file.value, g)
      ensures file.Some? && ag.grid.window != [] ==>
                Load(file.value, g).Some? && StandsFor(Load(file.value, g).value, View(), hash, run)
    {
      if !warmed {
        return None;
      }
      ag.Saveable();
      var d, entries := WriteSnapshot(warmTs, firstPaintMs, lastPaintMs, bmp, ag.list, ag.pool, g);
      SavedNeverPanics(Saved(warmTs, firstPaintMs, lastPaintMs, bmp, ag.list, entries), g);
      if ag.grid.window != [] {
        LoadOfSaved(Saved(warmTs, firstPaintMs, lastPaintMs, bmp, ag.list, entries), g, ag.pool, ag.grid.window, hash);
      }
      return Some(d);
    }

    /** Advances the grid; what it spills reaches the sidecar. */
    method SyncMirrored(eventNs: nat)
      requires Valid() && eventNs < U63
      modifies ag, sidecar
      ensures Valid() && (old(Mirrored()) ==> Mirrored())
      ensures ag.grid == Checkpoints.SyncTo(old(ag.grid), eventNs, bmp)
    {
      hide AnchorGrid.Valid, CollisionFree, SyncTo;
      if sidecar != null {
        ag.SidecarIsValid();
      }
      ghost var spilled := ag.grid.spilled;
      ag.SyncTo(eventNs, bmp);
      if sidecar != null {
        ag.SidecarIsValid();
        NoPrefix(ag.prior, spilled);
        assert [] + ag.grid.spilled == ag.grid.spilled;
      }
    }

    /** The cache's side of a confirm: checkpoint, paint, bounds and watermark by the server's clock. */
    method PaintConfirmed(p: Paint, nowNs: nat)
      requires Valid() && g.Contains(p.x, p.y) && nowNs < U63
      requires bmp[Index(p.x, p.y, g) := p.color % 16 + 1] in run
      modifies this, ag, sidecar
      ensures Valid() && ag == old(ag) && (old(Mirrored()) ==> Mirrored())
      ensures View() == ConfirmClock.Confirmed(old(View()), p, nowNs, g)
      ensures warmTs == if nowNs > old(warmTs) then nowNs else old(warmTs)
    {
      hide AnchorGrid.Valid, CollisionFree, SyncTo;
      SyncMirrored(nowNs);
      bmp := bmp[Index(p.x, p.y, g) := p.color % 16 + 1];
      NotePaint(nowNs / NS_PER_MS);
      if nowNs > warmTs {
        warmTs := nowNs;
      }
    }

    /** Takes in one change event and says whether it is to be broadcast. */
    method ApplyEvent(ev: Event) returns (broadcast: bool)
      requires Valid() && ev.timestamp < U63
      requires ChangeStream.ApplyEvent(View(), ev, g).0.bmp in run
      modifies this, ag, sidecar
      ensures Valid() && ag == old(ag) && (old(Mirrored()) ==> Mirrored())
      ensures (View(), broadcast) == ChangeStream.ApplyEvent(old(View()), ev, g)
    {
      hide AnchorGrid.Valid, CollisionFree, SyncTo;
      if ev.kind != PostedEvent {
        return false;
      }
      if ev.x >= g.w || ev.y >= g.h {
        return false;
      }
      if ev.timestamp <= warmTs {
        return false;
      }
      SyncMirrored(ev.timestamp);
      var idx := Index(ev.x, ev.y, g);
      if bmp[idx] == ev.color % 16 + 1 {
        return false;
      }
      bmp := bmp[idx := ev.color % 16 + 1];
      if ev.timestamp > warmTs {
        warmTs := ev.timestamp;
      }
      NotePaint(ev.timestamp / NS_PER_MS);
      return true;
    }

    /** The callback of a seek: paint every transfer of the window, stop past it. */
    method PaintFrame(start: Bitmap, visited: seq<Transfer>, toNs: nat, ghost m: nat) returns (frame: Bitmap)
      requires |start| == g.Cells() && m <= |visited|
      requires forall i :: 0 <= i < m ==> visited[i].timestamp <= toNs
      requires m < |visited| ==> toNs < visited[m].timestamp
      ensures frame == Fold(start, visited[..m], g)
    {
      hide Apply;
      frame := start;
      for k := 0 to |visited|
        invariant k <= m && frame == Fold(start, visited[..k], g)
      {
        var t := visited[k];
        if t.timestamp > toNs {
          break;
        }
        assert visited[..k + 1][..k] == visited[..k];
        frame := Apply(frame, t, g);
      }
    }

    /** Folds the ledger from a start onto its canvas, up to the end of millisecond `tsMs`. */
    method FoldFrame(l: seq<Transfer>, start: Bitmap, from: nat, tsMs: nat) returns (r: Frame)
      requires Ordered(l) && from <= tsMs * NS_PER_MS && start == CanvasBefore(l, from, g)
      ensures r.TooBroad? || r == Frame(FrameSpec(l, tsMs, g), tsMs)
      ensures r.TooBroad? <==> 50 * 4000 <= CountBefore(l, (tsMs + 1) * 1_000_000) - CountBefore(l, from)
    {
      hide CanvasBefore, CountBefore, Ordered, FirstStop, Apply, Fold;
      var toNs := tsMs * NS_PER_MS + 999_999;
      StopsPast(l, from, toNs);
      FoldBetween(l, from, toNs + 1, g);
      var visited, _, tooBroad := FoldFrom(l, from, MAX_FRAME_PAGES, (t: Transfer) => t.timestamp > toNs);
      if tooBroad {
        return TooBroad;
      }
      ghost var i, j := CountBefore(l, from), CountBefore(l, toNs + 1);
      assert visited[..j - i] == l[i..j];
      var frame := PaintFrame(start, visited, toNs, j - i);
      return Frame(frame, tsMs);
    }

    /** Where a seek starts: a RAM anchor, a sidecar blob, or the empty canvas. */
    method SeekStart(l: seq<Transfer>, tsMs: nat, ghost n: nat) returns (start: Option<Bitmap>, from: nat)
      requires Valid() && CaughtUp(l, n, tsMs) && Agrees(View(), l[..n], g)
      ensures start.Some? && from <= tsMs * NS_PER_MS && start.value == CanvasBefore(l, from, g)
      ensures NewestStart(ag.grid, sidecar != null, tsMs, from)
    {
      hide CanvasBefore, Fold, CaughtUp, Agrees, CollisionFree, Logs, Remembers, Fetch, Holds;
      var a, startNs, ok, at := ag.CheckpointAt(tsMs);
      if ok {
        CheckpointFrame(View(), l, n, tsMs, ag.grid.window[at], g);
        ag.WindowAscends();
        assert ag.grid.window[at] in ag.grid.window;
        return Some(a), startNs;
      }
      var ref, found := ag.SidecarAt(tsMs);
      if !found {
        BlankBeforeZero(l, g);
        if sidecar != null {
          ag.EvictedTimes();
        }
        return Some(Blank(g)), 0;
      }
      ghost var k := ag.FindEvicted(ref);
      CheckpointFrame(View(), l, n, tsMs, ag.grid.spilled[k], g);
      ag.EvictedTimes();
      assert ag.grid.spilled[k] in ag.grid.spilled;
      var blob := ag.onEvict.ReadAnchorBlob(ref);
      return blob, ref.tsMs * NS_PER_MS;
    }

    /** The canvas as it stood at `tsMs`: the newest checkpoint not after it, folded forward. */
    method FrameAt(l: seq<Transfer>, tsMs: nat, ghost n: nat) returns (r: Frame, ghost fromNs: nat)
      requires Valid() && Ordered(l) && CaughtUp(l, n, tsMs) && Agrees(View(), l[..n], g)
      ensures !r.SidecarError?
      ensures r.Frame? ==> r.bmp == FrameSpec(l, tsMs, g) && r.effMs == if tsMs >= lastPaintMs then lastPaintMs else tsMs
      ensures r.Frame? ==> ShowsLedger(r.bmp, l, (tsMs + 1) * 1_000_000, g)
      ensures r.TooBroad? <==>
              tsMs < lastPaintMs && 50 * 4000 <= CountBefore(l, (tsMs + 1) * 1_000_000) - CountBefore(l, fromNs)
      ensures tsMs < lastPaintMs ==> NewestStart(ag.grid, sidecar != null, tsMs, fromNs)
    {
      hide CanvasBefore, CountBefore, Ordered, Fold, CaughtUp, NewestStart, CollisionFree, AnchorGrid.Valid, Agrees, ShowsLedger;
      CanvasShows(l, (tsMs + 1) * NS_PER_MS, g);
      if tsMs >= lastPaintMs {
        StandingFrame(View(), l, n, tsMs, g);
        return Frame(bmp, lastPaintMs), 0;
      }
      var start, from := SeekStart(l, tsMs, n);
      if start.None? {
        return SidecarError, from;
      }
      r := FoldFrame(l, start.value, from, tsMs);
      fromNs := from;
    }
  }

  lemma NoPrefix<T>(a: seq<T>, b: seq<T>)
    ensures a + b == b ==> a == []
  {
    if a + b == b {
      assert |a + b| == |b|;
    }
  }

  /** The starting point of a seek: the newest checkpoint not after it, in memory before the sidecar, or the
      beginning of time when there is none. */
  ghost predicate NewestStart(gr: Grid, spills: bool, tsMs: nat, fromNs: nat) {
    && (forall c :: c in gr.window && c.tsMs <= tsMs ==> c.tsMs * NS_PER_MS <= fromNs)
    && (spills && (forall c :: c in gr.window ==> tsMs < c.tsMs) ==>
          forall c :: c in gr.spilled && c.tsMs <= tsMs ==> c.tsMs * NS_PER_MS <= fromNs)
    && (fromNs == 0
        || exists c :: (c in gr.window || (spills && c in gr.spilled)) && c.tsMs <= tsMs && fromNs == c.tsMs * NS_PER_MS)
  }
}
