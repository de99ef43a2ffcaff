/** The derived cache as a value: what boot, change delivery and history seeks do to it, and why
    each of them agrees with the ledger. The class in Service.dfy is proved against these. */
module History {
  import opened Canvas
  import opened Checkpoints

  datatype Cache = Cache(bmp: Bitmap, grid: Grid, warmTs: nat, firstMs: nat, lastMs: nat)

  function EmptyCache(g: Size): Cache {
    Cache(Blank(g), EMPTY_GRID, 0, 0, 0)
  }

  function NotePaint(c: Cache, ms: nat): Cache {
    c.(firstMs := if c.firstMs == 0 || ms < c.firstMs then ms else c.firstMs,
       lastMs := if ms > c.lastMs then ms else c.lastMs)
  }

  /** Boot's callback: advance the grid, paint, widen the bounds, move the watermark. */
  ghost function FoldOne(c: Cache, t: Transfer, g: Size): Cache
    requires |c.bmp| == g.Cells()
    ensures |FoldOne(c, t, g).bmp| == g.Cells()
  {
    var synced := c.(grid := SyncTo(c.grid, t.timestamp, c.bmp));
    var painted := if Paints(t, g) then NotePaint(synced, t.timestamp / NS_PER_MS) else synced;
    painted.(bmp := Apply(c.bmp, t, g), warmTs := t.timestamp)
  }

  ghost function FoldAll(c: Cache, ts: seq<Transfer>, g: Size): (r: Cache)
    requires |c.bmp| == g.Cells()
    ensures |r.bmp| == g.Cells()
  {
    if ts == [] then c else FoldOne(FoldAll(c, ts[..|ts| - 1], g), ts[|ts| - 1], g)
  }

  ghost function Filled(c: Cache, nowMs: nat): Cache {
    c.(grid := FillTo(c.grid, nowMs, c.bmp))
  }

  /** A full replay at wall clock `nowMs`. */
  ghost function Warm(l: seq<Transfer>, nowMs: nat, g: Size): Cache {
    Filled(FoldAll(EmptyCache(g), l, g), nowMs)
  }

  /** A boot from a saved cache plus the transfers after its watermark. */
  ghost function Resume(c: Cache, l: seq<Transfer>, nowMs: nat, g: Size): Cache
    requires |c.bmp| == g.Cells()
  {
    Filled(FoldAll(c, l[CountBefore(l, c.warmTs + 1)..], g), nowMs)
  }

  /** What a snapshot file holds of a cache: the spilled checkpoints are in the sidecar, not in it. */
  ghost function Unspilled(c: Cache): Cache {
    c.(grid := c.grid.(spilled := []))
  }

  /** The cache with older spilled checkpoints put before its own. */
  ghost function Respilled(pre: seq<Checkpoint>, c: Cache): Cache {
    c.(grid := c.grid.(spilled := pre + c.grid.spilled))
  }

  // ---- What agreeing with the ledger means ----

  /** From instant `ns` on the ledger's canvas no longer differs from `bmp`. */
  ghost predicate SettledFrom(l: seq<Transfer>, bmp: Bitmap, ns: nat, g: Size) {
    forall t: nat :: ns <= t ==> CanvasBefore(l, t, g) == bmp
  }

  ghost predicate PaintsBefore(l: seq<Transfer>, ns: nat, g: Size) {
    forall t :: t in l && Paints(t, g) ==> t.timestamp < ns
  }

  ghost predicate CheckpointsAgree(cs: seq<Checkpoint>, l: seq<Transfer>, g: Size) {
    forall i :: 0 <= i < |cs| ==> cs[i].bmp == CanvasBefore(l, cs[i].tsMs * NS_PER_MS, g)
  }

  ghost predicate BoundariesPast(gr: Grid) {
    forall i :: 0 <= i < |gr.All()| ==> gr.All()[i].tsMs + INTERVAL_MS <= gr.next
  }

  /** Every part of the cache says what the ledger says: the bitmap is the fold of it all, each
      checkpoint ever recorded is the fold up to its boundary, and nothing visible happened after
      the watermark, after the newest paint bound, or at or after the next boundary. */
  ghost predicate Agrees(c: Cache, l: seq<Transfer>, g: Size) {
    && c.bmp == Fold(Blank(g), l, g)
    && AtRest(c.grid) && BoundariesPast(c.grid)
    && CheckpointsAgree(c.grid.All(), l, g)
    && PaintsBefore(l, c.grid.next * NS_PER_MS, g)
    && SettledFrom(l, c.bmp, (c.lastMs + 1) * NS_PER_MS, g)
    && SettledFrom(l, c.bmp, c.warmTs + 1, g)
  }

  /** The newest recorded boundary is not after instant `ns`. */
  predicate NotOlder(c: Cache, ns: nat) {
    c.grid.next <= ns / NS_PER_MS + INTERVAL_MS
  }

  ghost predicate Follows(l: seq<Transfer>, t: Transfer) {
    forall u :: u in l ==> u.timestamp < t.timestamp
  }

  lemma SettledAfterPaints(l: seq<Transfer>, ns: nat, g: Size)
    requires PaintsBefore(l, ns, g)
    ensures SettledFrom(l, Fold(Blank(g), l, g), ns, g)
  {
    forall t: nat | ns <= t ensures CanvasBefore(l, t, g) == Fold(Blank(g), l, g) {
      QuietAfter(l, ns, t, g);
    }
  }

  lemma CanvasAppend(l: seq<Transfer>, t: Transfer, ns: nat, g: Size)
    ensures CanvasBefore(l + [t], ns, g)
            == if t.timestamp < ns then Apply(CanvasBefore(l, ns, g), t, g) else CanvasBefore(l, ns, g)
    ensures Fold(Blank(g), l + [t], g) == Apply(Fold(Blank(g), l, g), t, g)
  {
    assert (l + [t])[..|l|] == l;
  }

  lemma SettledAppend(l: seq<Transfer>, bmp: Bitmap, ns: nat, t: Transfer, later: nat, g: Size)
    requires |bmp| == g.Cells() && SettledFrom(l, bmp, ns, g)
    requires ns <= later && (t.timestamp < later || Apply(bmp, t, g) == bmp)
    ensures SettledFrom(l + [t], Apply(bmp, t, g), later, g)
  {
    forall u: nat | later <= u ensures CanvasBefore(l + [t], u, g) == Apply(bmp, t, g) {
      CanvasAppend(l, t, u, g);
    }
  }

  /** A transfer no older than a checkpoint leaves it agreeing. */
  lemma CheckpointsAppend(cs: seq<Checkpoint>, l: seq<Transfer>, t: Transfer, g: Size)
    requires CheckpointsAgree(cs, l, g)
    requires forall i :: 0 <= i < |cs| && Paints(t, g) ==> cs[i].tsMs * NS_PER_MS <= t.timestamp
    ensures CheckpointsAgree(cs, l + [t], g)
  {
    forall i | 0 <= i < |cs| ensures cs[i].bmp == CanvasBefore(l + [t], cs[i].tsMs * NS_PER_MS, g) {
      CanvasAppend(l, t, cs[i].tsMs * NS_PER_MS, g);
    }
  }

  /** Recording boundaries at or after `next` with the standing bitmap keeps every checkpoint true. */
  lemma AdvanceAgrees(gr: Grid, l: seq<Transfer>, ms: nat, bmp: Bitmap, g: Size)
    requires WellFormed(gr) && CheckpointsAgree(gr.All(), l, g) && BoundariesPast(gr)
    requires SettledFrom(l, bmp, gr.next * NS_PER_MS, g)
    ensures CheckpointsAgree(Advance(gr, ms, bmp).All(), l, g) && BoundariesPast(Advance(gr, ms, bmp))
  {
    AdvanceRecords(gr, ms, bmp);
    var r := Advance(gr, ms, bmp);
    forall i | 0 <= i < |r.All()| ensures r.All()[i].bmp == CanvasBefore(l, r.All()[i].tsMs * NS_PER_MS, g) {
      if i < |gr.All()| {
        assert r.All()[i] == gr.All()[i];
      }
    }
  }

  lemma SyncAgrees(c: Cache, l: seq<Transfer>, ns: nat, g: Size)
    requires Agrees(c, l, g)
    ensures var r := SyncTo(c.grid, ns, c.bmp);
            && AtRest(r) && ns < r.next * NS_PER_MS && c.grid.next <= r.next
            && CheckpointsAgree(r.All(), l, g) && BoundariesPast(r)
            && (c.grid.next == r.next || r.next <= ns / NS_PER_MS + INTERVAL_MS)
  {
    var ms := ns / NS_PER_MS;
    SyncRests(c.grid, ns, c.bmp);
    SettledAfterPaints(l, c.grid.next * NS_PER_MS, g);
    AdvanceRecords(Start(c.grid, ms), ms, c.bmp);
    AdvanceAgrees(Start(c.grid, ms), l, ms, c.bmp, g);
  }

  lemma AgreesSize(c: Cache, l: seq<Transfer>, g: Size)
    requires Agrees(c, l, g)
    ensures |c.bmp| == g.Cells()
  {}

  // ---- Boot ----

  /** One transfer of the ledger, newer than all before it and no older than the newest boundary. */
  lemma FoldOneAgrees(c: Cache, l: seq<Transfer>, t: Transfer, g: Size)
    requires Agrees(c, l, g) && Follows(l, t) && NotOlder(c, t.timestamp) && c.warmTs <= t.timestamp
    ensures Agrees(FoldOne(c, t, g), l + [t], g)
    ensures forall ns :: t.timestamp <= ns ==> NotOlder(FoldOne(c, t, g), ns)
    ensures FoldOne(c, t, g).grid.next > 0
  {
    var r := FoldOne(c, t, g);
    SyncAgrees(c, l, t.timestamp, g);
    CanvasAppend(l, t, 0, g);
    CheckpointsAppend(r.grid.All(), l, t, g);
    SettledAppend(l, c.bmp, (c.lastMs + 1) * NS_PER_MS, t, (r.lastMs + 1) * NS_PER_MS, g);
    SettledAppend(l, c.bmp, c.warmTs + 1, t, t.timestamp + 1, g);
  }

  lemma LastFollows(l: seq<Transfer>, t: Transfer)
    requires Ordered(l + [t])
    ensures Ordered(l) && Follows(l, t)
  {
    assert forall i :: 0 <= i < |l| ==> (l + [t])[i] == l[i];
    assert (l + [t])[|l|] == t;
  }

  lemma {:induction false} FoldAllAgrees(c: Cache, l: seq<Transfer>, d: seq<Transfer>, g: Size)
    requires Agrees(c, l, g) && Ordered(l + d)
    requires d != [] ==> NotOlder(c, d[0].timestamp) && c.warmTs <= d[0].timestamp
    ensures var r := FoldAll(c, d, g);
            && Agrees(r, l + d, g)
            && (d == [] ==> r == c)
            && (d != [] ==> r.warmTs == d[|d| - 1].timestamp && r.grid.next > 0
                            && forall ns :: d[|d| - 1].timestamp <= ns ==> NotOlder(r, ns))
  {
    if d == [] {
      assert l + d == l;
    } else {
      var init, t := d[..|d| - 1], d[|d| - 1];
      assert l + d == (l + init) + [t];
      LastFollows(l + init, t);
      FoldAllAgrees(c, l, init, g);
      FoldOneAgrees(FoldAll(c, init, g), l + init, t, g);
    }
  }

  lemma EmptyAgrees(g: Size)
    ensures Agrees(EmptyCache(g), [], g)
  {}

  lemma FillAgrees(c: Cache, l: seq<Transfer>, nowMs: nat, g: Size)
    requires Agrees(c, l, g)
    ensures Agrees(Filled(c, nowMs), l, g)
  {
    FillRests(c.grid, nowMs, c.bmp);
    if c.grid.next != 0 {
      SettledAfterPaints(l, c.grid.next * NS_PER_MS, g);
      AdvanceRecords(c.grid, nowMs, c.bmp);
      AdvanceAgrees(c.grid, l, nowMs, c.bmp, g);
    }
  }

  /** A full replay agrees with the ledger it replayed, whatever the clock says. */
  lemma WarmAgrees(l: seq<Transfer>, nowMs: nat, g: Size)
    requires Ordered(l)
    ensures Agrees(Warm(l, nowMs, g), l, g)
  {
    EmptyAgrees(g);
    assert [] + l == l;
    FoldAllAgrees(EmptyCache(g), [], l, g);
    FillAgrees(FoldAll(EmptyCache(g), l, g), l, nowMs, g);
  }

  lemma {:induction false} FoldAllSpaced(c: Cache, ts: seq<Transfer>, g: Size)
    requires |c.bmp| == g.Cells() && AtRest(c.grid) && Spaced(c.grid.All())
    ensures AtRest(FoldAll(c, ts, g).grid) && Spaced(FoldAll(c, ts, g).grid.All())
  {
    hide Spaced, WithinCaps, SyncTo, Apply;
    if ts != [] {
      var init := FoldAll(c, ts[..|ts| - 1], g);
      FoldAllSpaced(c, ts[..|ts| - 1], g);
      SyncRests(init.grid, ts[|ts| - 1].timestamp, init.bmp);
    }
  }

  /** A replayed timeline has every boundary from its first to its last once, in order, a minute apart. */
  lemma WarmSpaced(l: seq<Transfer>, nowMs: nat, g: Size)
    ensures Spaced(Warm(l, nowMs, g).grid.All())
  {
    hide Spaced, WithinCaps, FoldAll;
    NothingSpaced();
    assert EMPTY_GRID.All() == [];
    FoldAllSpaced(EmptyCache(g), l, g);
    var c := FoldAll(EmptyCache(g), l, g);
    FillRests(c.grid, nowMs, c.bmp);
  }

  /** A transfer the cache has seen but whose stamp lies above the watermark changed nothing. */
  lemma AboveWatermarkIsNoOp(c: Cache, l: seq<Transfer>, t: Transfer, g: Size)
    requires Agrees(c, l, g) && Ordered(l) && t in l && c.warmTs < t.timestamp
    ensures Apply(c.bmp, t, g) == c.bmp
  {
    hide CanvasBefore, Fold, AtRest, CheckpointsAgree, PaintsBefore, BoundariesPast, Ordered;
    var i :| 0 <= i < |l| && l[i] == t;
    CanvasSteps(l, i, g);
    assert CanvasBefore(l, t.timestamp + 1, g) == c.bmp;
    assert CanvasBefore(l, t.timestamp, g) == c.bmp;
  }

  /** Folding such a transfer again keeps the agreement. */
  lemma RefoldAgrees(c: Cache, l: seq<Transfer>, t: Transfer, g: Size)
    requires Agrees(c, l, g) && Ordered(l) && t in l && c.warmTs < t.timestamp
    ensures |c.bmp| == g.Cells() && Agrees(FoldOne(c, t, g), l, g) && FoldOne(c, t, g).warmTs == t.timestamp
    ensures forall ns :: t.timestamp <= ns && NotOlder(c, ns) ==> NotOlder(FoldOne(c, t, g), ns)
  {
    AboveWatermarkIsNoOp(c, l, t, g);
    SyncAgrees(c, l, t.timestamp, g);
  }

  lemma {:induction false} RefoldAllAgrees(c: Cache, l: seq<Transfer>, k: nat, n: nat, g: Size)
    requires Agrees(c, l, g) && Ordered(l) && k <= n <= |l|
    requires forall i :: k <= i < n ==> c.warmTs < l[i].timestamp
    ensures var r := FoldAll(c, l[k..n], g);
            && Agrees(r, l, g)
            && (r.warmTs == if k < n then l[n - 1].timestamp else c.warmTs)
            && forall ns :: NotOlder(c, ns) && (k < n ==> l[n - 1].timestamp <= ns) ==> NotOlder(r, ns)
  {
    hide Agrees, FoldOne;
    AgreesSize(c, l, g);
    if k < n {
      RefoldAllAgrees(c, l, k, n - 1, g);
      assert l[k..n][..n - 1 - k] == l[k..n - 1];
      RefoldAgrees(FoldAll(c, l[k..n - 1], g), l, l[n - 1], g);
    }
  }

  lemma {:induction false} FoldAllConcat(c: Cache, s: seq<Transfer>, t: seq<Transfer>, g: Size)
    requires |c.bmp| == g.Cells()
    ensures FoldAll(c, s + t, g) == FoldAll(FoldAll(c, s, g), t, g)
  {
    if t == [] {
      assert s + t == s;
    } else {
      FoldAllConcat(c, s, t[..|t| - 1], g);
      assert (s + t)[..|s + t| - 1] == s + t[..|t| - 1];
    }
  }

  lemma CatchUpAgrees(c: Cache, l: seq<Transfer>, k: nat, n: nat, g: Size)
    requires Ordered(l) && k <= n <= |l| && Agrees(c, l[..n], g)
    requires forall i :: k <= i < n ==> c.warmTs < l[i].timestamp
    requires n < |l| ==> c.warmTs < l[n].timestamp && NotOlder(c, l[n].timestamp)
    ensures |c.bmp| == g.Cells() && Agrees(FoldAll(c, l[k..], g), l, g)
    ensures FoldAll(c, l[k..], g).warmTs == if k < |l| then l[|l| - 1].timestamp else c.warmTs
    ensures forall ns :: NotOlder(c, ns) && (k < |l| ==> l[|l| - 1].timestamp <= ns) ==> NotOlder(FoldAll(c, l[k..], g), ns)
  {
    hide Agrees, FoldAll, NotOlder, CanvasBefore, Fold, Ordered;
    var again := l[k..n];
    OrderedPrefix(l, n);
    Slices(l, k, n);
    RefoldAllAgrees(c, l[..n], k, n, g);
    AgreesSize(c, l[..n], g);
    var r := FoldAll(c, again, g);
    assert k < n < |l| ==> r.warmTs < l[n].timestamp by {
      Rising(l, k, n);
    }
    FoldAllAgrees(r, l[..n], l[n..], g);
    FoldAllConcat(c, again, l[n..], g);
  }

  lemma Slices(l: seq<Transfer>, k: nat, n: nat)
    requires k <= n <= |l|
    ensures l[..n][k..n] == l[k..n] && l[..n] + l[n..] == l && l[k..n] + l[n..] == l[k..]
  {}

  lemma Rising(l: seq<Transfer>, k: nat, n: nat)
    requires Ordered(l) && k <= n
    ensures k < n < |l| ==> l[n - 1].timestamp < l[n].timestamp
  {}

  lemma {:induction false} FoldAllBitmap(c: Cache, ts: seq<Transfer>, g: Size)
    requires |c.bmp| == g.Cells()
    ensures FoldAll(c, ts, g).bmp == Fold(c.bmp, ts, g)
  {
    if ts != [] {
      FoldAllBitmap(c, ts[..|ts| - 1], g);
    }
  }

  /** A started grid stays started. */
  lemma {:induction false} FoldAllStarted(c: Cache, ts: seq<Transfer>, g: Size)
    requires |c.bmp| == g.Cells() && AtRest(c.grid) && c.grid.next > 0
    ensures AtRest(FoldAll(c, ts, g).grid) && FoldAll(c, ts, g).grid.next > 0
  {
    if ts != [] {
      var init := FoldAll(c, ts[..|ts| - 1], g);
      FoldAllStarted(c, ts[..|ts| - 1], g);
      SyncRests(init.grid, ts[|ts| - 1].timestamp, init.bmp);
    }
  }

  lemma ResumeStarted(c: Cache, l: seq<Transfer>, nowMs: nat, g: Size)
    requires |c.bmp| == g.Cells() && AtRest(c.grid) && c.grid.next > 0
    ensures Resume(c, l, nowMs, g).grid.window != []
  {
    hide FoldAll, CountBefore, Spaced, WithinCaps, Advance;
    var r := FoldAll(c, l[CountBefore(l, c.warmTs + 1)..], g);
    FoldAllStarted(c, l[CountBefore(l, c.warmTs + 1)..], g);
    FillRests(r.grid, nowMs, r.bmp);
    AdvanceRecords(r.grid, nowMs, r.bmp);
  }

  /** A boot from the snapshot of any agreeing cache, then the transfers above its watermark, agrees
      with the whole ledger: the first `n` transfers are those the saved cache had seen. */
  lemma ResumeAgrees(c: Cache, l: seq<Transfer>, n: nat, nowMs: nat, g: Size)
    requires Ordered(l) && n <= |l| && Agrees(c, l[..n], g)
    requires forall i :: n <= i < |l| ==> c.warmTs < l[i].timestamp && NotOlder(c, l[i].timestamp)
    ensures Agrees(Resume(c, l, nowMs, g), l, g)
    ensures forall ns :: NotOlder(c, ns) && FilledBefore(nowMs, ns) && (|l| > 0 ==> l[|l| - 1].timestamp <= ns) ==>
                           NotOlder(Resume(c, l, nowMs, g), ns)
    ensures Resume(c, l, nowMs, g).warmTs == if |l| > 0 && c.warmTs < l[|l| - 1].timestamp then l[|l| - 1].timestamp else c.warmTs
  {
    hide Agrees, FoldAll, FillTo, CountBefore, NotOlder, FilledBefore;
    var k := CountBefore(l, c.warmTs + 1);
    CountBeforeSplits(l, c.warmTs + 1);
    assert n < |l| ==> c.warmTs < l[n].timestamp;
    assert k <= n;
    AgreesSize(c, l[..n], g);
    CatchUpAgrees(c, l, k, n, g);
    FillAgrees(FoldAll(c, l[k..], g), l, nowMs, g);
    forall ns | NotOlder(c, ns) && FilledBefore(nowMs, ns) && (|l| > 0 ==> l[|l| - 1].timestamp <= ns)
      ensures NotOlder(Resume(c, l, nowMs, g), ns)
    {
      FillNotOlder(FoldAll(c, l[k..], g), l, nowMs, ns, g);
    }
  }

  /** The last full minute of clock `nowMs` is not after instant `ns`. */
  predicate FilledBefore(nowMs: nat, ns: nat) {
    nowMs / INTERVAL_MS * INTERVAL_MS <= ns / NS_PER_MS
  }

  lemma FillNotOlder(c: Cache, l: seq<Transfer>, nowMs: nat, ns: nat, g: Size)
    requires Agrees(c, l, g) && NotOlder(c, ns) && FilledBefore(nowMs, ns)
    ensures NotOlder(Filled(c, nowMs), ns) && Filled(c, nowMs).warmTs == c.warmTs
  {
    hide CheckpointsAgree, PaintsBefore, SettledFrom, WithinCaps, Spaced, Fold, Advance;
    if c.grid.next != 0 {
      AdvanceRecords(c.grid, nowMs, c.bmp);
    }
  }

  // ---- A boot beside a sidecar that is ahead of the snapshot ----

  /** A recorded boundary never lies beyond what a boot from the snapshot reaches. */
  ghost predicate AllBefore(pre: seq<Checkpoint>, next: nat) {
    forall i :: 0 <= i < |pre| ==> pre[i].tsMs + INTERVAL_MS <= next
  }

  /** A boot from a snapshot agrees with the ledger whatever the sidecar holds, more or less than the
      saving run had spilled, as long as each of its checkpoints agrees and lies before the boundary
      the boot reaches. */
  lemma SnapshotBootAgrees(saved: Cache, pre: seq<Checkpoint>, l: seq<Transfer>, n: nat, nowMs: nat, g: Size)
    requires Ordered(l) && n <= |l| && Agrees(saved, l[..n], g) && saved.grid.window != []
    requires forall i :: n <= i < |l| ==> saved.warmTs < l[i].timestamp && NotOlder(saved, l[i].timestamp)
    requires CheckpointsAgree(pre, l, g)
    requires |saved.bmp| == g.Cells() ==> AllBefore(pre, Resume(Unspilled(saved), l, nowMs, g).grid.next)
    ensures |saved.bmp| == g.Cells() && Agrees(Respilled(pre, Resume(Unspilled(saved), l, nowMs, g)), l, g)
  {
    hide FoldAll, Filled, CountBefore, FilledBefore, CanvasBefore, Fold, Resume, SettledFrom, PaintsBefore, Spaced, WithinCaps;
    var c := Unspilled(saved);
    UnspilledAgrees(saved, l[..n], g);
    ResumeAgrees(c, l, n, nowMs, g);
    ResumeStarted(c, l, nowMs, g);
    RespilledAgrees(pre, Resume(c, l, nowMs, g), l, g);
  }

  lemma UnspilledAgrees(c: Cache, l: seq<Transfer>, g: Size)
    requires Agrees(c, l, g)
    ensures Agrees(Unspilled(c), l, g)
  {
    hide CanvasBefore, Fold, SettledFrom, PaintsBefore, Spaced, WithinCaps, CheckpointsAgree, BoundariesPast;
    WindowAgrees(c.grid, l, g);
  }

  lemma WindowAgrees(gr: Grid, l: seq<Transfer>, g: Size)
    requires CheckpointsAgree(gr.All(), l, g) && BoundariesPast(gr)
    ensures CheckpointsAgree(gr.(spilled := []).All(), l, g) && BoundariesPast(gr.(spilled := []))
  {
    hide CanvasBefore;
    var w := gr.(spilled := []).All();
    assert forall i :: 0 <= i < |w| ==> w[i] == gr.All()[|gr.spilled| + i];
  }

  lemma RespilledAgrees(pre: seq<Checkpoint>, c: Cache, l: seq<Transfer>, g: Size)
    requires Agrees(c, l, g) && c.grid.window != [] && CheckpointsAgree(pre, l, g) && AllBefore(pre, c.grid.next)
    ensures Agrees(Respilled(pre, c), l, g)
  {
    hide CanvasBefore, Fold, SettledFrom, PaintsBefore, Spaced, WithinCaps;
    var all := Respilled(pre, c).grid.All();
    assert all == pre + c.grid.All();
  }

  /** A boot never goes back before the boundary `next` of an earlier run: it was the snapshot's, or an
      event after the snapshot's watermark had reached it, or the clock had. */
  lemma BootReaches(c: Cache, l: seq<Transfer>, nowMs: nat, next: nat, g: Size)
    requires |c.bmp| == g.Cells() && AtRest(c.grid) && c.grid.next > 0 && Ordered(l) && next % INTERVAL_MS == 0
    requires Reached(c, l, nowMs, next)
    ensures next <= Resume(c, l, nowMs, g).grid.next
  {
    hide FoldOne, Apply, Advance, WithinCaps, Spaced;
    var k := CountBefore(l, c.warmTs + 1);
    CountBeforeSplits(l, c.warmTs + 1);
    var d := l[k..];
    FoldAllStarted(c, d, g);
    var r := FoldAll(c, d, g);
    FoldAllReaches(c, d, g);
    AdvanceRecords(r.grid, nowMs, r.bmp);
    if i :| 0 <= i < |l| && c.warmTs < l[i].timestamp && next <= l[i].timestamp / NS_PER_MS + INTERVAL_MS {
      assert d[i - k] == l[i];
      NextMultiple(next, r.grid.next, l[i].timestamp / NS_PER_MS);
    }
    if next <= nowMs + INTERVAL_MS {
      NextMultiple(next, Resume(c, l, nowMs, g).grid.next, nowMs);
    }
  }

  ghost predicate Reached(c: Cache, l: seq<Transfer>, nowMs: nat, next: nat) {
    || next <= c.grid.next
    || next <= nowMs + INTERVAL_MS
    || exists i :: 0 <= i < |l| && c.warmTs < l[i].timestamp && next <= l[i].timestamp / NS_PER_MS + INTERVAL_MS
  }

  lemma NextMultiple(a: nat, b: nat, ms: nat)
    requires a % INTERVAL_MS == 0 && b % INTERVAL_MS == 0 && a <= ms + INTERVAL_MS && ms < b
    ensures a <= b
  {}

  lemma {:induction false} FoldAllReaches(c: Cache, d: seq<Transfer>, g: Size)
    requires |c.bmp| == g.Cells() && AtRest(c.grid) && c.grid.next > 0
    ensures var r := FoldAll(c, d, g);
            c.grid.next <= r.grid.next && forall i :: 0 <= i < |d| ==> d[i].timestamp / NS_PER_MS < r.grid.next
  {
    hide WithinCaps, Spaced, Advance, Apply;
    if d != [] {
      var init, t := d[..|d| - 1], d[|d| - 1];
      FoldAllReaches(c, init, g);
      FoldAllStarted(c, init, g);
      var m := FoldAll(c, init, g);
      AdvanceRecords(m.grid, t.timestamp / NS_PER_MS, m.bmp);
      assert forall i :: 0 <= i < |init| ==> init[i] == d[i];
    }
  }

  // ---- Snapshot plus delta is the full replay ----

  lemma FoldOneRespilled(c: Cache, pre: seq<Checkpoint>, t: Transfer, g: Size)
    requires |c.bmp| == g.Cells()
    ensures FoldOne(Respilled(pre, c), t, g) == Respilled(pre, FoldOne(c, t, g))
  {
    var ms := t.timestamp / NS_PER_MS;
    SpilledIrrelevant(Start(c.grid, ms), pre, ms, c.bmp);
  }

  lemma {:induction false} FoldAllRespilled(c: Cache, pre: seq<Checkpoint>, ts: seq<Transfer>, g: Size)
    requires |c.bmp| == g.Cells()
    ensures FoldAll(Respilled(pre, c), ts, g) == Respilled(pre, FoldAll(c, ts, g))
  {
    if ts != [] {
      FoldAllRespilled(c, pre, ts[..|ts| - 1], g);
      FoldOneRespilled(FoldAll(c, ts[..|ts| - 1], g), pre, ts[|ts| - 1], g);
    }
  }

  lemma ResumeRespilled(c: Cache, pre: seq<Checkpoint>, l: seq<Transfer>, nowMs: nat, g: Size)
    requires |c.bmp| == g.Cells()
    ensures Resume(Respilled(pre, c), l, nowMs, g) == Respilled(pre, Resume(c, l, nowMs, g))
  {
    var d := l[CountBefore(l, c.warmTs + 1)..];
    FoldAllRespilled(c, pre, d, g);
    SpilledIrrelevant(FoldAll(c, d, g).grid, pre, nowMs, FoldAll(c, d, g).bmp);
  }

  /** Boundaries filled in before a transfer they are not newer than are the ones it would record. */
  lemma FillThenFold(c: Cache, nowMs: nat, t: Transfer, g: Size)
    requires |c.bmp| == g.Cells() && AtRest(c.grid) && c.grid.next > 0
    requires NotOlder(Filled(c, nowMs), t.timestamp)
    ensures FoldOne(Filled(c, nowMs), t, g) == FoldOne(c, t, g)
  {
    AdvanceRecords(c.grid, nowMs, c.bmp);
    AdvanceTwice(c.grid, nowMs, t.timestamp / NS_PER_MS, c.bmp);
  }

  lemma FillThenFoldAll(c: Cache, nowMs: nat, d: seq<Transfer>, g: Size)
    requires |c.bmp| == g.Cells() && AtRest(c.grid) && c.grid.next > 0
    requires d != [] && NotOlder(Filled(c, nowMs), d[0].timestamp)
    ensures FoldAll(Filled(c, nowMs), d, g) == FoldAll(c, d, g)
  {
    var head := [d[0]];
    assert d == head + d[1..] && head[..0] == [];
    FoldAllConcat(Filled(c, nowMs), head, d[1..], g);
    FoldAllConcat(c, head, d[1..], g);
    FillThenFold(c, nowMs, d[0], g);
    assert FoldAll(c, head, g) == FoldOne(FoldAll(c, head[..0], g), d[0], g);
    assert FoldAll(Filled(c, nowMs), head, g) == FoldOne(FoldAll(Filled(c, nowMs), head[..0], g), d[0], g);
  }

  lemma FillTwice(c: Cache, earlier: nat, later: nat)
    requires AtRest(c.grid) && earlier <= later
    ensures Filled(Filled(c, earlier), later) == Filled(c, later)
  {
    if c.grid.next != 0 {
      AdvanceRecords(c.grid, earlier, c.bmp);
      AdvanceTwice(c.grid, earlier, later, c.bmp);
    }
  }

  /** Replaying a prefix, saving, and booting from that with the rest gives the state a full replay
      gives: the same bitmap, window, next boundary, bounds and watermark, and the checkpoints the
      first run spilled followed by those the second spilled are the ones a full replay spills. */
  lemma SnapshotPlusDeltaIsReplay(p: seq<Transfer>, d: seq<Transfer>, saveMs: nat, nowMs: nat, g: Size)
    requires Ordered(p + d) && p != []
    requires if d == [] then saveMs <= nowMs else NotOlder(Warm(p, saveMs, g), d[0].timestamp)
    ensures var saved := Warm(p, saveMs, g);
            Respilled(saved.grid.spilled, Resume(Unspilled(saved), p + d, nowMs, g)) == Warm(p + d, nowMs, g)
  {
    hide Fold, CountBefore, CanvasBefore, FoldOne, Agrees, Advance;
    var c := FoldAll(EmptyCache(g), p, g);
    var saved := Warm(p, saveMs, g);
    OrderedPrefix(p + d, |p|);
    assert (p + d)[..|p|] == p;
    ReplayRests(p, g);
    FillRests(c.grid, saveMs, c.bmp);
    CountAfter(p + d, |p| - 1);
    assert (p + d)[|p|..] == d;
    var loaded := Unspilled(saved);
    assert saved.grid.spilled + [] == saved.grid.spilled;
    assert Respilled(saved.grid.spilled, loaded) == saved;
    ResumeRespilled(loaded, saved.grid.spilled, p + d, nowMs, g);
    FoldAllConcat(EmptyCache(g), p, d, g);
    if d == [] {
      assert p + d == p;
      FillTwice(c, saveMs, nowMs);
    } else {
      FillThenFoldAll(c, saveMs, d, g);
    }
  }

  lemma ReplayRests(p: seq<Transfer>, g: Size)
    requires Ordered(p) && p != []
    ensures var c := FoldAll(EmptyCache(g), p, g);
            AtRest(c.grid) && c.grid.next > 0 && c.warmTs == p[|p| - 1].timestamp
  {
    EmptyAgrees(g);
    hide CanvasBefore, Fold, FoldAll;
    assert [] + p == p;
    FoldAllAgrees(EmptyCache(g), [], p, g);
  }

  // ---- History seeks ----

  /** The frame at `tsMs`: every posted claim stamped up to and including that millisecond. */
  function FrameSpec(l: seq<Transfer>, tsMs: nat, g: Size): Bitmap {
    CanvasBefore(l, (tsMs + 1) * NS_PER_MS, g)
  }

  /** The first `n` transfers are all of the ledger up to and including millisecond `tsMs`. */
  ghost predicate CaughtUp(l: seq<Transfer>, n: nat, tsMs: nat) {
    n <= |l| && forall i :: n <= i < |l| ==> (tsMs + 1) * NS_PER_MS <= l[i].timestamp
  }

  lemma CaughtUpCanvas(l: seq<Transfer>, n: nat, tsMs: nat, ns: nat, g: Size)
    requires CaughtUp(l, n, tsMs) && ns <= (tsMs + 1) * NS_PER_MS
    ensures CanvasBefore(l, ns, g) == CanvasBefore(l[..n], ns, g)
  {
    assert l == l[..n] + l[n..];
    LaterTransfersInvisible(l[..n], l[n..], ns, g);
  }

  /** At or after the newest paint bound the standing bitmap is the frame. */
  lemma StandingFrame(c: Cache, l: seq<Transfer>, n: nat, tsMs: nat, g: Size)
    requires CaughtUp(l, n, tsMs) && Agrees(c, l[..n], g) && c.lastMs <= tsMs
    ensures c.bmp == FrameSpec(l, tsMs, g)
  {
    CaughtUpCanvas(l, n, tsMs, (tsMs + 1) * NS_PER_MS, g);
  }

  /** Any recorded checkpoint not after the frame is the ledger's canvas at its boundary. */
  lemma CheckpointFrame(c: Cache, l: seq<Transfer>, n: nat, tsMs: nat, at: Checkpoint, g: Size)
    requires CaughtUp(l, n, tsMs) && Agrees(c, l[..n], g)
    requires (at in c.grid.window || at in c.grid.spilled) && at.tsMs <= tsMs
    ensures at.bmp == CanvasBefore(l, at.tsMs * NS_PER_MS, g)
  {
    assert at in c.grid.All();
    CaughtUpCanvas(l, n, tsMs, at.tsMs * NS_PER_MS, g);
  }

  lemma {:induction false} BlankBeforeZero(l: seq<Transfer>, g: Size)
    ensures CanvasBefore(l, 0, g) == Blank(g)
  {
    if l != [] {
      BlankBeforeZero(l[..|l| - 1], g);
    }
  }
}
