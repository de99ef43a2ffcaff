/** Whole lives of a server over one ledger: boots, deliveries, snapshots and crashes in any order. */
module Recovery {
  import opened Canvas
  import opened Checkpoints
  import opened History
  import opened ChangeStream

  /** What a snapshot file holds, with how much of the ledger the saving server had taken in. */
  datatype SnapshotOf = SnapshotOf(cache: Cache, upTo: nat)

  /** A running server, the snapshot file if a readable one exists, and the clock of the last boot. What
      the sidecar holds is what the cache has spilled. */
  datatype World = World(k: Consumer, file: Option<SnapshotOf>, clock: nat)

  /** A crash may come at any point of any step: of what the server would have spilled by the step's end, the
      sidecar then holds the first `cut` records whole. The next process sees `m` transfers. */
  datatype Step =
    | Delivers(d: Delivery)
    | Saves
    | Restarts(m: nat, nowMs: nat, cut: nat, readable: bool)

  /** No transfer after the first `m` is older than the last full minute of the boot's clock. */
  ghost predicate Timely(l: seq<Transfer>, m: nat, nowMs: nat) {
    m <= |l| && forall i :: m <= i < |l| ==> 0 < l[i].timestamp && FilledBefore(nowMs, l[i].timestamp)
  }

  ghost predicate Enabled(w: World, step: Step, l: seq<Transfer>, g: Size) {
    match step
    case Delivers(d) => Deliverable(w.k.upTo, d, l, g)
    case Saves => w.k.cache.grid.window != []
    case Restarts(m, nowMs, cut, _) =>
      w.k.upTo <= m && w.clock <= nowMs && Timely(l, m, nowMs) && cut <= |w.k.cache.grid.spilled|
  }

  /** The cache a boot over the ledger `l` ends with. */
  ghost function BootedCache(file: Option<SnapshotOf>, log: seq<Checkpoint>, l: seq<Transfer>, nowMs: nat, g: Size): Cache
    requires file.Some? ==> |file.value.cache.bmp| == g.Cells()
  {
    if file.Some? then Respilled(log, Resume(Unspilled(file.value.cache), l, nowMs, g)) else Warm(l, nowMs, g)
  }

  ghost function Take(w: World, step: Step, l: seq<Transfer>, g: Size): World
    requires |w.k.cache.bmp| == g.Cells() && (w.file.Some? ==> |w.file.value.cache.bmp| == g.Cells())
    requires Enabled(w, step, l, g)
  {
    match step
    case Delivers(d) => w.(k := Deliver(w.k, d, l, g))
    case Saves => w.(file := Some(SnapshotOf(w.k.cache, w.k.upTo)))
    case Restarts(m, nowMs, cut, readable) =>
      var file := if readable then w.file else None;
      World(Consumer(BootedCache(file, w.k.cache.grid.spilled[..cut], l[..m], nowMs, g), {}, m, []), file, nowMs)
  }

  // ---- What holds between any two steps ----

  /** The snapshot is a true state of the ledger's first `upTo` transfers, and only they are at or
      before its watermark. */
  ghost predicate SnapshotAgrees(s: SnapshotOf, l: seq<Transfer>, g: Size) {
    && s.upTo <= |l| && Agrees(s.cache, l[..s.upTo], g) && s.cache.grid.window != []
    && forall i :: s.upTo <= i < |l| ==> s.cache.warmTs < l[i].timestamp && NotOlder(s.cache, l[i].timestamp)
  }

  /** The server's next boundary is one a boot from the snapshot would reach too. */
  ghost predicate Reaches(w: World, l: seq<Transfer>) {
    w.k.upTo <= |l| && (w.file.Some? ==> Reached(w.file.value.cache, l[..w.k.upTo], w.clock, w.k.cache.grid.next))
  }

  ghost predicate Sound(w: World, l: seq<Transfer>, g: Size) {
    && ConsumerAgrees(w.k, l, g)
    && (w.file.Some? ==> w.file.value.upTo <= w.k.upTo && SnapshotAgrees(w.file.value, l, g))
    && Reaches(w, l)
  }

  lemma SoundSizes(w: World, l: seq<Transfer>, g: Size)
    requires Sound(w, l, g)
    ensures |w.k.cache.bmp| == g.Cells() && (w.file.Some? ==> |w.file.value.cache.bmp| == g.Cells())
  {}

  // ---- Boots ----

  lemma {:induction false} ReplayWatermark(l: seq<Transfer>, g: Size)
    ensures FoldAll(EmptyCache(g), l, g).warmTs == if l == [] then 0 else l[|l| - 1].timestamp
  {
    hide Apply, SyncTo;
    if l != [] {
      ReplayWatermark(l[..|l| - 1], g);
    }
  }

  /** A freshly replayed server, connected with an empty memory, is where the ledger says. */
  lemma ReplayedConsumerAgrees(l: seq<Transfer>, m: nat, nowMs: nat, g: Size)
    requires CanvasLedger(l) && Timely(l, m, nowMs)
    ensures ConsumerAgrees(Consumer(Warm(l[..m], nowMs, g), {}, m, []), l, g)
  {
    hide Agrees, FoldAll, FilledBefore, FillTo;
    var p := l[..m];
    OrderedPrefix(l, m);
    WarmAgrees(p, nowMs, g);
    ReplayWatermark(p, g);
    forall i | m <= i < |l|
      ensures NotOlder(Warm(p, nowMs, g), l[i].timestamp)
    {
      EmptyAgrees(g);
      assert [] + p == p;
      FoldAllAgrees(EmptyCache(g), [], p, g);
      FillNotOlder(FoldAll(EmptyCache(g), p, g), p, nowMs, l[i].timestamp, g);
    }
  }

  /** A server booted from a snapshot beside any part of a running server's sidecar is where the ledger
      says, as far as the ledger reached at boot. */
  lemma ResumedConsumerAgrees(s: SnapshotOf, log: seq<Checkpoint>, l: seq<Transfer>, m: nat, nowMs: nat, g: Size)
    requires CanvasLedger(l) && Timely(l, m, nowMs) && s.upTo <= m && SnapshotAgrees(s, l, g)
    requires CheckpointsAgree(log, l[..m], g)
    requires |s.cache.bmp| == g.Cells() ==> AllBefore(log, Resume(Unspilled(s.cache), l[..m], nowMs, g).grid.next)
    ensures |s.cache.bmp| == g.Cells()
    ensures ConsumerAgrees(Consumer(Respilled(log, Resume(Unspilled(s.cache), l[..m], nowMs, g)), {}, m, []), l, g)
  {
    hide Agrees, Resume, FilledBefore, CheckpointsAgree, AllBefore, Reached;
    var p, c := l[..m], Unspilled(s.cache);
    OrderedPrefix(l, m);
    assert p[..s.upTo] == l[..s.upTo];
    AgreesSize(s.cache, p[..s.upTo], g);
    SnapshotBootAgrees(s.cache, log, p, s.upTo, nowMs, g);
    UnspilledAgrees(s.cache, p[..s.upTo], g);
    ResumeAgrees(c, p, s.upTo, nowMs, g);
  }

  // ---- Every step keeps it ----

  lemma DeliversKeeps(w: World, d: Delivery, l: seq<Transfer>, g: Size)
    requires CanvasLedger(l) && Sound(w, l, g) && Deliverable(w.k.upTo, d, l, g)
    ensures |w.k.cache.bmp| == g.Cells()
    ensures Sound(w.(k := Deliver(w.k, d, l, g)), l, g)
  {
    hide Agrees, ConsumerAgrees, SnapshotAgrees, CanvasLedger, Deliver, Reached;
    SoundSizes(w, l, g);
    DeliverAgrees(w.k, d, l, g);
    var r := Deliver(w.k, d, l, g);
    AgreedUpTo(r, l, g);
    if w.file.Some? {
      if d.Posting? && w.k.upTo <= d.i {
        SnapshotWatermark(w.file.value, l, d.i, g);
        ReachedByEvent(w.file.value.cache, l, d.i, w.clock, r.cache.grid.next);
      } else {
        assert r.upTo == w.k.upTo && r.cache == w.k.cache;
      }
    }
  }

  lemma AgreedUpTo(k: Consumer, l: seq<Transfer>, g: Size)
    requires ConsumerAgrees(k, l, g)
    ensures k.upTo <= |l| && Agrees(k.cache, l[..k.upTo], g)
  {}

  lemma SnapshotWatermark(s: SnapshotOf, l: seq<Transfer>, i: nat, g: Size)
    requires SnapshotAgrees(s, l, g) && s.upTo <= i < |l|
    ensures s.cache.warmTs < l[i].timestamp
  {}

  lemma ReachedByEvent(c: Cache, l: seq<Transfer>, i: nat, nowMs: nat, next: nat)
    requires i < |l| && c.warmTs < l[i].timestamp && next <= l[i].timestamp / NS_PER_MS + INTERVAL_MS
    ensures Reached(c, l[..i + 1], nowMs, next)
  {
    assert l[..i + 1][i] == l[i];
  }

  lemma SavesKeeps(w: World, l: seq<Transfer>, g: Size)
    requires Sound(w, l, g) && w.k.cache.grid.window != []
    ensures Sound(w.(file := Some(SnapshotOf(w.k.cache, w.k.upTo))), l, g)
  {
    hide Agrees;
  }

  /** Whatever part of it survives a crash, what a running server has written to the sidecar agrees with
      any longer ledger and lies before the boundary that the next boot from its snapshot reaches. */
  lemma SidecarUsable(w: World, l: seq<Transfer>, m: nat, nowMs: nat, cut: nat, g: Size)
    requires CanvasLedger(l) && Sound(w, l, g) && w.file.Some?
    requires w.k.upTo <= m <= |l| && w.clock <= nowMs && cut <= |w.k.cache.grid.spilled|
    ensures |w.file.value.cache.bmp| == g.Cells()
    ensures CheckpointsAgree(w.k.cache.grid.spilled[..cut], l[..m], g)
    ensures AllBefore(w.k.cache.grid.spilled[..cut], Resume(Unspilled(w.file.value.cache), l[..m], nowMs, g).grid.next)
  {
    hide Resume, CanvasLedger, SnapshotAgrees, FoldAll, Fold, CanvasBefore, SettledFrom, Spaced, WithinCaps, Reached;
    SoundSizes(w, l, g);
    var gr, s := w.k.cache.grid, w.file.value;
    AgreedUpTo(w.k, l, g);
    SnapshotRests(s, l, g);
    LedgerPrefix(l, m);
    ReachedLater(s.cache, l, w.k.upTo, m, w.clock, nowMs, gr.next);
    BootReaches(Unspilled(s.cache), l[..m], nowMs, gr.next, g);
    SpilledAgree(w.k, l, m, g);
    forall i | 0 <= i < cut
      ensures gr.spilled[i].tsMs + INTERVAL_MS <= gr.next
    {
      assert gr.All()[i] == gr.spilled[i];
    }
  }

  lemma SnapshotRests(s: SnapshotOf, l: seq<Transfer>, g: Size)
    requires SnapshotAgrees(s, l, g)
    ensures AtRest(Unspilled(s.cache).grid) && s.cache.grid.next > 0
  {}

  lemma LedgerPrefix(l: seq<Transfer>, m: nat)
    requires CanvasLedger(l) && m <= |l|
    ensures Ordered(l) && Ordered(l[..m])
  {}

  lemma ReachedLater(c: Cache, l: seq<Transfer>, n: nat, m: nat, clock: nat, nowMs: nat, next: nat)
    requires n <= m <= |l| && clock <= nowMs && Reached(c, l[..n], clock, next)
    ensures Reached(Unspilled(c), l[..m], nowMs, next)
  {
    if i :| 0 <= i < n && c.warmTs < l[..n][i].timestamp && next <= l[..n][i].timestamp / NS_PER_MS + INTERVAL_MS {
      assert l[..m][i] == l[..n][i];
    }
  }

  /** A checkpoint recorded over a prefix of the ledger is true of the whole: what follows the prefix is
      not older than any boundary recorded. */
  lemma SpilledAgree(k: Consumer, l: seq<Transfer>, m: nat, g: Size)
    requires ConsumerAgrees(k, l, g) && k.upTo <= m <= |l|
    ensures CheckpointsAgree(k.cache.grid.spilled, l[..m], g)
  {
    hide Fold, CanvasBefore, SettledFrom, PaintsBefore, AtRest;
    var gr, p, d := k.cache.grid, l[..k.upTo], l[k.upTo..m];
    assert l[..m] == p + d;
    forall i | 0 <= i < |gr.spilled|
      ensures gr.spilled[i].bmp == CanvasBefore(l[..m], gr.spilled[i].tsMs * NS_PER_MS, g)
    {
      assert gr.All()[i] == gr.spilled[i];
      forall t | t in d
        ensures gr.spilled[i].tsMs * NS_PER_MS <= t.timestamp
      {
        var j :| 0 <= j < |d| && d[j] == t;
        assert d[j] == l[k.upTo + j];
      }
      LaterTransfersInvisible(p, d, gr.spilled[i].tsMs * NS_PER_MS, g);
    }
  }

  lemma RestartsKeeps(w: World, m: nat, nowMs: nat, cut: nat, readable: bool, l: seq<Transfer>, g: Size)
    requires CanvasLedger(l) && Sound(w, l, g) && Enabled(w, Restarts(m, nowMs, cut, readable), l, g)
    ensures |w.k.cache.bmp| == g.Cells() && (w.file.Some? ==> |w.file.value.cache.bmp| == g.Cells())
    ensures Sound(Take(w, Restarts(m, nowMs, cut, readable), l, g), l, g)
  {
    hide Agrees, ConsumerAgrees, SnapshotAgrees, CanvasLedger, Resume, Warm, CheckpointsAgree, AllBefore, Timely, Reached;
    SoundSizes(w, l, g);
    TimelySize(l, m, nowMs);
    if readable && w.file.Some? {
      SidecarUsable(w, l, m, nowMs, cut, g);
      ResumedConsumerAgrees(w.file.value, w.k.cache.grid.spilled[..cut], l, m, nowMs, g);
      SnapshotRests(w.file.value, l, g);
      LedgerPrefix(l, m);
      BootReached(w.file.value.cache, w.k.cache.grid.spilled[..cut], l[..m], nowMs, g);
    } else {
      ReplayedConsumerAgrees(l, m, nowMs, g);
    }
  }

  lemma TimelySize(l: seq<Transfer>, m: nat, nowMs: nat)
    requires Timely(l, m, nowMs)
    ensures m <= |l|
  {}

  /** A boot reaches no further than the next boot will. */
  lemma BootReached(c: Cache, log: seq<Checkpoint>, l: seq<Transfer>, nowMs: nat, g: Size)
    requires |c.bmp| == g.Cells() && AtRest(Unspilled(c).grid) && c.grid.next > 0 && Ordered(l)
    ensures Reached(c, l, nowMs, Respilled(log, Resume(Unspilled(c), l, nowMs, g)).grid.next)
  {
    hide FoldAll, Advance, WithinCaps, Spaced;
    var k := CountBefore(l, c.warmTs + 1);
    CountBeforeSplits(l, c.warmTs + 1);
    var u, d := Unspilled(c), l[k..];
    FoldAllStarted(u, d, g);
    var r := FoldAll(u, d, g);
    FoldAllAtMost(u, d, g);
    AdvanceRecords(r.grid, nowMs, r.bmp);
    if i :| 0 <= i < |d| && r.grid.next <= d[i].timestamp / NS_PER_MS + INTERVAL_MS {
      assert d[i] == l[k + i];
    }
  }

  lemma {:induction false} FoldAllAtMost(c: Cache, d: seq<Transfer>, g: Size)
    requires |c.bmp| == g.Cells() && AtRest(c.grid) && c.grid.next > 0
    ensures var r := FoldAll(c, d, g);
            r.grid.next == c.grid.next || exists i :: 0 <= i < |d| && r.grid.next <= d[i].timestamp / NS_PER_MS + INTERVAL_MS
  {
    hide WithinCaps, Spaced, Advance, Apply;
    if d != [] {
      var n := |d| - 1;
      FoldAllAtMost(c, d[..n], g);
      FoldAllStarted(c, d[..n], g);
      var m := FoldAll(c, d[..n], g);
      AdvanceRecords(m.grid, d[n].timestamp / NS_PER_MS, m.bmp);
      if i :| 0 <= i < n && m.grid.next <= d[..n][i].timestamp / NS_PER_MS + INTERVAL_MS {
        assert d[..n][i] == d[i];
      }
    }
  }

  /** Every step, a crash and a boot included, keeps the server where the ledger says. */
  lemma StepKeeps(w: World, step: Step, l: seq<Transfer>, g: Size)
    requires CanvasLedger(l) && Sound(w, l, g) && Enabled(w, step, l, g)
    ensures |w.k.cache.bmp| == g.Cells() && (w.file.Some? ==> |w.file.value.cache.bmp| == g.Cells())
    ensures Sound(Take(w, step, l, g), l, g)
  {
    hide Sound, CanvasLedger, BootedCache, Deliver, Deliverable;
    SoundSizes(w, l, g);
    match step
    case Delivers(d) => DeliversKeeps(w, d, l, g);
    case Saves => SavesKeeps(w, l, g);
    case Restarts(m, nowMs, cut, readable) => RestartsKeeps(w, m, nowMs, cut, readable, l, g);
  }

  // ---- Whole lives ----

  /** The first boot: nothing saved, a replay of the first `m` transfers. */
  ghost function FirstBoot(l: seq<Transfer>, m: nat, nowMs: nat, g: Size): World
    requires m <= |l|
  {
    World(Consumer(Warm(l[..m], nowMs, g), {}, m, []), None, nowMs)
  }

  ghost predicate Lives(w: World, steps: seq<Step>, l: seq<Transfer>, g: Size)
    decreases |steps|
  {
    steps == []
    || (&& |w.k.cache.bmp| == g.Cells() && (w.file.Some? ==> |w.file.value.cache.bmp| == g.Cells())
        && Enabled(w, steps[0], l, g) && Lives(Take(w, steps[0], l, g), steps[1..], l, g))
  }

  ghost function After(w: World, steps: seq<Step>, l: seq<Transfer>, g: Size): World
    requires Lives(w, steps, l, g)
    decreases |steps|
  {
    if steps == [] then w else After(Take(w, steps[0], l, g), steps[1..], l, g)
  }

  lemma {:induction false} LivesKeep(w: World, steps: seq<Step>, l: seq<Transfer>, g: Size)
    requires CanvasLedger(l) && Sound(w, l, g) && Lives(w, steps, l, g)
    ensures Sound(After(w, steps, l, g), l, g)
    decreases |steps|
  {
    hide Sound, CanvasLedger, Take, Enabled;
    if steps != [] {
      StepKeeps(w, steps[0], l, g);
      LivesKeep(Take(w, steps[0], l, g), steps[1..], l, g);
    }
  }

  /** After any life, through any number of crashes and boots of either kind, every part of the server
      agrees with what it has taken in of the ledger, so that every seek it may be asked is one it
      answers with the ledger's frame. */
  lemma EveryLifeAgrees(l: seq<Transfer>, m: nat, nowMs: nat, steps: seq<Step>, g: Size)
    requires CanvasLedger(l) && Timely(l, m, nowMs) && Lives(FirstBoot(l, m, nowMs, g), steps, l, g)
    ensures var w := After(FirstBoot(l, m, nowMs, g), steps, l, g);
            w.k.upTo <= |l| && Agrees(w.k.cache, l[..w.k.upTo], g) && w.k.cache.bmp == Fold(Blank(g), l[..w.k.upTo], g)
  {
    hide Warm, CanvasLedger, Lives, After, Fold, SnapshotAgrees, AtRest, BoundariesPast, CheckpointsAgree, SettledFrom, PaintsBefore;
    ReplayedConsumerAgrees(l, m, nowMs, g);
    LivesKeep(FirstBoot(l, m, nowMs, g), steps, l, g);
  }
}
