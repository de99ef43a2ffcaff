/** One life of the server as its objects run it: boot, change delivery, a seek. */
module Sessions {
  import opened Bytes
  import opened Canvas
  import opened Checkpoints
  import opened History
  import opened ChangeStream
  import opened AnchorGrids
  import opened Sidecar
  import opened Snapshot
  import opened Paging
  import opened Services
  import opened Replay
  import opened Recovery

  predicate Loads(file: Option<seq<byte>>, g: Size) {
    file.Some? && Load(file.value, g).Some?
  }

  /** What an earlier life may have left on disk: a file that does not load, or a snapshot that agrees with
      the ledger beside a sidecar whose checkpoints do and lie before the boundary the boot reaches.
      Recovery.SidecarUsable shows that a running server leaves nothing else, whenever it stops. */
  ghost predicate DiskAgrees(s: Service, file: Option<seq<byte>>, saved: SnapshotOf, l: seq<Transfer>, m: nat, nowMs: nat)
    requires m <= |l|
    reads s, s.sidecar
  {
    && (file.Some? ==> !Panics(file.value, s.g))
    && (Loads(file, s.g) ==>
      && StandsFor(Load(file.value, s.g).value, saved.cache, s.hash, s.run)
      && saved.upTo <= m && SnapshotAgrees(saved, l, s.g) && |saved.cache.bmp| == s.g.Cells()
      && CheckpointsAgree(LogOf(s), l[..m], s.g)
      && AllBefore(LogOf(s), Resume(Unspilled(saved.cache), l[..m], nowMs, s.g).grid.next))
  }

  ghost function LogOf(s: Service): seq<Checkpoint>
    reads s, s.sidecar
  {
    if s.sidecar == null then [] else s.sidecar.written
  }

  /** Whatever byte a crash cuts the sidecar at, what it leaves holds the complete file of the first `k`
      records, and no whole record past it. */
  lemma CrashLeavesRecords(server: Service, cut: nat) returns (k: nat)
    requires server.Valid() && server.sidecar != null && cut <= |server.sidecar.data|
    ensures var f := server.sidecar.data;
            && k <= |LogOf(server)| == |ScanAll(f).ends| && EndOf(f, k) <= cut
            && (forall i :: k <= i < |LogOf(server)| ==> cut < ScanAll(f).ends[i])
            && ScanAll(f[..cut]).entries == ScanAll(f[..EndOf(f, k)]).entries
            && Logs(f[..EndOf(f, k)], LogOf(server)[..k], server.hash, server.run)
  {
    server.ag.SidecarIsValid();
    k := CutHoldsRecords(server.sidecar.data, cut, server.sidecar.written, server.hash, server.run);
  }

  /** A server that stops leaves a disk its successor may boot from: `w` is what the first server and its
      snapshot are, `cut` how many of its sidecar records survive whole. */
  lemma CrashLeavesDisk(w: World, server: Service, heir: Service, file: Option<seq<byte>>, l: seq<Transfer>, m: nat,
                        nowMs: nat, cut: nat, saved: SnapshotOf)
    requires CanvasLedger(l) && Sound(w, l, server.g) && heir.g == server.g
    requires w.k.cache == server.View() && server.Mirrored()
    requires cut <= |LogOf(server)| && LogOf(heir) == LogOf(server)[..cut]
    requires w.k.upTo <= m <= |l| && w.clock <= nowMs
    requires file.Some? ==> !Panics(file.value, heir.g)
    requires Loads(file, heir.g) ==>
               w.file == Some(saved) && StandsFor(Load(file.value, heir.g).value, saved.cache, heir.hash, heir.run)
    ensures DiskAgrees(heir, file, saved, l, m, nowMs)
  {
    hide CanvasLedger, ConsumerAgrees, SnapshotAgrees, Load, Panics, StandsFor, Resume, Reached;
    if Loads(file, heir.g) {
      SidecarUsable(w, l, m, nowMs, cut, server.g);
    }
  }

  /** Every canvas on the way from a snapshot through its delta is one the ledger passes through. */
  lemma DeltaInRun(s: SnapshotOf, l: seq<Transfer>, m: nat, n: nat, g: Size, run: iset<Bitmap>)
    requires CanvasLedger(l) && InRun(l, g, run) && s.upTo <= m <= |l| && SnapshotAgrees(s, l, g)
    requires |s.cache.bmp| == g.Cells()
    requires var k := CountBefore(l[..m], s.cache.warmTs + 1); n <= m - k
    ensures s.cache.bmp in run
    ensures var p := l[..m];
            var k := CountBefore(p, s.cache.warmTs + 1);
            Fold(s.cache.bmp, p[k..][..n], g) in run
  {
    hide Fold, CountBefore, FoldAll, SettledFrom, PaintsBefore, CheckpointsAgree, BoundariesPast, AtRest;
    var p, c := l[..m], s.cache;
    var k := CountBefore(p, c.warmTs + 1);
    LedgerPrefix(l, m);
    CountBeforeSplits(p, c.warmTs + 1);
    assert s.upTo < m ==> c.warmTs < p[s.upTo].timestamp;
    assert k <= s.upTo;
    assert p[k..][..n] == p[k..k + n];
    FoldAllBitmap(c, p[k..k + n], g);
    assert p[..s.upTo] == l[..s.upTo];
    if k + n <= s.upTo {
      OrderedPrefix(p, s.upTo);
      assert l[..s.upTo][k..k + n] == p[k..k + n];
      RefoldAllAgrees(c, l[..s.upTo], k, k + n, g);
    } else {
      var q := p[..k + n];
      OrderedPrefix(p, k + n);
      assert q == l[..k + n] && q[..s.upTo] == l[..s.upTo] && q[k..] == p[k..k + n];
      CatchUpAgrees(c, q, k, s.upTo, g);
    }
  }

  lemma {:induction false} DeliverableAt(upTo: nat, ds: seq<Delivery>, j: nat, l: seq<Transfer>, g: Size)
    requires DeliverableAll(upTo, ds, l, g) && j < |ds|
    ensures Deliverable(Delivered(upTo, ds[..j]), ds[j], l, g)
    ensures Delivered(upTo, ds[..j + 1]) == (var n := Delivered(upTo, ds[..j]); if ds[j].Posting? && n <= ds[j].i then ds[j].i + 1 else n)
  {
    var n := |ds| - 1;
    assert ds[..j + 1][..j] == ds[..j];
    if j < n {
      assert ds[..n][..j] == ds[..j];
      DeliverableAt(upTo, ds[..n], j, l, g);
    }
  }

  /** Boots from whatever is on disk; either way the server then agrees with the ledger and admits exactly
      the rest of it. */
  method Boot(server: Service, file: Option<seq<byte>>, l: seq<Transfer>, m: nat, nowMs: nat, ghost saved: SnapshotOf)
    requires server.Valid() && CanvasLedger(l) && Stamped(l) && InRun(l, server.g, server.run) && nowMs < U63
    requires Timely(l, m, nowMs) && m <= |l| && DiskAgrees(server, file, saved, l, m, nowMs)
    modifies server, server.sidecar
    ensures server.Valid() && server.Mirrored() && server.warmed && fresh(server.ag)
    ensures ConsumerAgrees(Consumer(server.View(), {}, m, []), l, server.g)
    ensures var read := if Loads(file, server.g) then Some(saved) else None;
            && (read.Some? ==> |saved.cache.bmp| == server.g.Cells())
            && server.View() == BootedCache(read, old(LogOf(server)), l[..m], nowMs, server.g)
  {
    hide CanvasLedger, Timely, SnapshotAgrees, CheckpointsAgree, AllBefore, Warm, Resume, ConsumerAgrees, Load, Panics, StandsFor, Stamped, InRun, AtRest, AnchorGrid.Valid, CountBefore, Fold;
    LedgerPrefix(l, m);
    PrefixInRun(l, m, server.g, server.run);
    if Loads(file, server.g) {
      UsableAtBoot(server, saved, Load(file.value, server.g).value, l, m);
      ResumedConsumerAgrees(saved, LogOf(server), l, m, nowMs, server.g);
    } else {
      ReplayedConsumerAgrees(l, m, nowMs, server.g);
    }
    server.OpenSidecar();
    var _ := server.WarmCache(file, l[..m], nowMs, saved.cache);
  }

  lemma PrefixInRun(l: seq<Transfer>, m: nat, g: Size, run: iset<Bitmap>)
    requires m <= |l| && InRun(l, g, run) && Stamped(l)
    ensures InRun(l[..m], g, run) && Stamped(l[..m])
  {
    hide Fold;
    forall n | 0 <= n <= m
      ensures Fold(Blank(g), l[..m][..n], g) in run
    {
      assert l[..m][..n] == l[..n];
    }
  }

  lemma UsableAtBoot(server: Service, saved: SnapshotOf, s: Loaded, l: seq<Transfer>, m: nat)
    requires CanvasLedger(l) && InRun(l, server.g, server.run) && saved.upTo <= m <= |l| && SnapshotAgrees(saved, l, server.g)
    requires |saved.cache.bmp| == server.g.Cells() && StandsFor(s, saved.cache, server.hash, server.run)
    ensures server.Usable(s, saved.cache, l[..m])
  {
    hide CanvasLedger, StandsFor, Fold, CountBefore, InRun, SnapshotAgrees;
    var p := l[..m];
    var k := CountBefore(p, saved.cache.warmTs + 1);
    SnapshotInRest(saved, l, server.g);
    DeltaInRun(saved, l, m, 0, server.g, server.run);
    forall n | 0 <= n <= |p[k..]|
      ensures Fold(saved.cache.bmp, p[k..][..n], server.g) in server.run
    {
      DeltaInRun(saved, l, m, n, server.g, server.run);
    }
  }

  lemma SnapshotInRest(s: SnapshotOf, l: seq<Transfer>, g: Size)
    requires SnapshotAgrees(s, l, g)
    ensures AtRest(s.cache.grid) && s.cache.grid.window != []
  {}

  /** One delivery, as the consumer runs it. */
  method TakeDelivery(consumer: StreamConsumer, d: Delivery, l: seq<Transfer>, ghost k: Consumer)
    requires CanvasLedger(l) && Stamped(l) && InRun(l, consumer.sink.g, consumer.sink.run)
    requires consumer.sink.Valid() && consumer.sink.Mirrored()
    requires k.cache == consumer.sink.View() && k.seen == consumer.seen && ConsumerAgrees(k, l, consumer.sink.g)
    requires Deliverable(k.upTo, d, l, consumer.sink.g) && (d.Other? ==> d.ev.timestamp < U63)
    modifies consumer, consumer.sink, consumer.sink.ag, consumer.sink.sidecar
    ensures consumer.sink.Valid() && consumer.sink.Mirrored() && consumer.sink.ag == old(consumer.sink.ag)
    ensures |k.cache.bmp| == consumer.sink.g.Cells()
    ensures var r := Deliver(k, d, l, consumer.sink.g); consumer.sink.View() == r.cache && consumer.seen == r.seen
  {
    hide CanvasLedger, ConsumerAgrees, ChangeStream.ApplyEvent, AnchorGrid.Valid, Fold;
    DeliverAgrees(k, d, l, consumer.sink.g);
    DeliveredInRun(Deliver(k, d, l, consumer.sink.g), l, consumer.sink.g, consumer.sink.run);
    match d {
      case Reconnect => consumer.Reconnect();
      case BadBody => var _ := consumer.ProcessBody(None);
      case Other(ev) => var _ := consumer.ProcessBody(Some(ev));
      case Posting(i) => var _ := consumer.ProcessBody(Some(PostingOf(l[i])));
    }
  }

  lemma DeliveredInRun(k: Consumer, l: seq<Transfer>, g: Size, run: iset<Bitmap>)
    requires ConsumerAgrees(k, l, g) && InRun(l, g, run)
    ensures k.cache.bmp in run
  {
    hide Fold;
  }

  /** The whole way: boot by replay or from a snapshot, take in any deliveries of the rest of the ledger,
      and seek to an instant caught up to. The seek answers with the fold of every posted claim up to and
      including that millisecond over the empty canvas, or reports it too broad exactly when fifty full
      pages of transfers lie past the newest checkpoint. */
  method BootDeliverSeek(server: Service, file: Option<seq<byte>>, l: seq<Transfer>, m: nat, nowMs: nat, ds: seq<Delivery>,
                         tsMs: nat, ghost saved: SnapshotOf)
      returns (r: Frame, ghost fromNs: nat)
    requires server.Valid() && CanvasLedger(l) && Stamped(l) && InRun(l, server.g, server.run) && nowMs < U63
    requires Timely(l, m, nowMs) && m <= |l| && DiskAgrees(server, file, saved, l, m, nowMs)
    requires DeliverableAll(m, ds, l, server.g) && forall d :: d in ds && d.Other? ==> d.ev.timestamp < U63
    requires CaughtUp(l, Delivered(m, ds), tsMs)
    modifies server, server.sidecar
    ensures !r.SidecarError?
    ensures r.Frame? ==> r.bmp == FrameSpec(l, tsMs, server.g)
                         && r.effMs == if tsMs >= server.lastPaintMs then server.lastPaintMs else tsMs
    ensures r.Frame? ==> ShowsLedger(r.bmp, l, (tsMs + 1) * 1_000_000, server.g)
    ensures r.TooBroad? <==>
            tsMs < server.lastPaintMs && 50 * 4000 <= CountBefore(l, (tsMs + 1) * 1_000_000) - CountBefore(l, fromNs)
    ensures tsMs < server.lastPaintMs ==> NewestStart(server.ag.grid, server.sidecar != null, tsMs, fromNs)
    ensures server.Valid() && server.Mirrored()
    ensures Delivered(m, ds) <= |l| && Agrees(server.View(), l[..Delivered(m, ds)], server.g)
  {
    hide CanvasLedger, Timely, ConsumerAgrees, Deliver, AnchorGrid.Valid, CountBefore, FrameSpec, CaughtUp, NewestStart, Delivered, Agrees, Deliverable, DiskAgrees, InRun, Stamped, ShowsLedger;
    Boot(server, file, l, m, nowMs, saved);
    var consumer := new StreamConsumer(server);
    ghost var k := Consumer(server.View(), {}, m, []);
    DeliveredNothing(m);
    for j := 0 to |ds|
      invariant server.Valid() && server.Mirrored() && fresh(server.ag)
      invariant k.cache == server.View() && k.seen == consumer.seen && consumer.sink == server
      invariant ConsumerAgrees(k, l, server.g) && k.upTo == Delivered(m, ds[..j])
    {
      DeliverableAt(m, ds, j, l, server.g);
      DeliverAgrees(k, ds[j], l, server.g);
      TakeDelivery(consumer, ds[j], l, k);
      k := Deliver(k, ds[j], l, server.g);
      assert k.upTo == Delivered(m, ds[..j + 1]);
    }
    assert ds[..|ds|] == ds;
    AgreedUpTo(k, l, server.g);
    LedgerPrefix(l, |l|);
    r, fromNs := server.FrameAt(l, tsMs, k.upTo);
  }

  lemma DeliveredNothing(m: nat)
    ensures Delivered(m, []) == m
  {}
}
