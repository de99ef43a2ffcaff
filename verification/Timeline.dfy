/** The timeline bounds of the history slider, told from the ledger alone: which paints they have taken in, and
    that they are the least and greatest of those. */
module Timeline {
  import opened Canvas
  import opened Checkpoints
  import opened History
  import opened ChangeStream
  import opened Recovery

  /** The bounds are the first and last millisecond of the transfers `noted`, none of which lies past the
      watermark. A bound of 0 means that there is none, so a transfer of millisecond 0 leaves no lower bound. */
  ghost predicate BoundsOf(c: Cache, noted: set<nat>, l: seq<Transfer>) {
    && (forall i :: i in noted ==> i < |l| && l[i].timestamp <= c.warmTs)
    && (forall i :: i in noted ==> l[i].timestamp / 1_000_000 <= c.lastMs)
    && (forall i :: i in noted && l[i].timestamp >= 1_000_000 ==> 0 < c.firstMs <= l[i].timestamp / 1_000_000)
    && (c.lastMs == 0 || exists i :: i in noted && l[i].timestamp / 1_000_000 == c.lastMs)
    && (c.firstMs == 0 || exists i :: i in noted && l[i].timestamp / 1_000_000 == c.firstMs)
  }

  /** The transfers from `from` up to `to` that paint a cell of the grid. */
  ghost function PaintsIn(l: seq<Transfer>, from: nat, to: nat, g: Size): set<nat>
    requires to <= |l|
  {
    set i: nat | from <= i < to && exists x, y :: g.Contains(x, y) && ClaimsCell(l[i], x, y)
  }

  /** Those of them that changed what the canvas shows. */
  ghost function ChangesIn(l: seq<Transfer>, from: nat, to: nat, g: Size): set<nat>
    requires to <= |l|
  {
    set i: nat | from <= i < to && Changes(l, i, g)
  }

  ghost predicate Changes(l: seq<Transfer>, i: nat, g: Size)
    requires i < |l|
  {
    Fold(Blank(g), l[..i + 1], g) != Fold(Blank(g), l[..i], g)
  }

  lemma PaintsIffClaims(t: Transfer, g: Size)
    ensures Paints(t, g) <==> exists x, y :: g.Contains(x, y) && ClaimsCell(t, x, y)
  {
    if Paints(t, g) {
      var p := IsPostedClaim(t, g).value;
      PaintsItsCell(t, p.x, p.y, g);
    }
    if x, y :| g.Contains(x, y) && ClaimsCell(t, x, y) {
      PaintsItsCell(t, x, y, g);
    }
  }

  /** Folding or painting the next transfer takes it in. */
  lemma NoteNext(c: Cache, r: Cache, noted: set<nat>, l: seq<Transfer>, i: nat)
    requires BoundsOf(c, noted, l) && Ordered(l) && i < |l| && (noted == {} || c.warmTs < l[i].timestamp)
    requires r.warmTs == l[i].timestamp
    requires (r.firstMs, r.lastMs) == (var n := NotePaint(c, l[i].timestamp / NS_PER_MS); (n.firstMs, n.lastMs))
    ensures BoundsOf(r, noted + {i}, l)
  {
    var ms := l[i].timestamp / 1_000_000;
    assert forall j :: j in noted ==> l[j].timestamp / 1_000_000 <= ms;
    if c.firstMs > 0 {
      var j :| j in noted && l[j].timestamp / 1_000_000 == c.firstMs;
      assert j in noted + {i};
    }
    if c.lastMs > 0 {
      var j :| j in noted && l[j].timestamp / 1_000_000 == c.lastMs;
      assert j in noted + {i};
    }
    assert i in noted + {i};
  }

  lemma FoldOneBounds(c: Cache, noted: set<nat>, l: seq<Transfer>, i: nat, g: Size)
    requires BoundsOf(c, noted, l) && Ordered(l) && i < |l| && |c.bmp| == g.Cells()
    requires noted == {} || c.warmTs < l[i].timestamp
    ensures BoundsOf(FoldOne(c, l[i], g), if Paints(l[i], g) then noted + {i} else noted, l)
    ensures FoldOne(c, l[i], g).warmTs == l[i].timestamp
  {
    hide Ordered, Paints;
    if Paints(l[i], g) {
      NoteNext(c, FoldOne(c, l[i], g), noted, l, i);
    }
  }

  lemma {:induction false} FoldAllBounds(c: Cache, noted: set<nat>, l: seq<Transfer>, from: nat, to: nat, g: Size)
    requires BoundsOf(c, noted, l) && Ordered(l) && from <= to <= |l| && |c.bmp| == g.Cells()
    requires from < to ==> noted == {} || c.warmTs < l[from].timestamp
    ensures BoundsOf(FoldAll(c, l[from..to], g), noted + PaintsIn(l, from, to, g), l)
    ensures FoldAll(c, l[from..to], g).warmTs == if from < to then l[to - 1].timestamp else c.warmTs
  {
    hide BoundsOf, FoldOne;
    if from == to {
      assert noted + PaintsIn(l, from, to, g) == noted;
    } else {
      var i := to - 1;
      FoldAllBounds(c, noted, l, from, i, g);
      assert l[from..to][..i - from] == l[from..i];
      PaintsIffClaims(l[i], g);
      assert i == from ==> noted + PaintsIn(l, from, i, g) == noted;
      assert from < i ==> l[i - 1].timestamp < l[i].timestamp;
      FoldOneBounds(FoldAll(c, l[from..i], g), noted + PaintsIn(l, from, i, g), l, i, g);
      var next := if Paints(l[i], g) then noted + PaintsIn(l, from, i, g) + {i} else noted + PaintsIn(l, from, i, g);
      assert noted + PaintsIn(l, from, to, g) == next;
    }
  }

  lemma NothingNoted(g: Size, l: seq<Transfer>)
    ensures BoundsOf(EmptyCache(g), {}, l)
  {}

  /** The bounds after a full replay are the ledger's first and last paint. */
  lemma ReplayBounds(l: seq<Transfer>, m: nat, nowMs: nat, g: Size)
    requires Ordered(l) && m <= |l|
    ensures BoundsOf(Warm(l[..m], nowMs, g), PaintsIn(l, 0, m, g), l)
  {
    hide BoundsOf, FoldAll;
    NothingNoted(g, l);
    FoldAllBounds(EmptyCache(g), {}, l, 0, m, g);
    assert l[0..m] == l[..m] && {} + PaintsIn(l, 0, m, g) == PaintsIn(l, 0, m, g);
    FilledBounds(FoldAll(EmptyCache(g), l[..m], g), PaintsIn(l, 0, m, g), l, nowMs);
  }

  lemma FilledBounds(c: Cache, noted: set<nat>, l: seq<Transfer>, nowMs: nat)
    requires BoundsOf(c, noted, l)
    ensures BoundsOf(Filled(c, nowMs), noted, l)
  {}

  lemma SavedBounds(c: Cache, pre: seq<Checkpoint>, noted: set<nat>, l: seq<Transfer>)
    ensures BoundsOf(Unspilled(c), noted, l) == BoundsOf(c, noted, l) == BoundsOf(Respilled(pre, c), noted, l)
  {}

  /** A boot from a snapshot adds the paints past its watermark to those the snapshot had. */
  lemma ResumeBounds(c: Cache, pre: seq<Checkpoint>, noted: set<nat>, l: seq<Transfer>, m: nat, nowMs: nat, g: Size)
    requires BoundsOf(c, noted, l) && Ordered(l) && m <= |l| && |c.bmp| == g.Cells()
    ensures var k := CountBefore(l[..m], c.warmTs + 1);
            BoundsOf(Respilled(pre, Resume(Unspilled(c), l[..m], nowMs, g)), noted + PaintsIn(l, k, m, g), l)
  {
    hide BoundsOf, FoldAll, CountBefore;
    var p, u := l[..m], Unspilled(c);
    var k := CountBefore(p, c.warmTs + 1);
    OrderedPrefix(l, m);
    CountBeforeSplits(p, c.warmTs + 1);
    SavedBounds(c, pre, noted, l);
    FoldAllBounds(u, noted, l, k, m, g);
    assert p[k..] == l[k..m];
    FilledBounds(FoldAll(u, p[k..], g), noted + PaintsIn(l, k, m, g), l, nowMs);
    SavedBounds(Resume(u, p, nowMs, g), pre, noted + PaintsIn(l, k, m, g), l);
  }

  /** So snapshot plus delta has the bounds of the whole ledger too. */
  lemma SnapshotPlusDeltaBounds(l: seq<Transfer>, n: nat, saveMs: nat, nowMs: nat, g: Size)
    requires Ordered(l) && n <= |l| && (n == 0 < |l| ==> l[0].timestamp > 0)
    ensures BoundsOf(Resume(Unspilled(Warm(l[..n], saveMs, g)), l, nowMs, g), PaintsIn(l, 0, |l|, g), l)
  {
    hide BoundsOf, FoldAll, CountBefore, Fold, PaintsIn;
    var c := Warm(l[..n], saveMs, g);
    ReplayBounds(l, n, saveMs, g);
    OrderedPrefix(l, n);
    ReplayWatermark(l[..n], g);
    assert l[..|l|] == l;
    FoldAllBitmap(EmptyCache(g), l[..n], g);
    ResumeBounds(c, [], PaintsIn(l, 0, n, g), l, |l|, nowMs, g);
    SavedBounds(Resume(Unspilled(c), l, nowMs, g), [], PaintsIn(l, 0, |l|, g), l);
    WatermarkSplits(l, n);
    PaintsJoin(l, 0, CountBefore(l, c.warmTs + 1), n, |l|, g);
  }

  /** Counted past its last stamp, a prefix is all there is before the rest. */
  lemma WatermarkSplits(l: seq<Transfer>, n: nat)
    requires Ordered(l) && n <= |l| && (n == 0 < |l| ==> l[0].timestamp > 0)
    ensures CountBefore(l, (if n == 0 then 0 else l[n - 1].timestamp) + 1) == n
  {
    CountBeforeSplits(l, (if n == 0 then 0 else l[n - 1].timestamp) + 1);
  }

  lemma PaintsJoin(l: seq<Transfer>, from: nat, k: nat, n: nat, to: nat, g: Size)
    requires from <= k <= n <= to <= |l|
    ensures PaintsIn(l, from, n, g) + PaintsIn(l, k, to, g) == PaintsIn(l, from, to, g)
  {}

  // ---- Deliveries ----

  /** A posting of the `i`-th transfer, new to the cache, is taken in exactly when it changes the canvas. */
  lemma PostingBounds(c: Cache, noted: set<nat>, l: seq<Transfer>, i: nat, g: Size)
    requires BoundsOf(c, noted, l) && Ordered(l) && i < |l| && |c.bmp| == g.Cells() && c.warmTs < l[i].timestamp
    ensures var r := ApplyEvent(c, PostingOf(l[i]), g).0;
            BoundsOf(r, if r.bmp != c.bmp then noted + {i} else noted, l)
  {
    hide Ordered, SyncTo;
    var ev := PostingOf(l[i]);
    var r := ApplyEvent(c, ev, g).0;
    if ApplyEvent(c, ev, g).1 {
      assert r.bmp[Index(ev.x, ev.y, g)] != c.bmp[Index(ev.x, ev.y, g)];
      NoteNext(c, r, noted, l, i);
    }
  }

  /** One delivery takes in its transfer if it is new and changes the canvas, and nothing else. */
  lemma DeliverBounds(k: Consumer, d: Delivery, noted: set<nat>, l: seq<Transfer>, g: Size)
    requires CanvasLedger(l) && ConsumerAgrees(k, l, g) && Deliverable(k.upTo, d, l, g)
    requires BoundsOf(k.cache, noted, l) && |k.cache.bmp| == g.Cells()
    ensures var r := Deliver(k, d, l, g);
            k.upTo <= r.upTo <= |l| && BoundsOf(r.cache, noted + ChangesIn(l, k.upTo, r.upTo, g), l)
  {
    hide Agrees, BoundsOf, ApplyEvent, CanvasLedger, Fold, NotOlder;
    DeliverAgrees(k, d, l, g);
    var r := Deliver(k, d, l, g);
    if d.Posting? && k.upTo <= d.i {
      var i := d.i;
      DeliveredFresh(k, i, l, g);
      PostingBounds(k.cache, noted, l, i, g);
      AgreedBitmaps(k, r, i, l, g);
      assert noted + ChangesIn(l, k.upTo, i + 1, g) == if r.cache.bmp != k.cache.bmp then noted + {i} else noted;
    } else {
      assert noted + ChangesIn(l, k.upTo, r.upTo, g) == noted;
    }
  }

  lemma DeliveredFresh(k: Consumer, i: nat, l: seq<Transfer>, g: Size)
    requires CanvasLedger(l) && ConsumerAgrees(k, l, g) && k.upTo <= i < |l| && l[i].flags.post && |k.cache.bmp| == g.Cells()
    ensures Ordered(l) && k.cache.warmTs < l[i].timestamp
    ensures Deliver(k, Posting(i), l, g).cache == ApplyEvent(k.cache, PostingOf(l[i]), g).0
  {
    hide Agrees, ApplyEvent;
  }

  /** Of the transfers between two deliveries only the delivered one can have changed the canvas. */
  lemma AgreedBitmaps(k: Consumer, r: Consumer, i: nat, l: seq<Transfer>, g: Size)
    requires ConsumerAgrees(k, l, g) && ConsumerAgrees(r, l, g) && k.upTo <= i < |l| && r.upTo == i + 1
    requires forall j :: k.upTo <= j < i ==> !Paints(l[j], g)
    ensures forall j :: k.upTo <= j < i ==> !Changes(l, j, g)
    ensures Changes(l, i, g) <==> r.cache.bmp != k.cache.bmp
  {
    hide CanvasBefore, Fold, Paints, AtRest, BoundariesPast, CheckpointsAgree, PaintsBefore, SettledFrom;
    SilentFold(l, k.upTo, i, g);
  }

  lemma {:induction false} SilentFold(l: seq<Transfer>, from: nat, to: nat, g: Size)
    requires from <= to <= |l| && forall j :: from <= j < to ==> !Paints(l[j], g)
    ensures forall j :: from <= j <= to ==> Fold(Blank(g), l[..j], g) == Fold(Blank(g), l[..from], g)
  {
    if from < to {
      SilentFold(l, from, to - 1, g);
      assert l[..to][..to - 1] == l[..to - 1];
    }
  }

  /** After any deliveries the bounds are those of what was in them before and of the delivered transfers that
      changed the canvas. */
  lemma {:induction false} DeliveriesBounds(k: Consumer, ds: seq<Delivery>, noted: set<nat>, l: seq<Transfer>, g: Size)
    requires CanvasLedger(l) && ConsumerAgrees(k, l, g) && DeliverableAll(k.upTo, ds, l, g)
    requires BoundsOf(k.cache, noted, l) && |k.cache.bmp| == g.Cells()
    ensures forall d :: d in ds && d.Posting? ==> d.i < |l|
    ensures k.upTo <= Delivered(k.upTo, ds) <= |l|
    ensures BoundsOf(DeliverAll(k, ds, l, g).cache, noted + ChangesIn(l, k.upTo, Delivered(k.upTo, ds), g), l)
  {
    hide BoundsOf, CanvasLedger, ConsumerAgrees, Deliver;
    DeliveriesAgree(k, ds, l, g);
    if ds == [] {
      assert noted + ChangesIn(l, k.upTo, k.upTo, g) == noted;
    } else {
      var init := ds[..|ds| - 1];
      DeliveriesBounds(k, init, noted, l, g);
      DeliveriesAgree(k, init, l, g);
      var m := DeliverAll(k, init, l, g);
      var sofar := noted + ChangesIn(l, k.upTo, m.upTo, g);
      DeliverBounds(m, ds[|ds| - 1], sofar, l, g);
      ChangesJoin(l, k.upTo, m.upTo, Delivered(k.upTo, ds), g);
      assert noted + (ChangesIn(l, k.upTo, m.upTo, g) + ChangesIn(l, m.upTo, Delivered(k.upTo, ds), g))
          == sofar + ChangesIn(l, m.upTo, Delivered(k.upTo, ds), g);
    }
  }

  lemma ChangesJoin(l: seq<Transfer>, from: nat, mid: nat, to: nat, g: Size)
    requires from <= mid <= to <= |l|
    ensures ChangesIn(l, from, mid, g) + ChangesIn(l, mid, to, g) == ChangesIn(l, from, to, g)
  {
    hide Changes;
  }

  // ---- Whole lives ----

  /** The bounds have taken in every transfer of the first `n` that changed the canvas, and only ones that
      paint. */
  ghost predicate Bounded(c: Cache, n: nat, l: seq<Transfer>, g: Size) {
    n <= |l| && exists noted :: ChangesIn(l, 0, n, g) <= noted <= PaintsIn(l, 0, n, g) && BoundsOf(c, noted, l)
  }

  lemma ChangesPaint(l: seq<Transfer>, from: nat, to: nat, g: Size)
    requires from <= to <= |l|
    ensures ChangesIn(l, from, to, g) <= PaintsIn(l, from, to, g)
  {
    forall i | i in ChangesIn(l, from, to, g)
      ensures i in PaintsIn(l, from, to, g)
    {
      assert l[..i + 1][..i] == l[..i];
      PaintsIffClaims(l[i], g);
    }
  }

  lemma DeliversBounded(w: World, d: Delivery, l: seq<Transfer>, g: Size)
    requires CanvasLedger(l) && Sound(w, l, g) && Deliverable(w.k.upTo, d, l, g) && Bounded(w.k.cache, w.k.upTo, l, g)
    ensures |w.k.cache.bmp| == g.Cells()
    ensures var r := Deliver(w.k, d, l, g); Bounded(r.cache, r.upTo, l, g)
  {
    hide BoundsOf, ConsumerAgrees, Deliver, Changes, ClaimsCell;
    SoundSizes(w, l, g);
    var noted :| ChangesIn(l, 0, w.k.upTo, g) <= noted <= PaintsIn(l, 0, w.k.upTo, g) && BoundsOf(w.k.cache, noted, l);
    DeliverBounds(w.k, d, noted, l, g);
    var r := Deliver(w.k, d, l, g);
    ChangesPaint(l, w.k.upTo, r.upTo, g);
    var more := noted + ChangesIn(l, w.k.upTo, r.upTo, g);
    assert ChangesIn(l, 0, r.upTo, g) <= more <= PaintsIn(l, 0, r.upTo, g);
  }

  lemma ReplayBounded(l: seq<Transfer>, m: nat, nowMs: nat, g: Size)
    requires Ordered(l) && m <= |l|
    ensures Bounded(Warm(l[..m], nowMs, g), m, l, g)
  {
    hide BoundsOf, FoldAll, ChangesIn, PaintsIn;
    ReplayBounds(l, m, nowMs, g);
    ChangesPaint(l, 0, m, g);
  }

  lemma ResumeBounded(s: SnapshotOf, log: seq<Checkpoint>, l: seq<Transfer>, m: nat, nowMs: nat, g: Size)
    requires CanvasLedger(l) && SnapshotAgrees(s, l, g) && s.upTo <= m <= |l| && |s.cache.bmp| == g.Cells()
    requires Bounded(s.cache, s.upTo, l, g)
    ensures Bounded(Respilled(log, Resume(Unspilled(s.cache), l[..m], nowMs, g)), m, l, g)
  {
    hide BoundsOf, Agrees, FoldAll, Changes, ClaimsCell, CountBefore;
    var p, n := l[..m], s.upTo;
    var noted :| ChangesIn(l, 0, n, g) <= noted <= PaintsIn(l, 0, n, g) && BoundsOf(s.cache, noted, l);
    ResumeBounds(s.cache, log, noted, l, m, nowMs, g);
    var k := CountBefore(p, s.cache.warmTs + 1);
    CountBeforeSplits(p, s.cache.warmTs + 1);
    assert n < m ==> s.cache.warmTs < p[n].timestamp;
    assert k <= n;
    ChangesPaint(l, n, m, g);
    var more := noted + PaintsIn(l, k, m, g);
    assert ChangesIn(l, 0, m, g) == ChangesIn(l, 0, n, g) + ChangesIn(l, n, m, g);
    assert PaintsIn(l, n, m, g) <= PaintsIn(l, k, m, g);
    assert ChangesIn(l, 0, m, g) <= more <= PaintsIn(l, 0, m, g);
  }

  ghost predicate AllBounded(w: World, l: seq<Transfer>, g: Size) {
    && Bounded(w.k.cache, w.k.upTo, l, g)
    && (w.file.Some? ==> Bounded(w.file.value.cache, w.file.value.upTo, l, g))
  }

  lemma StepBounded(w: World, step: Step, l: seq<Transfer>, g: Size)
    requires CanvasLedger(l) && Sound(w, l, g) && Enabled(w, step, l, g) && AllBounded(w, l, g)
    ensures |w.k.cache.bmp| == g.Cells() && (w.file.Some? ==> |w.file.value.cache.bmp| == g.Cells())
    ensures AllBounded(Take(w, step, l, g), l, g)
  {
    hide ConsumerAgrees, SnapshotAgrees, Reaches, Resume, Warm, Deliver, Bounded, Deliverable, FilledBefore;
    SoundSizes(w, l, g);
    match step
    case Delivers(d) => DeliversBounded(w, d, l, g);
    case Saves =>
    case Restarts(m, nowMs, cut, readable) =>
      if readable && w.file.Some? {
        ResumeBounded(w.file.value, w.k.cache.grid.spilled[..cut], l, m, nowMs, g);
      } else {
        ReplayBounded(l, m, nowMs, g);
      }
  }

  lemma {:induction false} LivesBounded(w: World, steps: seq<Step>, l: seq<Transfer>, g: Size)
    requires CanvasLedger(l) && Sound(w, l, g) && Lives(w, steps, l, g) && AllBounded(w, l, g)
    ensures AllBounded(Recovery.After(w, steps, l, g), l, g)
    decreases |steps|
  {
    hide Sound, CanvasLedger, Take, Enabled, AllBounded;
    if steps != [] {
      Recovery.StepKeeps(w, steps[0], l, g);
      StepBounded(w, steps[0], l, g);
      LivesBounded(Take(w, steps[0], l, g), steps[1..], l, g);
    }
  }

  /** The first paint of a ledger always changes the canvas, so it is the lower bound; the upper one is a
      paint's, and not before the last that changed the canvas. */
  lemma BoundedEnds(c: Cache, n: nat, l: seq<Transfer>, g: Size, first: nat)
    requires Bounded(c, n, l, g) && Ordered(l)
    requires first in PaintsIn(l, 0, n, g) && forall i :: i in PaintsIn(l, 0, n, g) ==> first <= i
    ensures l[first].timestamp >= 1_000_000 ==> c.firstMs == l[first].timestamp / 1_000_000
    ensures l[first].timestamp / 1_000_000 <= c.lastMs <= l[n - 1].timestamp / 1_000_000
    ensures forall i :: i in ChangesIn(l, 0, n, g) ==> l[i].timestamp / 1_000_000 <= c.lastMs
  {
    hide Fold, ClaimsCell, Paints;
    var noted :| ChangesIn(l, 0, n, g) <= noted <= PaintsIn(l, 0, n, g) && BoundsOf(c, noted, l);
    FirstPaintChanges(l, first, n, g);
    assert first in noted;
    assert forall i :: i in noted ==> first <= i;
    assert forall i :: i in noted ==> l[first].timestamp / 1_000_000 <= l[i].timestamp / 1_000_000;
  }

  lemma FirstPaintChanges(l: seq<Transfer>, first: nat, n: nat, g: Size)
    requires n <= |l| && first in PaintsIn(l, 0, n, g) && forall i :: i in PaintsIn(l, 0, n, g) ==> first <= i
    ensures Changes(l, first, g)
  {
    hide Fold, ClaimsCell;
    forall i | 0 <= i <= first
      ensures Paints(l[i], g) <==> i == first
    {
      PaintsIffClaims(l[i], g);
      assert i < first ==> i !in PaintsIn(l, 0, n, g);
    }
    SilentFold(l, 0, first, g);
    BlankChanges(l[..first], l[first], g);
    assert l[..first + 1] == l[..first] + [l[first]];
  }

  lemma BlankChanges(l: seq<Transfer>, t: Transfer, g: Size)
    requires Fold(Blank(g), l, g) == Fold(Blank(g), [], g) && Paints(t, g)
    ensures Fold(Blank(g), l + [t], g) != Fold(Blank(g), l, g)
  {
    var p := IsPostedClaim(t, g).value;
    var i := Index(p.x, p.y, g);
    CanvasAppend(l, t, 0, g);
    assert Apply(Blank(g), t, g)[i] != 0 && Blank(g)[i] == 0;
  }

  /** Through any number of deliveries, saves, crashes and boots the bounds have taken in every transfer that
      changed the canvas, and only ones that paint. */
  lemma EveryLifeBounded(l: seq<Transfer>, m: nat, nowMs: nat, steps: seq<Step>, g: Size)
    requires CanvasLedger(l) && Timely(l, m, nowMs) && Lives(FirstBoot(l, m, nowMs, g), steps, l, g)
    ensures var w := Recovery.After(FirstBoot(l, m, nowMs, g), steps, l, g);
            Bounded(w.k.cache, w.k.upTo, l, g)
  {
    hide Warm, Lives, After, SnapshotAgrees, ConsumerAgrees, Bounded, FilledBefore;
    ReplayedConsumerAgrees(l, m, nowMs, g);
    ReplayBounded(l, m, nowMs, g);
    FirstBootSound(l, m, nowMs, g);
    LivesBounded(FirstBoot(l, m, nowMs, g), steps, l, g);
  }

  lemma FirstBootSound(l: seq<Transfer>, m: nat, nowMs: nat, g: Size)
    requires m <= |l| && ConsumerAgrees(Consumer(Warm(l[..m], nowMs, g), {}, m, []), l, g)
    ensures Sound(FirstBoot(l, m, nowMs, g), l, g)
  {
    hide ConsumerAgrees, Warm;
  }
}
