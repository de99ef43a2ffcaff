/** One server whose players' own confirms paint by the wall clock: what a snapshot then carries over a boot,
    and exactly which paints it loses. */
module LocalConfirms {
  import opened Bytes
  import opened Canvas
  import opened Checkpoints
  import opened History
  import opened ChangeStream
  import opened ConfirmClock

  /** A snapshot file: the cache it was saved from, and whose paints that cache's bitmap had. */
  datatype Saved = Saved(c: Cache, taken: set<nat>)

  /** The server over a ledger of which `upTo` transfers have landed: `taken` are the transfers its bitmap
      shows, `inFlight` those of its own confirms that have landed and not been painted yet. */
  datatype World = World(c: Cache, taken: set<nat>, upTo: nat, inFlight: set<nat>, file: Option<Saved>)

  datatype Step =
    | Lands(own: bool)             // the next transfer of the ledger; one of this server's confirms or not
    | PaintsOwn(i: nat, nowNs: nat)  // the region of this server's confirm after the submit
    | Delivers(i: nat)
    | Saves
    | Restarts(nowMs: nat, log: seq<Checkpoint>)

  function CellOf(t: Transfer, g: Size): (cell: nat)
    requires Paints(t, g)
    ensures cell < g.Cells()
  {
    var p := IsPostedClaim(t, g).value;
    Index(p.x, p.y, g)
  }

  function ByteOf(t: Transfer, g: Size): byte
    requires Paints(t, g)
  {
    IsPostedClaim(t, g).value.color % 16 + 1
  }

  predicate PaintsCell(t: Transfer, cell: nat, g: Size) {
    Paints(t, g) && CellOf(t, g) == cell
  }

  /** The last of the first `n` transfers that is in `s` and paints the cell, or -1. */
  function Writer(l: seq<Transfer>, s: set<nat>, n: nat, cell: nat, g: Size): (w: int)
    requires n <= |l|
    ensures -1 <= w < n && (w >= 0 ==> w in s && PaintsCell(l[w], cell, g))
    ensures forall i :: w < i < n && i in s ==> !PaintsCell(l[i], cell, g)
  {
    if n == 0 then -1
    else if n - 1 in s && PaintsCell(l[n - 1], cell, g) then n - 1
    else Writer(l, s, n - 1, cell, g)
  }

  /** What a cell shows when just the transfers in `s` have been painted, in ledger order. */
  function Shown(l: seq<Transfer>, s: set<nat>, n: nat, cell: nat, g: Size): byte
    requires n <= |l|
  {
    var w := Writer(l, s, n, cell, g);
    if w < 0 then 0 else ByteOf(l[w], g)
  }

  predicate Within(i: nat, k: nat, m: nat) {
    k <= i < m
  }

  function Range(k: nat, m: nat): set<nat> {
    set i: nat | i < m && Within(i, k, m)
  }

  /** Nothing later for the same cell has been painted. */
  ghost predicate Latest(l: seq<Transfer>, taken: set<nat>, i: nat, g: Size)
    requires i < |l| && Paints(l[i], g)
  {
    forall j :: j in taken && j < |l| && PaintsCell(l[j], CellOf(l[i], g), g) ==> j <= i
  }

  /** What a boot from the snapshot shows: what the saved bitmap showed, and everything above its watermark. */
  function Carried(f: Saved, l: seq<Transfer>, m: nat): set<nat>
    requires m <= |l|
  {
    f.taken + set i | 0 <= i < m && f.c.warmTs < l[i].timestamp
  }

  /** What it loses: paints at or below the watermark that the saved bitmap did not show. */
  function Lost(f: Saved, l: seq<Transfer>, m: nat, g: Size): set<nat>
    requires m <= |l|
  {
    set i | 0 <= i < m && Paints(l[i], g) && l[i].timestamp <= f.c.warmTs && i !in f.taken
  }

  ghost predicate Enabled(w: World, step: Step, l: seq<Transfer>, g: Size)
    requires w.upTo <= |l|
  {
    match step
    case Lands(_) => w.upTo < |l|
    case PaintsOwn(i, _) => i in w.inFlight && i < w.upTo && Paints(l[i], g) && Latest(l, w.taken, i, g)
    case Delivers(i) => i < w.upTo && Paints(l[i], g) && Latest(l, w.taken, i, g)
    case Saves => true
    case Restarts(_, _) => true
  }

  ghost predicate Sized(w: World, l: seq<Transfer>, g: Size) {
    w.upTo <= |l| && |w.c.bmp| == g.Cells() && (w.file.Some? ==> |w.file.value.c.bmp| == g.Cells())
  }

  ghost function Take(w: World, step: Step, l: seq<Transfer>, g: Size): World
    requires Sized(w, l, g) && Enabled(w, step, l, g)
  {
    match step
    case Lands(own) => w.(upTo := w.upTo + 1, inFlight := if own then w.inFlight + {w.upTo} else w.inFlight)
    case PaintsOwn(i, nowNs) =>
      w.(c := Confirmed(w.c, IsPostedClaim(l[i], g).value, nowNs, g), taken := w.taken + {i}, inFlight := w.inFlight - {i})
    case Delivers(i) =>
      w.(c := ApplyEvent(w.c, PostingOf(l[i]), g).0,
         taken := if l[i].timestamp <= w.c.warmTs then w.taken else w.taken + {i})
    case Saves => w.(file := Some(Saved(w.c, w.taken)))
    case Restarts(nowMs, log) =>
      if w.file.Some? then
        var f := w.file.value;
        World(Respilled(log, Resume(Unspilled(f.c), l[..w.upTo], nowMs, g)), Carried(f, l, w.upTo), w.upTo, {}, w.file)
      else World(Warm(l[..w.upTo], nowMs, g), Range(0, w.upTo), w.upTo, {}, None)
  }

  // ---- Which transfers a bitmap shows ----

  /** The bitmap is that of the transfers in `taken`, all among the first `n`, painted in ledger order. */
  ghost predicate Shows(bmp: Bitmap, taken: set<nat>, n: nat, l: seq<Transfer>, g: Size) {
    && n <= |l| && |bmp| == g.Cells() && (forall i :: i in taken ==> i < n)
    && forall cell: nat :: cell < g.Cells() ==> bmp[cell] == Shown(l, taken, n, cell, g)
  }

  ghost predicate Sound(w: World, l: seq<Transfer>, g: Size) {
    && Shows(w.c.bmp, w.taken, w.upTo, l, g)
    && (w.file.Some? ==> Shows(w.file.value.c.bmp, w.file.value.taken, w.upTo, l, g))
  }

  lemma {:induction false} WriterSame(l: seq<Transfer>, s: set<nat>, t: set<nat>, n: nat, cell: nat, g: Size)
    requires n <= |l| && forall i :: 0 <= i < n ==> (i in s <==> i in t)
    ensures Writer(l, s, n, cell, g) == Writer(l, t, n, cell, g)
  {
    if n > 0 {
      WriterSame(l, s, t, n - 1, cell, g);
    }
  }

  lemma {:induction false} WriterPast(l: seq<Transfer>, s: set<nat>, m: nat, n: nat, cell: nat, g: Size)
    requires m <= n <= |l| && forall i :: i in s ==> i < m
    ensures Writer(l, s, n, cell, g) == Writer(l, s, m, cell, g)
  {
    if m < n {
      WriterPast(l, s, m, n - 1, cell, g);
    }
  }

  /** With a later range added, the last writer is the range's if it has one. */
  lemma {:induction false} WriterUnion(l: seq<Transfer>, s: set<nat>, t: set<nat>, k: nat, n: nat, cell: nat, g: Size)
    requires n <= |l| && (forall i :: i in t <==> k <= i < n)
    ensures var w := Writer(l, t, n, cell, g);
            Writer(l, s + t, n, cell, g) == if w >= 0 then w else Writer(l, s, n, cell, g)
  {
    var w, u, v := Writer(l, t, n, cell, g), Writer(l, s + t, n, cell, g), Writer(l, s, n, cell, g);
    if w >= 0 {
      assert w in s + t;
      assert u >= w;
      assert u > w ==> u in t;
    } else {
      assert u >= 0 ==> u in s;
      assert v >= 0 ==> v in s + t;
    }
  }

  lemma WriterOfRange(l: seq<Transfer>, k: nat, m: nat, cell: nat, g: Size)
    requires k <= m <= |l|
    ensures Writer(l, Range(k, m), m, cell, g)
            == if k == m then -1 else if PaintsCell(l[m - 1], cell, g) then m - 1 else Writer(l, Range(k, m - 1), m - 1, cell, g)
  {
    hide PaintsCell;
    if k < m {
      assert Within(m - 1, k, m);
      WriterSame(l, Range(k, m), Range(k, m - 1), m - 1, cell, g);
    }
  }

  lemma {:induction false} FoldWrites(b: Bitmap, l: seq<Transfer>, k: nat, m: nat, cell: nat, g: Size)
    requires k <= m <= |l| && |b| == g.Cells() && cell < g.Cells()
    ensures var w := Writer(l, Range(k, m), m, cell, g);
            Fold(b, l[k..m], g)[cell] == if w >= 0 then ByteOf(l[w], g) else b[cell]
    decreases m
  {
    hide Apply, PaintsCell, ByteOf, Writer, Range;
    if k == m {
      WriterOfRange(l, k, m, cell, g);
    } else {
      FoldWrites(b, l, k, m - 1, cell, g);
      WriterOfRange(l, k, m, cell, g);
      assert l[k..m][..m - 1 - k] == l[k..m - 1];
      ApplyWrites(Fold(b, l[k..m - 1], g), l[m - 1], cell, g);
    }
  }

  lemma ApplyWrites(b: Bitmap, t: Transfer, cell: nat, g: Size)
    requires |b| == g.Cells() && cell < g.Cells()
    ensures Apply(b, t, g)[cell] == if PaintsCell(t, cell, g) then ByteOf(t, g) else b[cell]
  {}

  /** Painting a transfer with nothing later for its cell adds it to those shown. */
  lemma ShowsOneMore(b: Bitmap, taken: set<nat>, n: nat, i: nat, l: seq<Transfer>, g: Size)
    requires Shows(b, taken, n, l, g) && i < n && Paints(l[i], g) && Latest(l, taken, i, g)
    ensures Shows(Apply(b, l[i], g), taken + {i}, n, l, g)
  {
    hide CellOf;
    forall cell: nat | cell < g.Cells()
      ensures Apply(b, l[i], g)[cell] == Shown(l, taken + {i}, n, cell, g)
    {
      ApplyWrites(b, l[i], cell, g);
      var u, v := Writer(l, taken, n, cell, g), Writer(l, taken + {i}, n, cell, g);
      if PaintsCell(l[i], cell, g) {
        assert v >= i && v <= i;
      } else {
        assert u >= 0 ==> u in taken + {i};
        assert u == v;
      }
    }
  }

  lemma ShowsLater(b: Bitmap, taken: set<nat>, m: nat, n: nat, l: seq<Transfer>, g: Size)
    requires Shows(b, taken, m, l, g) && m <= n <= |l|
    ensures Shows(b, taken, n, l, g)
  {
    forall cell: nat | cell < g.Cells()
      ensures b[cell] == Shown(l, taken, n, cell, g)
    {
      WriterPast(l, taken, m, n, cell, g);
    }
  }

  /** Folding the tail of a ledger onto a bitmap shows the tail besides. */
  lemma ShowsTail(b: Bitmap, taken: set<nat>, k: nat, m: nat, l: seq<Transfer>, g: Size)
    requires Shows(b, taken, m, l, g) && k <= m
    ensures Shows(Fold(b, l[k..m], g), taken + Range(k, m), m, l, g)
  {
    hide CellOf;
    forall cell: nat | cell < g.Cells()
      ensures Fold(b, l[k..m], g)[cell] == Shown(l, taken + Range(k, m), m, cell, g)
    {
      FoldWrites(b, l, k, m, cell, g);
      WriterUnion(l, taken, Range(k, m), k, m, cell, g);
    }
  }

  lemma ShowsNothing(m: nat, l: seq<Transfer>, g: Size)
    requires m <= |l|
    ensures Shows(Blank(g), {}, m, l, g)
  {
    forall cell: nat | cell < g.Cells()
      ensures Shown(l, {}, m, cell, g) == 0
    {}
  }

  // ---- Boots ----

  lemma {:induction false} FoldWatermark(c: Cache, d: seq<Transfer>, g: Size)
    requires |c.bmp| == g.Cells()
    ensures FoldAll(c, d, g).warmTs == if d == [] then c.warmTs else d[|d| - 1].timestamp
  {
    hide Apply, SyncTo;
  }

  /** What the bitmap and the watermark of a boot from a snapshot are. */
  lemma BootParts(f: Saved, m: nat, nowMs: nat, l: seq<Transfer>, g: Size) returns (k: nat)
    requires Ordered(l) && m <= |l| && |f.c.bmp| == g.Cells()
    ensures k <= m && Carried(f, l, m) == f.taken + Range(k, m)
    ensures var r := Resume(Unspilled(f.c), l[..m], nowMs, g);
            r.bmp == Fold(f.c.bmp, l[k..m], g) && f.c.warmTs <= r.warmTs
  {
    hide Apply, SyncTo, Fold, FoldAll, FillTo, CountBefore;
    var p := l[..m];
    OrderedPrefix(l, m);
    k := CountBefore(p, f.c.warmTs + 1);
    CountBeforeSplits(p, f.c.warmTs + 1);
    assert forall i :: 0 <= i < m ==> p[i] == l[i];
    assert p[k..] == l[k..m];
    FoldAllBitmap(Unspilled(f.c), l[k..m], g);
    FoldWatermark(Unspilled(f.c), l[k..m], g);
    assert (set i | 0 <= i < m && f.c.warmTs < l[i].timestamp) == Range(k, m);
  }

  /** A boot from a snapshot shows exactly the ledger without the lost transfers. */
  lemma BootShows(f: Saved, m: nat, nowMs: nat, l: seq<Transfer>, g: Size)
    requires Ordered(l) && Shows(f.c.bmp, f.taken, m, l, g)
    ensures Shows(Resume(Unspilled(f.c), l[..m], nowMs, g).bmp, Carried(f, l, m), m, l, g)
    ensures forall i :: 0 <= i < m && Paints(l[i], g) ==> (i in Carried(f, l, m) <==> i !in Lost(f, l, m, g))
  {
    hide Resume, Fold;
    var k := BootParts(f, m, nowMs, l, g);
    ShowsTail(f.c.bmp, f.taken, k, m, l, g);
  }

  lemma ReplayShows(m: nat, nowMs: nat, l: seq<Transfer>, g: Size)
    requires m <= |l|
    ensures Shows(Warm(l[..m], nowMs, g).bmp, Range(0, m), m, l, g)
    ensures Shows(Fold(Blank(g), l[..m], g), Range(0, m), m, l, g)
  {
    hide Fold, FoldAll, FillTo;
    ShowsNothing(m, l, g);
    ShowsTail(Blank(g), {}, 0, m, l, g);
    assert l[0..m] == l[..m] && {} + Range(0, m) == Range(0, m);
    FoldAllBitmap(EmptyCache(g), l[..m], g);
  }

  /** The canvas a boot starts with is the ledger's if and only if, at every cell, the last posted claim is
      not lost or the last one carried shows the same colour. */
  lemma BootRightIff(f: Saved, m: nat, nowMs: nat, l: seq<Transfer>, g: Size)
    requires Ordered(l) && Shows(f.c.bmp, f.taken, m, l, g)
    ensures |f.c.bmp| == g.Cells()
    ensures Resume(Unspilled(f.c), l[..m], nowMs, g).bmp == Fold(Blank(g), l[..m], g)
            <==> forall cell: nat :: cell < g.Cells() ==>
                   Writer(l, Range(0, m), m, cell, g) in Lost(f, l, m, g) ==>
                   Shown(l, Carried(f, l, m), m, cell, g) == Shown(l, Range(0, m), m, cell, g)
  {
    hide Resume, Fold, Shown, Writer, Shows, Carried, Lost, Range;
    TakenBelow(f.c.bmp, f.taken, m, l, g);
    BootShows(f, m, nowMs, l, g);
    ReplayShows(m, nowMs, l, g);
    SameShown(Resume(Unspilled(f.c), l[..m], nowMs, g).bmp, Carried(f, l, m), Fold(Blank(g), l[..m], g), Range(0, m), m, l, g);
    forall cell: nat | cell < g.Cells() && Writer(l, Range(0, m), m, cell, g) !in Lost(f, l, m, g)
      ensures Shown(l, Carried(f, l, m), m, cell, g) == Shown(l, Range(0, m), m, cell, g)
    {
      KeptWriter(f, m, cell, l, g);
      SameWriter(Carried(f, l, m), Range(0, m), m, cell, l, g);
    }
  }

  lemma SameShown(a: Bitmap, s: set<nat>, b: Bitmap, t: set<nat>, m: nat, l: seq<Transfer>, g: Size)
    requires Shows(a, s, m, l, g) && Shows(b, t, m, l, g)
    ensures a == b <==> forall cell: nat :: cell < g.Cells() ==> Shown(l, s, m, cell, g) == Shown(l, t, m, cell, g)
  {
    hide Shown;
  }

  lemma TakenBelow(b: Bitmap, taken: set<nat>, m: nat, l: seq<Transfer>, g: Size)
    requires Shows(b, taken, m, l, g)
    ensures m <= |l| && |b| == g.Cells() && forall i :: i in taken ==> i < m
  {}

  lemma SameWriter(s: set<nat>, t: set<nat>, m: nat, cell: nat, l: seq<Transfer>, g: Size)
    requires m <= |l| && Writer(l, s, m, cell, g) == Writer(l, t, m, cell, g)
    ensures Shown(l, s, m, cell, g) == Shown(l, t, m, cell, g)
  {}

  lemma KeptWriter(f: Saved, m: nat, cell: nat, l: seq<Transfer>, g: Size)
    requires m <= |l| && (forall i :: i in f.taken ==> i < m)
    requires Writer(l, Range(0, m), m, cell, g) !in Lost(f, l, m, g)
    ensures Writer(l, Carried(f, l, m), m, cell, g) == Writer(l, Range(0, m), m, cell, g)
  {
    hide CellOf;
    var u, v := Writer(l, Carried(f, l, m), m, cell, g), Writer(l, Range(0, m), m, cell, g);
    assert v >= 0 ==> v in Carried(f, l, m);
    assert u >= 0 ==> u in Range(0, m);
  }

  // ---- Every step, and whole runs ----

  /** Every step leaves the bitmap showing just the transfers it is said to show. */
  lemma StepKeeps(w: World, step: Step, l: seq<Transfer>, g: Size)
    requires Ordered(l) && Sound(w, l, g) && Enabled(w, step, l, g)
    ensures Sized(w, l, g) && Sound(Take(w, step, l, g), l, g)
  {
    hide Apply, Shown, SyncTo, Resume, Warm, Latest, FoldAll, CellOf, Range, Fold;
    match step
    case Lands(_) =>
      ShowsLater(w.c.bmp, w.taken, w.upTo, w.upTo + 1, l, g);
      if w.file.Some? {
        ShowsLater(w.file.value.c.bmp, w.file.value.taken, w.upTo, w.upTo + 1, l, g);
      }
    case PaintsOwn(i, nowNs) =>
      ShowsOneMore(w.c.bmp, w.taken, w.upTo, i, l, g);
      ConfirmedParts(w.c, l[i], nowNs, g);
    case Delivers(i) =>
      ShowsOneMore(w.c.bmp, w.taken, w.upTo, i, l, g);
      PaintOfPosting(w.c, l[i], g);
    case Saves =>
    case Restarts(nowMs, log) =>
      if w.file.Some? {
        BootShows(w.file.value, w.upTo, nowMs, l, g);
      } else {
        ReplayShows(w.upTo, nowMs, l, g);
      }
  }

  lemma SoundSizes(w: World, l: seq<Transfer>, g: Size)
    requires Sound(w, l, g)
    ensures Sized(w, l, g)
  {}

  ghost predicate Runs(w: World, steps: seq<Step>, l: seq<Transfer>, g: Size)
    decreases |steps|
  {
    steps == [] || (Sized(w, l, g) && Enabled(w, steps[0], l, g) && Runs(Take(w, steps[0], l, g), steps[1..], l, g))
  }

  ghost function After(w: World, steps: seq<Step>, l: seq<Transfer>, g: Size): World
    requires Runs(w, steps, l, g)
    decreases |steps|
  {
    if steps == [] then w else After(Take(w, steps[0], l, g), steps[1..], l, g)
  }

  lemma {:induction false} RunKeeps(w: World, steps: seq<Step>, l: seq<Transfer>, g: Size)
    requires Ordered(l) && Sound(w, l, g) && Runs(w, steps, l, g)
    ensures Sound(After(w, steps, l, g), l, g)
    decreases |steps|
  {
    hide Take, Enabled, Sound;
    if steps != [] {
      StepKeeps(w, steps[0], l, g);
      RunKeeps(Take(w, steps[0], l, g), steps[1..], l, g);
    }
  }

  /** A paint neither the server nor its snapshot shows, at or below both watermarks, and no longer one of the
      server's confirms under way. */
  ghost predicate Gone(w: World, i: nat, l: seq<Transfer>)
    requires w.upTo <= |l|
  {
    && i < w.upTo && i !in w.taken && i !in w.inFlight && l[i].timestamp <= w.c.warmTs
    && w.file.Some? && i !in w.file.value.taken && l[i].timestamp <= w.file.value.c.warmTs
  }

  lemma StepNeverReturns(w: World, step: Step, i: nat, l: seq<Transfer>, g: Size)
    requires Ordered(l) && Sized(w, l, g) && Enabled(w, step, l, g) && Gone(w, i, l)
    ensures Gone(Take(w, step, l, g), i, l)
  {
    hide Apply, SyncTo, Resume, Latest, CellOf;
    match step
    case Restarts(nowMs, log) =>
      var k := BootParts(w.file.value, w.upTo, nowMs, l, g);
    case _ =>
  }

  /** A lost paint never returns: not by a redelivery, not by another save, not by another boot, as long as
      no boot replays the ledger. */
  lemma {:induction false} LostForGood(w: World, steps: seq<Step>, i: nat, l: seq<Transfer>, g: Size)
    requires Ordered(l) && Sound(w, l, g) && Runs(w, steps, l, g) && Gone(w, i, l)
    ensures After(w, steps, l, g).upTo <= |l| && Gone(After(w, steps, l, g), i, l)
    decreases |steps|
  {
    hide Take, Enabled, Sound, Gone;
    SoundSizes(w, l, g);
    if steps != [] {
      StepKeeps(w, steps[0], l, g);
      StepNeverReturns(w, steps[0], i, l, g);
      LostForGood(Take(w, steps[0], l, g), steps[1..], i, l, g);
    }
  }

  /** What a boot from a snapshot loses is gone. */
  lemma LostIsGone(w: World, nowMs: nat, log: seq<Checkpoint>, i: nat, l: seq<Transfer>, g: Size)
    requires Ordered(l) && Sound(w, l, g) && w.file.Some?
    requires i in Lost(w.file.value, l, w.upTo, g)
    ensures Sized(w, l, g) && Gone(Take(w, Restarts(nowMs, log), l, g), i, l)
  {
    hide Apply, SyncTo, Resume, Shown, CellOf;
    var k := BootParts(w.file.value, w.upTo, nowMs, l, g);
  }

  // ---- A server that loses a paint ----

  function LegAt(id: nat, x: u32, ns: nat): Transfer {
    Transfer(id, PixelID(x, 0), 0, 1, 0, 0, CLAIM_CODE, 0, 0, Flags(false, false, true, false), ns)
  }

  lemma LegPaints(id: nat, x: u32, ns: nat, g: Size)
    requires g.Contains(x, 0)
    ensures Paints(LegAt(id, x, ns), g) && CellOf(LegAt(id, x, ns), g) == x && ByteOf(LegAt(id, x, ns), g) == 1
  {
    UnpackIsInverse(PixelID(x, 0), x, 0);
  }

  function TwoLegs(): seq<Transfer> {
    [LegAt(1, 0, 60_000_000_000), LegAt(2, 1, 60_001_000_000)]
  }

  ghost function Fresh(g: Size): World {
    World(EmptyCache(g), {}, 0, {}, None)
  }

  /** The state when the second confirm has painted and a snapshot has been saved. */
  lemma OverlapSaves(g: Size)
    requires g.Contains(0, 0) && g.Contains(1, 0)
    ensures var l := TwoLegs();
            var steps := [Lands(true), Lands(true), PaintsOwn(1, 60_002_000_000), Saves];
            && Ordered(l) && Sound(Fresh(g), l, g) && Runs(Fresh(g), steps, l, g)
            && var r := After(Fresh(g), steps, l, g);
               && r.taken == {1} && r.upTo == 2 && r.c.warmTs == 60_002_000_000 && r.file == Some(Saved(r.c, {1}))
  {
    hide SyncTo, Shown;
    var l := TwoLegs();
    LegPaints(1, 0, 60_000_000_000, g);
    LegPaints(2, 1, 60_001_000_000, g);
    ShowsNothing(0, l, g);
    var w := Fresh(g);
    var w1 := Take(w, Lands(true), l, g);
    var w2 := Take(w1, Lands(true), l, g);
    assert 1 in w2.inFlight && Latest(l, w2.taken, 1, g);
    var w3 := Take(w2, PaintsOwn(1, 60_002_000_000), l, g);
    assert w3.taken == {1};
    var w4 := Take(w3, Saves, l, g);
    RunsFirst(w3, Saves, [], l, g);
    RunsFirst(w2, PaintsOwn(1, 60_002_000_000), [Saves], l, g);
    RunsFirst(w1, Lands(true), [PaintsOwn(1, 60_002_000_000), Saves], l, g);
    RunsFirst(w, Lands(true), [Lands(true), PaintsOwn(1, 60_002_000_000), Saves], l, g);
  }

  lemma RunsFirst(w: World, a: Step, rest: seq<Step>, l: seq<Transfer>, g: Size)
    requires Sized(w, l, g) && Enabled(w, a, l, g) && Runs(Take(w, a, l, g), rest, l, g)
    ensures Runs(w, [a] + rest, l, g) && After(w, [a] + rest, l, g) == After(Take(w, a, l, g), rest, l, g)
  {
    hide Take, Enabled;
    assert ([a] + rest)[1..] == rest;
  }

  /** Two players confirm; the second's paint is in the bitmap when a snapshot is saved and the first's is
      not, though the watermark is past both. The next boot shows the second and never the first. */
  lemma OverlapLosesPaint(g: Size, nowMs: nat, log: seq<Checkpoint>)
    requires g.Contains(0, 0) && g.Contains(1, 0)
    ensures var l := TwoLegs();
            var steps := [Lands(true), Lands(true), PaintsOwn(1, 60_002_000_000), Saves];
            && Ordered(l) && Runs(Fresh(g), steps, l, g)
            && var r := After(Fresh(g), steps, l, g);
               && Sized(r, l, g)
               && var boot := Take(r, Restarts(nowMs, log), l, g);
                  Gone(boot, 0, l) && boot.taken == {1} && boot.c.bmp != Fold(Blank(g), l, g)
  {
    hide Runs, After, Shown, Fold, Resume, Writer, Range;
    var l := TwoLegs();
    var steps := [Lands(true), Lands(true), PaintsOwn(1, 60_002_000_000), Saves];
    OverlapSaves(g);
    RunKeeps(Fresh(g), steps, l, g);
    var r := After(Fresh(g), steps, l, g);
    LegPaints(1, 0, 60_000_000_000, g);
    assert 0 in Lost(r.file.value, l, 2, g);
    LostIsGone(r, nowMs, log, 0, l, g);
    StepKeeps(r, Restarts(nowMs, log), l, g);
    assert Carried(r.file.value, l, 2) == {1};
    ReplayShows(2, nowMs, l, g);
    assert l[..2] == l;
    CornerCell(g);
  }

  /** The first cell shows the first leg's byte if it is taken, and nothing if only the second is. */
  lemma CornerCell(g: Size)
    requires g.Contains(0, 0) && g.Contains(1, 0)
    ensures 0 < g.Cells() && Shown(TwoLegs(), {1}, 2, 0, g) == 0 && Shown(TwoLegs(), Range(0, 2), 2, 0, g) == 1
  {
    hide LegAt, IsPostedClaim, CellOf, ByteOf, Index;
    LegPaints(1, 0, 60_000_000_000, g);
    LegPaints(2, 1, 60_001_000_000, g);
    CornerWriters(TwoLegs(), g);
    RowFits(0, 0, g);
  }

  lemma CornerWriters(l: seq<Transfer>, g: Size)
    requires |l| == 2 && PaintsCell(l[0], 0, g) && !PaintsCell(l[1], 0, g)
    ensures Writer(l, {1}, 2, 0, g) == -1 && Writer(l, Range(0, 2), 2, 0, g) == 0
  {
    hide PaintsCell;
    assert Within(0, 0, 2);
  }
}
