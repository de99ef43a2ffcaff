/** The checkpoint grid as values: which boundaries exist, what they hold, and which of them
    retention keeps in memory. The class in AnchorGrid.dfy is proved against these functions. */
module Checkpoints {
  import opened Bytes
  import opened Canvas

  const INTERVAL_MS := 60_000
  const MAX_ANCHORS := 1440
  const MAX_POOL_BYTES := 192 * 0x10_0000
  const NS_PER_MS := 1_000_000

  datatype Checkpoint = Checkpoint(tsMs: nat, bmp: Bitmap)

  /** A hash serves a run if it separates the run's bitmaps and gives none of them 0,
      the value the sidecar writer keeps for "no previous record". */
  ghost predicate CollisionFree(hash: Bitmap -> u64, run: iset<Bitmap>) {
    && (forall a, b :: a in run && b in run && hash(a) == hash(b) ==> a == b)
    && (forall a :: a in run ==> hash(a) != 0)
  }

  function Bitmaps(w: seq<Checkpoint>): set<Bitmap> {
    set i | 0 <= i < |w| :: w[i].bmp
  }

  ghost function TotalBytes(s: set<Bitmap>): nat {
    if s == {} then 0 else var b :| b in s; |b| + TotalBytes(s - {b})
  }

  lemma {:induction false} TotalBytesAdd(s: set<Bitmap>, b: Bitmap)
    requires b !in s
    ensures TotalBytes(s + {b}) == TotalBytes(s) + |b|
    decreases s
  {
    var t := s + {b};
    var c :| c in t && TotalBytes(t) == |c| + TotalBytes(t - {c});
    if c == b {
      assert t - {c} == s;
    } else {
      TotalBytesAdd(s - {c}, b);
      assert t - {c} == (s - {c}) + {b};
      TotalBytesAdd(s - {c}, c);
      assert (s - {c}) + {c} == s;
    }
  }

  lemma {:induction false} TotalBytesMonotone(s: set<Bitmap>, t: set<Bitmap>)
    requires s <= t
    ensures TotalBytes(s) <= TotalBytes(t)
    decreases t - s
  {
    if b :| b in t && b !in s {
      TotalBytesAdd(s, b);
      TotalBytesMonotone(s + {b}, t);
    } else {
      assert s == t;
    }
  }

  /** `spilled` are the checkpoints retention has dropped, oldest first; `window` those still in
      memory; `next` the boundary to record next, 0 before the first event. */
  datatype Grid = Grid(spilled: seq<Checkpoint>, window: seq<Checkpoint>, next: nat) {
    function All(): seq<Checkpoint> { spilled + window }
  }

  /** How many of the oldest entries retention drops: all but the newest when the pooled bytes
      exceed their cap, otherwise the overflow over the entry cap. */
  ghost function Excess(w: seq<Checkpoint>): (d: nat)
    requires w != []
    ensures d < |w|
  {
    if TotalBytes(Bitmaps(w)) > MAX_POOL_BYTES then |w| - 1
    else if |w| > MAX_ANCHORS then |w| - MAX_ANCHORS
    else 0
  }

  ghost function Insert(g: Grid, tsMs: nat, bmp: Bitmap): Grid {
    var w := g.window + [Checkpoint(tsMs, bmp)];
    var d := Excess(w);
    Grid(g.spilled + w[..d], w[d..], g.next)
  }

  ghost function Step(g: Grid, bmp: Bitmap): Grid {
    Insert(g, g.next, bmp).(next := g.next + INTERVAL_MS)
  }

  /** Records every boundary from `next` up to `ms`. */
  ghost function Advance(g: Grid, ms: nat, bmp: Bitmap): Grid
    decreases ms + INTERVAL_MS - g.next
  {
    if ms < g.next then g else Advance(Step(g, bmp), ms, bmp)
  }

  ghost function Start(g: Grid, ms: nat): Grid {
    if g.next == 0 then g.(next := ms / INTERVAL_MS * INTERVAL_MS) else g
  }

  ghost function SyncTo(g: Grid, eventNs: nat, bmp: Bitmap): Grid {
    Advance(Start(g, eventNs / NS_PER_MS), eventNs / NS_PER_MS, bmp)
  }

  ghost function FillTo(g: Grid, ms: nat, bmp: Bitmap): Grid {
    if g.next == 0 then g else Advance(g, ms, bmp)
  }

  const EMPTY_GRID := Grid([], [], 0)

  /** Consecutive minute boundaries, none missing and none twice. */
  ghost predicate Spaced(w: seq<Checkpoint>) {
    && (forall i :: 0 <= i < |w| ==> w[i].tsMs % 60_000 == 0)
    && (forall i :: 0 <= i < |w| - 1 ==> w[i + 1].tsMs == w[i].tsMs + 60_000)
  }

  ghost predicate WithinCaps(w: seq<Checkpoint>) {
    && |w| <= 1440
    && (TotalBytes(Bitmaps(w)) <= 192 * 0x10_0000 || |w| == 1)
  }

  ghost predicate WellFormed(g: Grid) {
    && g.next % INTERVAL_MS == 0
    && Spaced(g.window)
    && WithinCaps(g.window)
    && (g.window == [] ==> g.spilled == [])
    && (g.window != [] ==> g.window[|g.window| - 1].tsMs + INTERVAL_MS == g.next)
  }

  /** Between operations the grid holds an anchor exactly when it has started. */
  ghost predicate AtRest(g: Grid) {
    WellFormed(g) && (g.window == [] <==> g.next == 0)
  }

  /** Whatever retention keeps meets both caps. */
  lemma ExcessMeetsCaps(w: seq<Checkpoint>)
    requires w != []
    ensures WithinCaps(w[Excess(w)..])
  {
    var d := Excess(w);
    if TotalBytes(Bitmaps(w)) <= MAX_POOL_BYTES {
      assert forall i :: 0 <= i < |w[d..]| ==> w[d..][i] == w[i + d];
      TotalBytesMonotone(Bitmaps(w[d..]), Bitmaps(w));
    }
  }

  /** Retention drops no more than the caps need: all but the newest when the distinct bitmaps exceed 192 MiB,
      otherwise only what lies beyond the newest 1440. */
  lemma InsertRetains(g: Grid, tsMs: nat, bmp: Bitmap)
    ensures var w, r := g.window + [Checkpoint(tsMs, bmp)], Insert(g, tsMs, bmp);
            && r.All() == g.All() + [Checkpoint(tsMs, bmp)]
            && (TotalBytes(Bitmaps(w)) > 192 * 0x10_0000 ==> r.window == [Checkpoint(tsMs, bmp)])
            && (TotalBytes(Bitmaps(w)) <= 192 * 0x10_0000 ==> r.window == w[if |w| > 1440 then |w| - 1440 else 0..])
  {
    hide Bitmaps;
    var c := Checkpoint(tsMs, bmp);
    var w := g.window + [c];
    var d := Excess(w);
    assert w == w[..d] + w[d..];
    assert g.spilled + w[..d] + w[d..] == g.spilled + (w[..d] + w[d..]);
    assert g.spilled + (g.window + [c]) == g.All() + [c];
    assert w[|w| - 1..] == [c];
  }

  lemma SpacedExtend(w: seq<Checkpoint>, c: Checkpoint)
    requires Spaced(w) && c.tsMs % INTERVAL_MS == 0
    requires w != [] ==> c.tsMs == w[|w| - 1].tsMs + INTERVAL_MS
    ensures Spaced(w + [c])
  {}

  lemma SpacedSuffix(w: seq<Checkpoint>, d: nat)
    requires Spaced(w) && d <= |w|
    ensures Spaced(w[d..])
  {}

  lemma StepRecords(g: Grid, bmp: Bitmap)
    ensures var r := Step(g, bmp);
            && r.next == g.next + INTERVAL_MS
            && r.All() == g.All() + [Checkpoint(g.next, bmp)]
            && r.window != [] && r.window[|r.window| - 1] == Checkpoint(g.next, bmp)
  {
    hide Excess;
    var w := g.window + [Checkpoint(g.next, bmp)];
    var d := Excess(w);
    assert w == w[..d] + w[d..];
    assert g.spilled + w[..d] + w[d..] == g.spilled + (w[..d] + w[d..]);
    assert g.spilled + (g.window + [Checkpoint(g.next, bmp)]) == g.All() + [Checkpoint(g.next, bmp)];
  }

  lemma StepWindow(g: Grid, bmp: Bitmap)
    requires Spaced(g.window) && g.next % INTERVAL_MS == 0
    requires g.window != [] ==> g.window[|g.window| - 1].tsMs + INTERVAL_MS == g.next
    ensures Spaced(Step(g, bmp).window) && WithinCaps(Step(g, bmp).window)
  {
    var c := Checkpoint(g.next, bmp);
    var w := g.window + [c];
    SpacedExtend(g.window, c);
    SpacedSuffix(w, Excess(w));
    ExcessMeetsCaps(w);
  }

  lemma StepKeeps(g: Grid, bmp: Bitmap)
    requires WellFormed(g)
    ensures WellFormed(Step(g, bmp))
    ensures Step(g, bmp).window != [] && Step(g, bmp).next == g.next + INTERVAL_MS
    ensures Step(g, bmp).All() == g.All() + [Checkpoint(g.next, bmp)]
    ensures Spaced(g.All()) ==> Spaced(Step(g, bmp).All())
  {
    hide Spaced, WithinCaps, Step;
    StepRecords(g, bmp);
    StepWindow(g, bmp);
    if Spaced(g.All()) {
      assert g.window != [] ==> g.All()[|g.All()| - 1] == g.window[|g.window| - 1];
      SpacedExtend(g.All(), Checkpoint(g.next, bmp));
    }
  }

  /** What advancing records: a run of new boundaries in the gap, each holding the given bitmap. */
  lemma {:induction false} AdvanceRecords(g: Grid, ms: nat, bmp: Bitmap)
    requires WellFormed(g)
    ensures var r := Advance(g, ms, bmp);
            && WellFormed(r)
            && (Spaced(g.All()) ==> Spaced(r.All()))
            && ms < r.next && g.next <= r.next && (r.next == g.next || r.next - INTERVAL_MS <= ms)
            && (r.next == g.next ==> r == g) && (r.next != g.next ==> r.window != [])
            && g.All() <= r.All()
            && |r.All()| == |g.All()| + (r.next - g.next) / INTERVAL_MS
            && (forall i :: |g.All()| <= i < |r.All()| ==> r.All()[i].bmp == bmp && g.next <= r.All()[i].tsMs <= r.next - INTERVAL_MS)
    decreases ms + INTERVAL_MS - g.next
  {
    hide Spaced, WithinCaps, Step;
    if g.next <= ms {
      StepKeeps(g, bmp);
      AdvanceRecords(Step(g, bmp), ms, bmp);
      var r := Advance(g, ms, bmp);
      assert r == Advance(Step(g, bmp), ms, bmp);
      assert r.All()[|g.All()|] == Checkpoint(g.next, bmp);
    }
  }

  lemma {:induction false} AdvanceTwice(g: Grid, m1: nat, m2: nat, bmp: Bitmap)
    requires WellFormed(g)
    requires m1 <= m2 || Advance(g, m1, bmp).next - INTERVAL_MS <= m2
    ensures Advance(Advance(g, m1, bmp), m2, bmp) == Advance(g, m2, bmp)
    decreases m1 + INTERVAL_MS - g.next
  {
    AdvanceRecords(g, m1, bmp);
    if g.next <= m1 {
      StepKeeps(g, bmp);
      AdvanceRecords(Step(g, bmp), m1, bmp);
      AdvanceTwice(Step(g, bmp), m1, m2, bmp);
    }
  }

  lemma SyncRests(g: Grid, eventNs: nat, bmp: Bitmap)
    requires AtRest(g)
    ensures AtRest(SyncTo(g, eventNs, bmp)) && SyncTo(g, eventNs, bmp).next > 0
    ensures WellFormed(Start(g, eventNs / NS_PER_MS))
    ensures Spaced(g.All()) ==> Spaced(SyncTo(g, eventNs, bmp).All())
  {
    AdvanceRecords(Start(g, eventNs / NS_PER_MS), eventNs / NS_PER_MS, bmp);
  }

  lemma FillRests(g: Grid, ms: nat, bmp: Bitmap)
    requires AtRest(g)
    ensures AtRest(FillTo(g, ms, bmp))
    ensures Spaced(g.All()) ==> Spaced(FillTo(g, ms, bmp).All())
  {
    if g.next != 0 {
      AdvanceRecords(g, ms, bmp);
    }
  }

  /** What a server does to its grid, over and over. */
  datatype GridOp = Sync(eventNs: nat, bmp: Bitmap) | Fill(ms: nat, bmp: Bitmap)

  ghost function RunOps(ops: seq<GridOp>): Grid {
    if ops == [] then EMPTY_GRID
    else
      var gr := RunOps(ops[..|ops| - 1]);
      match ops[|ops| - 1]
      case Sync(ns, bmp) => SyncTo(gr, ns, bmp)
      case Fill(ms, bmp) => FillTo(gr, ms, bmp)
  }

  /** After any run of syncs and fills, the evicted list followed by the one in memory is every boundary
      once, in order and a minute apart, up to the one before the next; and what is in memory is within the
      caps. */
  lemma {:induction false} RunSpaced(ops: seq<GridOp>)
    ensures var gr := RunOps(ops);
            && AtRest(gr) && Spaced(gr.All()) && WithinCaps(gr.window)
            && (gr.All() != [] ==> gr.All()[|gr.All()| - 1].tsMs + INTERVAL_MS == gr.next)
  {
    hide SyncTo, FillTo, Spaced, WithinCaps, Excess;
    if ops == [] {
      NothingSpaced();
    } else {
      var gr := RunOps(ops[..|ops| - 1]);
      RunSpaced(ops[..|ops| - 1]);
      match ops[|ops| - 1] {
        case Sync(ns, bmp) => SyncRests(gr, ns, bmp);
        case Fill(ms, bmp) => FillRests(gr, ms, bmp);
      }
    }
  }

  /** While the bitmaps recorded so far total at most 192 MiB, memory holds the newest 1440 checkpoints. */
  ghost predicate Retained(g: Grid) {
    TotalBytes(Bitmaps(g.All())) <= 192 * 0x10_0000 ==>
      g.window == g.All()[if |g.All()| > 1440 then |g.All()| - 1440 else 0..]
  }

  lemma BitmapsWithin(w: seq<Checkpoint>, all: seq<Checkpoint>)
    requires forall c :: c in w ==> c in all
    ensures TotalBytes(Bitmaps(w)) <= TotalBytes(Bitmaps(all))
  {
    forall b | b in Bitmaps(w)
      ensures b in Bitmaps(all)
    {
      var i :| 0 <= i < |w| && w[i].bmp == b;
      assert w[i] in w;
      var j :| 0 <= j < |all| && all[j] == w[i];
    }
    TotalBytesMonotone(Bitmaps(w), Bitmaps(all));
  }

  lemma StepRetains(g: Grid, bmp: Bitmap)
    requires Retained(g)
    ensures Retained(Step(g, bmp))
  {
    hide Bitmaps, Insert;
    var c := Checkpoint(g.next, bmp);
    var w, all := g.window + [c], g.All() + [c];
    InsertRetains(g, g.next, bmp);
    BitmapsWithin(g.All(), all);
    BitmapsWithin(w, all);
    if TotalBytes(Bitmaps(all)) <= 192 * 0x10_0000 {
      var d := if |g.All()| > 1440 then |g.All()| - 1440 else 0;
      assert w == all[d..];
      assert w[if |w| > 1440 then |w| - 1440 else 0..] == all[if |all| > 1440 then |all| - 1440 else 0..];
    }
  }

  lemma {:induction false} AdvanceRetains(g: Grid, ms: nat, bmp: Bitmap)
    requires Retained(g)
    ensures Retained(Advance(g, ms, bmp))
    decreases ms + INTERVAL_MS - g.next
  {
    hide Retained, Step;
    if g.next <= ms {
      assert Step(g, bmp).next == g.next + INTERVAL_MS by {
        StepRecords(g, bmp);
      }
      StepRetains(g, bmp);
      AdvanceRetains(Step(g, bmp), ms, bmp);
    }
  }

  /** So it is after any run of syncs and fills. */
  lemma {:induction false} RunRetains(ops: seq<GridOp>)
    ensures Retained(RunOps(ops))
  {
    hide Bitmaps, Advance;
    if ops != [] {
      var gr := RunOps(ops[..|ops| - 1]);
      RunRetains(ops[..|ops| - 1]);
      match ops[|ops| - 1] {
        case Sync(ns, bmp) => AdvanceRetains(Start(gr, ns / NS_PER_MS), ns / NS_PER_MS, bmp);
        case Fill(ms, bmp) =>
          if gr.next != 0 {
            AdvanceRetains(gr, ms, bmp);
          }
      }
    }
  }

  /** What one event records: a checkpoint of the standing bitmap at each minute after the newest boundary up
      to the event, or at the event's own minute if there was none. */
  lemma SyncRecords(g: Grid, eventNs: nat, bmp: Bitmap)
    requires AtRest(g)
    ensures var all, r, ms := g.All(), SyncTo(g, eventNs, bmp).All(), eventNs / 1_000_000;
            && all <= r
            && forall c :: c in r[|all|..] <==>
                 && c.bmp == bmp && c.tsMs % 60_000 == 0 && c.tsMs <= ms
                 && (if all == [] then ms < c.tsMs + 60_000 else all[|all| - 1].tsMs < c.tsMs)
  {
    hide WithinCaps, Spaced, Advance;
    var ms := eventNs / NS_PER_MS;
    var s, all := Start(g, ms), g.All();
    AllEnds(g);
    AdvanceExact(s, ms, bmp);
    forall c: Checkpoint | c.tsMs % 60_000 == 0
      ensures s.next <= c.tsMs <= ms <==>
              c.tsMs <= ms && (if all == [] then ms < c.tsMs + 60_000 else all[|all| - 1].tsMs < c.tsMs)
    {
      MinuteFrom(c.tsMs, s.next, ms);
    }
  }

  /** Among full minutes, from `next` on is past the one before it; from the minute of `ms` up to `ms` is that one. */
  lemma MinuteFrom(t: nat, next: nat, ms: nat)
    requires t % 60_000 == 0 && next % 60_000 == 0
    ensures next <= t <==> next < t + 60_000
    ensures ms / 60_000 * 60_000 <= t <= ms <==> t <= ms < t + 60_000
  {}

  /** The same up to the clock, except that nothing is recorded before the first event. */
  lemma FillRecords(g: Grid, ms: nat, bmp: Bitmap)
    requires AtRest(g)
    ensures var all, r := g.All(), FillTo(g, ms, bmp).All();
            && all <= r
            && forall c :: c in r[|all|..] <==>
                 && c.bmp == bmp && c.tsMs % 60_000 == 0 && c.tsMs <= ms
                 && all != [] && all[|all| - 1].tsMs < c.tsMs
  {
    hide WithinCaps, Spaced, Advance;
    AllEnds(g);
    if g.next != 0 {
      AdvanceExact(g, ms, bmp);
      forall c: Checkpoint | c.tsMs % 60_000 == 0
        ensures g.next <= c.tsMs <==> g.All()[|g.All()| - 1].tsMs < c.tsMs
      {
        MinuteFrom(c.tsMs, g.next, ms);
      }
    }
  }

  lemma AllEnds(g: Grid)
    requires AtRest(g)
    ensures g.All() == [] <==> g.next == 0
    ensures g.All() != [] ==> g.All()[|g.All()| - 1].tsMs + 60_000 == g.next
  {}

  lemma AdvanceExact(g: Grid, ms: nat, bmp: Bitmap)
    requires WellFormed(g)
    ensures var all, r := g.All(), Advance(g, ms, bmp).All();
            && all <= r
            && forall c :: c in r[|all|..] <==> c.bmp == bmp && c.tsMs % 60_000 == 0 && g.next <= c.tsMs <= ms
    decreases ms + INTERVAL_MS - g.next
  {
    hide WithinCaps, Spaced, Step;
    var all, r := g.All(), Advance(g, ms, bmp).All();
    if g.next <= ms {
      var s, first := Step(g, bmp), Checkpoint(g.next, bmp);
      StepKeeps(g, bmp);
      AdvanceExact(s, ms, bmp);
      assert r[|all|..] == [first] + r[|all| + 1..] && s.All() == all + [first];
      forall c
        ensures c in r[|all|..] <==> c.bmp == bmp && c.tsMs % 60_000 == 0 && g.next <= c.tsMs <= ms
      {
        assert c in r[|all|..] <==> c == first || c in r[|all| + 1..];
        assert g.next % 60_000 == 0;
      }
    }
  }

  lemma NothingSpaced()
    ensures AtRest(EMPTY_GRID) && Spaced([]) && WithinCaps([])
  {}

  /** What has been spilled never influences what is kept. */
  lemma {:induction false} SpilledIrrelevant(g: Grid, pre: seq<Checkpoint>, ms: nat, bmp: Bitmap)
    ensures var r := Advance(g, ms, bmp);
            Advance(g.(spilled := pre + g.spilled), ms, bmp) == r.(spilled := pre + r.spilled)
    decreases ms + INTERVAL_MS - g.next
  {
    if g.next <= ms {
      SpilledIrrelevant(Step(g, bmp), pre, ms, bmp);
      var h := g.(spilled := pre + g.spilled);
      var w := g.window + [Checkpoint(g.next, bmp)];
      assert (pre + g.spilled) + w[..Excess(w)] == pre + (g.spilled + w[..Excess(w)]);
      assert Step(h, bmp) == Step(g, bmp).(spilled := pre + Step(g, bmp).spilled);
    }
  }
}
