/** The checkpoint grid as the server keeps it: a list of hashed anchors over a pool of shared
    bitmaps, spilling to the sidecar. Each method is proved against Checkpoints. */
module AnchorGrids {
  import opened Bytes
  import opened Canvas
  import opened Checkpoints
  import opened Sidecar
  import opened SidecarFiles

  datatype Anchor = Anchor(tsMs: nat, hash: u64)

  /** The pool holds, under its hash, each bitmap of the window and nothing else. */
  ghost predicate Pools(pool: map<u64, Bitmap>, w: seq<Checkpoint>, hash: Bitmap -> u64) {
    && (forall i :: 0 <= i < |w| ==> hash(w[i].bmp) in pool && pool[hash(w[i].bmp)] == w[i].bmp)
    && (forall h :: h in pool ==> hash(pool[h]) == h && pool[h] in Bitmaps(w))
  }

  lemma PoolValues(pool: map<u64, Bitmap>, w: seq<Checkpoint>, hash: Bitmap -> u64)
    requires Pools(pool, w, hash)
    ensures pool.Values == Bitmaps(w)
  {
    forall b | b in Bitmaps(w) ensures b in pool.Values {
      assert hash(b) in pool && pool[hash(b)] == b;
    }
  }

  lemma PoolRemove(pool: map<u64, Bitmap>, h: u64, hash: Bitmap -> u64)
    requires h in pool && forall k :: k in pool ==> hash(pool[k]) == k
    ensures TotalBytes(pool.Values) == TotalBytes((pool - {h}).Values) + |pool[h]|
  {
    var rest := (pool - {h}).Values;
    assert pool[h] !in rest;
    assert pool.Values == rest + {pool[h]} by {
      forall b | b in pool.Values ensures b in rest + {pool[h]} {
        var k :| k in pool && pool[k] == b;
        assert k != h ==> k in (pool - {h}) && (pool - {h})[k] == b;
      }
    }
    TotalBytesAdd(rest, pool[h]);
  }

  lemma PoolAdd(pool: map<u64, Bitmap>, w: seq<Checkpoint>, c: Checkpoint, hash: Bitmap -> u64)
    requires Pools(pool, w, hash)
    requires hash(c.bmp) in pool ==> pool[hash(c.bmp)] == c.bmp
    ensures Pools(pool[hash(c.bmp) := c.bmp], w + [c], hash)
    ensures hash(c.bmp) !in pool ==>
              TotalBytes(pool[hash(c.bmp) := c.bmp].Values) == TotalBytes(pool.Values) + |c.bmp|
  {
    var more := pool[hash(c.bmp) := c.bmp];
    assert (w + [c])[|w|] == c;
    forall b | b in Bitmaps(w) ensures b in Bitmaps(w + [c]) {
      var i :| 0 <= i < |w| && w[i].bmp == b;
      assert (w + [c])[i].bmp == b;
    }
    assert more[hash(c.bmp)] in Bitmaps(w + [c]);
    if hash(c.bmp) !in pool {
      assert forall k :: k in more ==> hash(more[k]) == k;
      PoolRemove(more, hash(c.bmp), hash);
      assert more - {hash(c.bmp)} == pool;
    }
  }

  lemma PoolPruned(pool: map<u64, Bitmap>, w: seq<Checkpoint>, d: nat, kept: map<u64, Bitmap>, hash: Bitmap -> u64)
    requires Pools(pool, w, hash) && d <= |w|
    requires forall h :: h in kept <==> h in pool && exists i :: d <= i < |w| && hash(w[i].bmp) == h
    requires forall h :: h in kept ==> kept[h] == pool[h]
    ensures Pools(kept, w[d..], hash)
  {
    forall h | h in kept ensures kept[h] in Bitmaps(w[d..]) {
      var i :| d <= i < |w| && hash(w[i].bmp) == h;
      assert w[d..][i - d] == w[i];
    }
    assert forall i :: 0 <= i < |w[d..]| ==> w[d..][i] == w[i + d];
  }

  ghost predicate Storable(c: Checkpoint, run: iset<Bitmap>) {
    c.bmp in run && 0 < |c.bmp| <= MAX_POOL_BYTES && c.tsMs < U63
  }

  /** The hashed list, the pool and its byte count stand for the window. */
  ghost predicate Holds(list: seq<Anchor>, pool: map<u64, Bitmap>, poolBytes: nat, w: seq<Checkpoint>,
                        hash: Bitmap -> u64, run: iset<Bitmap>)
  {
    && Names(list, w, hash)
    && Pools(pool, w, hash)
    && poolBytes == TotalBytes(Bitmaps(w))
    && AllStorable(w, run)
  }

  ghost predicate Names(list: seq<Anchor>, w: seq<Checkpoint>, hash: Bitmap -> u64) {
    && |list| == |w|
    && (forall i :: 0 <= i < |list| ==> list[i] == Anchor(w[i].tsMs, hash(w[i].bmp)))
  }

  ghost predicate AllStorable(w: seq<Checkpoint>, run: iset<Bitmap>) {
    forall i :: 0 <= i < |w| ==> Storable(w[i], run)
  }

  lemma HoldsOneMore(list: seq<Anchor>, pool: map<u64, Bitmap>, poolBytes: nat, w: seq<Checkpoint>, c: Checkpoint,
                     hash: Bitmap -> u64, run: iset<Bitmap>)
    requires CollisionFree(hash, run) && Holds(list, pool, poolBytes, w, hash, run) && Storable(c, run)
    ensures var h := hash(c.bmp);
            Holds(list + [Anchor(c.tsMs, h)], pool[h := c.bmp], if h in pool then poolBytes else poolBytes + |c.bmp|,
                  w + [c], hash, run)
    ensures hash(c.bmp) in pool ==> pool[hash(c.bmp) := c.bmp] == pool
  {
    var h := hash(c.bmp);
    if h in pool {
      assert pool[h] in Bitmaps(w) && pool[h] in run;
      assert pool[h := c.bmp] == pool;
    }
    PoolAdd(pool, w, c, hash);
    PoolValues(pool, w, hash);
    PoolValues(pool[h := c.bmp], w + [c], hash);
  }

  function Hashes(w: seq<Checkpoint>, hash: Bitmap -> u64): set<u64> {
    set i | 0 <= i < |w| :: hash(w[i].bmp)
  }

  lemma {:induction false} FewHashes(w: seq<Checkpoint>, hash: Bitmap -> u64)
    ensures |Hashes(w, hash)| <= |w|
  {
    if w != [] {
      var init, h := w[..|w| - 1], hash(w[|w| - 1].bmp);
      FewHashes(init, hash);
      assert Hashes(w, hash) == Hashes(init, hash) + {h};
    }
  }

  /** The pool never has more bitmaps than the window has anchors. */
  lemma PoolSmall(pool: map<u64, Bitmap>, w: seq<Checkpoint>, hash: Bitmap -> u64)
    requires Pools(pool, w, hash)
    ensures |pool| <= |w|
  {
    FewHashes(w, hash);
    assert pool.Keys <= Hashes(w, hash) by {
      forall h | h in pool ensures h in Hashes(w, hash) {
        var i :| 0 <= i < |w| && w[i].bmp == pool[h];
        assert hash(w[i].bmp) == h;
      }
    }
    SubsetSmaller(pool.Keys, Hashes(w, hash));
    assert |pool| == |pool.Keys|;
  }

  lemma {:induction false} SubsetSmaller(s: set<u64>, t: set<u64>)
    requires s <= t
    ensures |s| <= |t|
  {
    assert t == s + (t - s);
  }

  class AnchorGrid {
    const hash: Bitmap -> u64
    ghost const run: iset<Bitmap>
    var list: seq<Anchor>
    var pool: map<u64, Bitmap>
    var poolBytes: nat
    var nextBoundary: nat
    var evicted: seq<AnchorRef>
    const onEvict: SidecarFile?
    ghost var prior: seq<Checkpoint>  // what the sidecar held before this grid spilled into it
    ghost var grid: Grid  // the checkpoints the fields stand for

    ghost predicate Represents()
      reads this
    {
      && CollisionFree(hash, run)
      && nextBoundary == grid.next
      && Holds(list, pool, poolBytes, grid.window, hash, run)
    }

    ghost predicate Spills()
      reads this, onEvict
    {
      if onEvict == null then evicted == [] else
      && onEvict.Valid() && onEvict.hash == hash && onEvict.run == run
      && onEvict.written == prior + grid.spilled
      && Recorded(onEvict.data, evicted, grid.spilled, hash)
    }

    ghost predicate Rep()
      reads this, onEvict
    {
      Represents() && Spills()
    }

    ghost predicate Valid()
      reads this, onEvict
    {
      Rep() && AtRest(grid)
    }

    constructor (hash: Bitmap -> u64, ghost run: iset<Bitmap>, onEvict: SidecarFile?)
      requires CollisionFree(hash, run)
      requires onEvict != null ==> onEvict.Valid() && onEvict.hash == hash && onEvict.run == run
      ensures Valid() && this.hash == hash && this.run == run && this.onEvict == onEvict
      ensures prior == if onEvict == null then [] else onEvict.written
      ensures grid == EMPTY_GRID && evicted == []
    {
      this.hash, this.run, this.onEvict := hash, run, onEvict;
      this.prior := if onEvict == null then [] else onEvict.written;
      list, pool, poolBytes, nextBoundary, evicted := [], map[], 0, 0, [];
      grid := EMPTY_GRID;
    }

    /** The grid a snapshot restores: nothing spilled, the boundary after its newest anchor next. */
    constructor Restore(hash: Bitmap -> u64, ghost run: iset<Bitmap>, onEvict: SidecarFile?, ghost window: seq<Checkpoint>,
                        list: seq<Anchor>, pool: map<u64, Bitmap>, poolBytes: nat, nextBoundary: nat)
      requires CollisionFree(hash, run)
      requires onEvict != null ==> onEvict.Valid() && onEvict.hash == hash && onEvict.run == run
      requires AtRest(Grid([], window, nextBoundary))
      requires Names(list, window, hash) && Pools(pool, window, hash) && poolBytes == TotalBytes(pool.Values)
      requires AllStorable(window, run)
      ensures Valid() && this.hash == hash && this.run == run && this.onEvict == onEvict
      ensures prior == if onEvict == null then [] else onEvict.written
      ensures grid == Grid([], window, nextBoundary) && evicted == []
    {
      hide Pools, CollisionFree, Logs, Remembers, Spaced, WithinCaps, Bitmaps;
      PoolValues(pool, window, hash);
      this.hash, this.run, this.onEvict := hash, run, onEvict;
      this.prior := if onEvict == null then [] else onEvict.written;
      this.list, this.pool, this.poolBytes, this.nextBoundary, evicted := list, pool, poolBytes, nextBoundary, [];
      grid := Grid([], window, nextBoundary);
    }

    method SyncTo(eventNs: nat, bmp: Bitmap)
      requires Valid() && eventNs < U63 && bmp in run && 0 < |bmp| <= MAX_POOL_BYTES
      modifies this, onEvict
      ensures Valid() && prior == old(prior)
      ensures grid == Checkpoints.SyncTo(old(grid), eventNs, bmp)
    {
      var eventMs := eventNs / NS_PER_MS;
      SyncRests(grid, eventNs, bmp);
      if nextBoundary == 0 {
        nextBoundary := eventMs / INTERVAL_MS * INTERVAL_MS;
        grid := Start(grid, eventMs);
      }
      AdvanceTo(eventMs, bmp);
    }

    method FillTo(ms: nat, bmp: Bitmap)
      requires Valid() && ms < U63 && bmp in run && 0 < |bmp| <= MAX_POOL_BYTES
      modifies this, onEvict
      ensures Valid() && prior == old(prior)
      ensures grid == Checkpoints.FillTo(old(grid), ms, bmp)
    {
      FillRests(grid, ms, bmp);
      if nextBoundary == 0 {
        return;
      }
      AdvanceTo(ms, bmp);
    }

    /** The loop both callers run: one checkpoint of `bmp` at every boundary up to `ms`. */
    method AdvanceTo(ms: nat, bmp: Bitmap)
      requires Rep() && WellFormed(grid) && ms < U63 && bmp in run && 0 < |bmp| <= MAX_POOL_BYTES
      modifies this, onEvict
      ensures Rep() && prior == old(prior)
      ensures grid == Advance(old(grid), ms, bmp)
    {
      hide Holds, Recorded, Logs, Remembers, CollisionFree, Spaced, WithinCaps;
      while ms >= nextBoundary
        invariant Rep() && WellFormed(grid) && prior == old(prior)
        invariant Advance(grid, ms, bmp) == Advance(old(grid), ms, bmp)
        decreases ms + INTERVAL_MS - nextBoundary
      {
        StepKeeps(grid, bmp);
        RecordNext(bmp);
      }
    }

    /** One turn of the loop: a checkpoint at the next boundary, then on to the one after. */
    method RecordNext(bmp: Bitmap)
      requires Rep() && nextBoundary < U63 && bmp in run && 0 < |bmp| <= MAX_POOL_BYTES
      modifies this, onEvict
      ensures Rep() && prior == old(prior)
      ensures grid == Step(old(grid), bmp)
    {
      hide Holds, Recorded, Logs, Remembers, CollisionFree, Excess;
      Insert(nextBoundary, bmp);
      nextBoundary := nextBoundary + INTERVAL_MS;
      grid := grid.(next := nextBoundary);
    }

    method Insert(tsMs: nat, bmp: Bitmap)
      requires Rep() && Storable(Checkpoint(tsMs, bmp), run)
      modifies this, onEvict
      ensures Rep() && prior == old(prior)
      ensures grid == Checkpoints.Insert(old(grid), tsMs, bmp)
    {
      hide Holds, Recorded, Logs, Remembers, CollisionFree;
      var h := hash(bmp);
      ghost var c := Checkpoint(tsMs, bmp);
      HoldsOneMore(list, pool, poolBytes, grid.window, c, hash, run);
      if h !in pool {
        pool := pool[h := bmp];
        poolBytes := poolBytes + |bmp|;
      }
      list := list + [Anchor(tsMs, h)];
      grid := grid.(window := grid.window + [c]);
      Evict();
    }

    method Evict()
      requires Rep() && list != []
      modifies this, onEvict
      ensures Rep() && prior == old(prior)
      ensures var w := old(grid.window);
              var d := if TotalBytes(Bitmaps(w)) > 192 * 0x10_0000 then |w| - 1 else if |w| > 1440 then |w| - 1440 else 0;
              grid == Grid(old(grid).spilled + w[..d], w[d..], old(grid.next))
    {
      hide CollisionFree, Recorded, Logs, Remembers, Pools, Bitmaps;
      ghost var w := grid.window;
      var drop := 0;
      if |list| > MAX_ANCHORS {
        drop := |list| - MAX_ANCHORS;
      }
      while poolBytes > MAX_POOL_BYTES && |list| - drop > 1
        invariant drop <= |list| - 1
        invariant poolBytes <= MAX_POOL_BYTES ==> drop == Excess(w)
      {
        drop := drop + 1;
      }
      assert drop == Excess(w);
      if drop == 0 {
        assert w[..0] == [] && w[0..] == w;
        return;
      }
      var dropped := list[..drop];
      var bitmaps := pool;
      list := list[drop..];
      SpillDropped(dropped, bitmaps, w);
      Prune(w, drop);
      grid := Grid(grid.spilled, w[drop..], grid.next);
    }

    /** Hands each dropped anchor to the sidecar, or forgets it when there is none. */
    method SpillDropped(dropped: seq<Anchor>, bitmaps: map<u64, Bitmap>, ghost w: seq<Checkpoint>)
      requires Spills() && CollisionFree(hash, run)
      requires |dropped| <= |w| && forall i :: 0 <= i < |w| ==> Storable(w[i], run)
      requires forall i :: 0 <= i < |dropped| ==> dropped[i] == Anchor(w[i].tsMs, hash(w[i].bmp))
      requires Pools(bitmaps, w, hash)
      modifies this`evicted, this`grid, onEvict
      ensures Spills()
      ensures grid == old(grid).(spilled := old(grid).spilled + w[..|dropped|])
    {
      for k := 0 to |dropped|
        invariant Spills()
        invariant grid == old(grid).(spilled := old(grid).spilled + w[..k])
      {
        var a := dropped[k];
        ghost var c := w[k];
        assert w[..k + 1] == w[..k] + [c];
        assert old(grid).spilled + w[..k + 1] == old(grid).spilled + w[..k] + [c];
        if onEvict != null {
          ghost var before := onEvict.data;
          var off, len := onEvict.WriteAnchorBlob(a.tsMs, a.hash, bitmaps[a.hash]);
          RecordedGrows(before, onEvict.data, evicted, grid.spilled, AnchorRef(a.tsMs, off, len, a.hash), c, hash);
          evicted := evicted + [AnchorRef(a.tsMs, off, len, a.hash)];
          assert prior + (grid.spilled + [c]) == prior + grid.spilled + [c];
        }
        grid := grid.(spilled := grid.spilled + [c]);
      }
    }

    /** Frees the pooled bitmaps no surviving anchor refers to. */
    method Prune(ghost w: seq<Checkpoint>, ghost d: nat)
      requires d <= |w| && |list| == |w| - d
      requires forall i :: 0 <= i < |list| ==> list[i].hash == hash(w[i + d].bmp)
      requires Pools(pool, w, hash) && poolBytes == TotalBytes(Bitmaps(w))
      modifies this`pool, this`poolBytes
      ensures Pools(pool, w[d..], hash) && poolBytes == TotalBytes(Bitmaps(w[d..]))
    {
      var referenced: set<u64> := {};
      for i := 0 to |list|
        invariant referenced == set k | 0 <= k < i :: list[k].hash
      {
        referenced := referenced + {list[i].hash};
      }
      PoolValues(pool, w, hash);
      var todo := pool.Keys;
      while todo != {}
        invariant todo <= pool.Keys <= old(pool).Keys
        invariant forall h :: h in pool ==> pool[h] == old(pool)[h]
        invariant forall h :: h in old(pool) ==> (h in pool <==> h in todo || h in referenced)
        invariant poolBytes == TotalBytes(pool.Values)
        decreases todo
      {
        var h :| h in todo;
        if h !in referenced {
          PoolRemove(pool, h, hash);
          poolBytes := poolBytes - |pool[h]|;
          pool := pool - {h};
        }
        todo := todo - {h};
      }
      assert forall h :: h in referenced <==> exists i :: d <= i < |w| && hash(w[i].bmp) == h by {
        forall h | h in referenced ensures exists i :: d <= i < |w| && hash(w[i].bmp) == h {
          var k :| 0 <= k < |list| && list[k].hash == h;
          assert hash(w[k + d].bmp) == h;
        }
        forall i | d <= i < |w| ensures hash(w[i].bmp) in referenced {
          assert list[i - d].hash == hash(w[i].bmp);
        }
      }
      PoolPruned(old(pool), w, d, pool, hash);
      PoolValues(pool, w[d..], hash);
    }

    lemma SidecarIsValid()
      requires Valid() && onEvict != null
      ensures onEvict.Valid() && onEvict.hash == hash && onEvict.run == run && onEvict.written == prior + grid.spilled
    {}

    /** What the snapshot writer needs to know of the grid. */
    lemma Saveable()
      requires Valid()
      ensures |list| <= MAX_ANCHORS && |pool| <= |list| && Names(list, grid.window, hash) && Pools(pool, grid.window, hash)
      ensures Holds(list, pool, poolBytes, grid.window, hash, run)
      ensures forall i :: 0 <= i < |list| ==> list[i].tsMs < U63
      ensures forall h :: h in pool ==> |pool[h]| <= MAX_POOL_BYTES
      ensures Spaced(grid.window) && (grid.window != [] ==> grid.window[|grid.window| - 1].tsMs + INTERVAL_MS == grid.next)
    {
      PoolSmall(pool, grid.window, hash);
    }

    lemma WindowAscends()
      requires Valid()
      ensures forall i, j :: 0 <= i < j < |grid.window| ==> grid.window[i].tsMs < grid.window[j].tsMs
    {
      SpacedAscends(grid.window);
    }

    /** With a sidecar, the evicted index carries exactly the spilled boundaries. */
    lemma EvictedTimes()
      requires Valid() && onEvict != null
      ensures |evicted| == |grid.spilled| && forall i :: 0 <= i < |evicted| ==> evicted[i].tsMs == grid.spilled[i].tsMs
    {}

    lemma FindEvicted(ref: AnchorRef) returns (k: nat)
      requires Valid() && ref in evicted
      ensures onEvict != null && k < |grid.spilled| && evicted[k] == ref && Restores(onEvict.data, ref, grid.spilled[k], hash)
    {
      k :| 0 <= k < |evicted| && evicted[k] == ref;
    }

    /** Replaces the index by a scan of the whole sidecar, older runs' records included. */
    method AdoptScan()
      requires Valid() && onEvict != null && grid.window != []
      modifies this`evicted, this`grid, this`prior, onEvict`anchorBlobs
      ensures Valid() && prior == []
      ensures grid == old(grid).(spilled := old(onEvict.written))
    {
      hide Holds, Recorded, Logs, Remembers, CollisionFree, Spaced, WithinCaps;
      ScanRecorded(onEvict.data, onEvict.written, hash, run);
      evicted := onEvict.ScanAnchorSidecar();
      grid := grid.(spilled := onEvict.written);
      prior := [];
    }

    /** The newest evicted checkpoint at or before `tsMs`. */
    method SidecarAt(tsMs: nat) returns (best: AnchorRef, found: bool)
      ensures found ==> best in evicted && best.tsMs <= tsMs
      ensures forall r :: r in evicted && r.tsMs <= tsMs ==> found && r.tsMs <= best.tsMs
    {
      best, found := AnchorRef(0, 0, 0, 0), false;
      for i := 0 to |evicted|
        invariant found ==> best in evicted && best.tsMs <= tsMs
        invariant forall k :: 0 <= k < i && evicted[k].tsMs <= tsMs ==> found && evicted[k].tsMs <= best.tsMs
      {
        var ref := evicted[i];
        if ref.tsMs <= tsMs && (!found || ref.tsMs > best.tsMs) {
          best, found := ref, true;
        }
      }
    }

    lemma ListAscends()
      requires Valid()
      ensures |list| == |grid.window|
      ensures forall i :: 0 <= i < |list| ==> list[i].tsMs == grid.window[i].tsMs
      ensures forall i :: 0 <= i < |list| ==> list[i].hash in pool && pool[list[i].hash] == grid.window[i].bmp
      ensures forall i, j :: 0 <= i < j < |list| ==> list[i].tsMs < list[j].tsMs
    {
      SpacedAscends(grid.window);
    }

    /** The newest anchor in memory at or before `tsMs`, with the instant its bitmap stands for. */
    method CheckpointAt(tsMs: nat) returns (bmp: Bitmap, startNs: nat, ok: bool, ghost at: nat)
      requires Valid()
      ensures ok ==> at < |grid.window| && grid.window[at] == Checkpoint(startNs / NS_PER_MS, bmp)
                     && startNs == grid.window[at].tsMs * NS_PER_MS && grid.window[at].tsMs <= tsMs
                     && (at + 1 < |grid.window| ==> tsMs < grid.window[at + 1].tsMs)
      ensures !ok ==> forall i :: 0 <= i < |grid.window| ==> tsMs < grid.window[i].tsMs
    {
      hide CollisionFree, AllStorable, Recorded, Logs, Remembers, WithinCaps, Spaced, Pools, Names, Bitmaps;
      ListAscends();
      var lo, hi := 0, |list|;
      while lo < hi
        invariant 0 <= lo <= hi <= |list|
        invariant forall i :: 0 <= i < lo ==> list[i].tsMs <= tsMs
        invariant forall i :: hi <= i < |list| ==> tsMs < list[i].tsMs
      {
        var mid := (lo + hi) / 2;
        if list[mid].tsMs <= tsMs {
          lo := mid + 1;
        } else {
          hi := mid;
        }
      }
      at := 0;
      if lo == 0 {
        return [], 0, false, 0;
      }
      var a := list[lo - 1];
      return pool[a.hash], a.tsMs * NS_PER_MS, true, lo - 1;
    }
  }

  lemma {:induction false} SpacedAscends(w: seq<Checkpoint>)
    requires Spaced(w)
    ensures forall i, j :: 0 <= i < j < |w| ==> w[i].tsMs < w[j].tsMs
  {
    if w != [] {
      var init := w[..|w| - 1];
      SpacedAscends(init);
      forall i, j | 0 <= i < j < |w| ensures w[i].tsMs < w[j].tsMs {
        if j == |w| - 1 && i < j - 1 {
          assert init[i].tsMs < init[j - 1].tsMs;
        } else if j < |w| - 1 {
          assert init[i].tsMs < init[j].tsMs;
        }
      }
    }
  }

  /** Each reference restores the matching checkpoint. */
  ghost predicate Recorded(data: seq<byte>, refs: seq<AnchorRef>, cs: seq<Checkpoint>, hash: Bitmap -> u64) {
    && |refs| == |cs|
    && (forall i :: 0 <= i < |refs| ==> refs[i].off + refs[i].len <= |data| && Restores(data, refs[i], cs[i], hash))
  }

  lemma ScanRecorded(data: seq<byte>, written: seq<Checkpoint>, hash: Bitmap -> u64, run: iset<Bitmap>)
    requires Logs(data, written, hash, run)
    ensures Recorded(data, ScanAll(data).entries, written, hash)
  {}

  lemma RecordedGrows(data: seq<byte>, more: seq<byte>, refs: seq<AnchorRef>, cs: seq<Checkpoint>, r: AnchorRef, c: Checkpoint,
                      hash: Bitmap -> u64)
    requires Recorded(data, refs, cs, hash) && data <= more
    requires r.off + r.len <= |more| && Restores(more, r, c, hash)
    ensures Recorded(more, refs + [r], cs + [c], hash)
  {
    assert more == data + more[|data|..];
    forall i | 0 <= i < |refs| ensures Restores(more, refs[i], cs[i], hash) {
      FetchExtends(data, more[|data|..], refs[i], hash);
    }
  }
}
