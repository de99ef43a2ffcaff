/** Writing and reading the snapshot file, loop by loop. */
module SnapshotFiles {
  import opened Bytes
  import opened Canvas
  import opened AnchorGrids
  import opened Snapshot

  /** Streams the state out, the pool in whatever order its keys come. */
  method WriteSnapshot(warmTs: u64, firstMs: u64, lastMs: u64, bmp: Bitmap, list: seq<Anchor>, pool: map<u64, Bitmap>, g: Size)
      returns (d: seq<byte>, ghost entries: seq<Entry>)
    requires |bmp| == g.Cells() < U64 && |list| < U64 && |pool| < U64
    requires forall i :: 0 <= i < |list| ==> list[i].tsMs < U64
    requires forall h :: h in pool ==> |pool[h]| < U32
    ensures Lists(entries, pool)
    ensures Encodable(Saved(warmTs, firstMs, lastMs, bmp, list, entries), g)
    ensures d == Encode(Saved(warmTs, firstMs, lastMs, bmp, list, entries), g)
  {
    hide Put64, Put32, EncodeAnchors, EncodeEntries, PoolOf;
    d := MAGIC + Put64(warmTs) + Put32(g.w) + Put32(g.h) + Put64(firstMs) + Put64(lastMs) + Put64(|bmp|) + bmp;
    var anchors := WriteAnchors(list);
    d := d + anchors;
    var blobs;
    blobs, entries := WritePool(pool);
    d := d + blobs;
  }

  method WriteAnchors(list: seq<Anchor>) returns (d: seq<byte>)
    requires |list| < U64 && forall i :: 0 <= i < |list| ==> list[i].tsMs < U64
    ensures d == Put64(|list|) + EncodeAnchors(list)
  {
    hide Put64, EncodeAnchors;
    d := Put64(|list|);
    EncodeNothing();
    for i := 0 to |list|
      invariant d == Put64(|list|) + EncodeAnchors(list[..i])
    {
      EncodeAnchorsSnoc(list[..i], list[i]);
      assert list[..i + 1] == list[..i] + [list[i]];
      d := d + Put64(list[i].tsMs) + Put64(list[i].hash);
    }
    assert list[..|list|] == list;
  }

  method WritePool(pool: map<u64, Bitmap>) returns (d: seq<byte>, ghost entries: seq<Entry>)
    requires |pool| < U64 && forall h :: h in pool ==> |pool[h]| < U32
    ensures Lists(entries, pool) && |entries| == |pool|
    ensures forall i :: 0 <= i < |entries| ==> |entries[i].bmp| < U32
    ensures d == Put64(|pool|) + EncodeEntries(entries)
  {
    hide Streamed, Put64, Put32;
    StreamStarts(pool);
    d, entries := Put64(|pool|), [];
    var todo := pool.Keys;
    while todo != {}
      invariant todo <= pool.Keys && Streamed(d, entries, pool, todo)
      decreases todo
    {
      var h :| h in todo;
      StreamContinues(d, entries, pool, todo, h);
      var rec := Put64(h) + Put32(|pool[h]|) + pool[h];
      d := d + rec;
      entries := entries + [Entry(h, pool[h])];
      todo := todo - {h};
    }
    StreamEnds(d, entries, pool);
  }

  /** So far the stream holds the pool count and the entries no longer to do. */
  ghost predicate Streamed(d: seq<byte>, es: seq<Entry>, pool: map<u64, Bitmap>, todo: set<u64>) {
    && Distinct(es)
    && PoolOf(es).Keys == pool.Keys - todo
    && (forall h :: h in PoolOf(es) ==> h in pool && PoolOf(es)[h] == pool[h])
    && |pool| < U64
    && (forall i :: 0 <= i < |es| ==> |es[i].bmp| < U32)
    && d == Put64(|pool|) + EncodeEntries(es)
  }

  lemma StreamStarts(pool: map<u64, Bitmap>)
    requires |pool| < U64
    ensures Streamed(Put64(|pool|), [], pool, pool.Keys)
  {
    hide Put64;
    EncodeNothing();
  }

  lemma StreamContinues(d: seq<byte>, es: seq<Entry>, pool: map<u64, Bitmap>, todo: set<u64>, h: u64)
    requires Streamed(d, es, pool, todo) && h in todo && todo <= pool.Keys && |pool[h]| < U32
    ensures Streamed(d + (Put64(h) + Put32(|pool[h]|) + pool[h]), es + [Entry(h, pool[h])], pool, todo - {h})
  {
    hide Put64, Put32, EncodeEntries, PoolOf;
    var e := Entry(h, pool[h]);
    PoolOfSnoc(es, e);
    EncodeAppended(d, Put64(|pool|), es, e);
  }

  lemma PoolOfSnoc(es: seq<Entry>, e: Entry)
    requires Distinct(es) && e.hash !in PoolOf(es)
    ensures PoolOf(es + [e]) == PoolOf(es)[e.hash := e.bmp] && Distinct(es + [e])
  {
    assert (es + [e])[..|es|] == es;
    PoolOfKeys(es);
  }

  lemma EncodeAppended(d: seq<byte>, count: seq<byte>, es: seq<Entry>, e: Entry)
    requires (forall i :: 0 <= i < |es| ==> |es[i].bmp| < U32) && |e.bmp| < U32
    requires d == count + EncodeEntries(es)
    ensures d + EncodeEntry(e) == count + EncodeEntries(es + [e])
  {
    hide EncodeEntries, EncodeEntry;
    EncodeEntriesSnoc(es, e);
  }

  lemma StreamEnds(d: seq<byte>, es: seq<Entry>, pool: map<u64, Bitmap>)
    requires Streamed(d, es, pool, {})
    ensures Lists(es, pool) && |es| == |pool|
    ensures forall i :: 0 <= i < |es| ==> |es[i].bmp| < U32
    ensures d == Put64(|pool|) + EncodeEntries(es)
  {
    assert PoolOf(es).Keys == pool.Keys;
    ListedCount(es);
  }

  lemma EncodeNothing()
    ensures EncodeAnchors([]) == [] && EncodeEntries([]) == [] && PoolOf([]) == map[]
  {}

  lemma {:induction false} ListedCount(es: seq<Entry>)
    requires Distinct(es)
    ensures |PoolOf(es)| == |es|
  {
    if es != [] {
      var init, h := es[..|es| - 1], es[|es| - 1].hash;
      ListedCount(init);
      PoolOfKeys(init);
      assert PoolOf(es).Keys == PoolOf(init).Keys + {h};
    }
  }

  lemma {:induction false} EncodeAnchorsSnoc(s: seq<Anchor>, a: Anchor)
    requires (forall i :: 0 <= i < |s| ==> s[i].tsMs < U64) && a.tsMs < U64
    ensures EncodeAnchors(s + [a]) == EncodeAnchors(s) + Put64(a.tsMs) + Put64(a.hash)
  {
    if s != [] {
      assert (s + [a])[1..] == s[1..] + [a];
      EncodeAnchorsSnoc(s[1..], a);
    } else {
      assert EncodeAnchors([a]) == Put64(a.tsMs) + Put64(a.hash) + EncodeAnchors([]);
    }
  }

  lemma {:induction false} EncodeEntriesSnoc(s: seq<Entry>, e: Entry)
    requires (forall i :: 0 <= i < |s| ==> |s[i].bmp| < U32) && |e.bmp| < U32
    ensures EncodeEntries(s + [e]) == EncodeEntries(s) + EncodeEntry(e)
  {
    if s != [] {
      assert (s + [e])[1..] == s[1..] + [e];
      EncodeEntriesSnoc(s[1..], e);
    } else {
      assert EncodeEntries([e]) == EncodeEntry(e) + EncodeEntries([]);
    }
  }

  /** Reads a snapshot, refusing any mismatch, truncation or trailing byte, but panicking on an anchor count
      of 2^63 or more. */
  method LoadSnapshotFile(d: seq<byte>, g: Size) returns (r: Reading)
    ensures r == Reads(d, g)
    ensures r.Accepted? <==> exists s :: Encodable(s, g) && Referenced(s) && |s.list| < U63 && d == Encode(s, g)
  {
    hide Get64, Get32, ReadAnchors, ReadEntries, PoolOf, BytesOf, ReadPool, ReadList, Encode, Encodable, Referenced;
    ReadsExactlySaved(d, g);
    if |d| < 48 || d[..8] != MAGIC {
      return Refused;
    }
    var wm, first, last := Get64(d[8..16]), Get64(d[24..32]), Get64(d[32..40]);
    if Get32(d[16..20]) != g.w || Get32(d[20..24]) != g.h {
      return Refused;
    }
    var bmpLen := Get64(d[40..48]);
    if bmpLen != g.Cells() || 48 + bmpLen > |d| {
      return Refused;
    }
    var bmp := d[48..48 + bmpLen];
    if 48 + bmpLen + 8 <= |d| && Get64(d[48 + bmpLen..48 + bmpLen + 8]) >= U63 {
      return Panicked;
    }
    var anchors := LoadAnchors(d, 48 + bmpLen);
    if anchors.Short? {
      return Refused;
    }
    var list := anchors.value;
    var ok, pool, poolBytes, end, entries := LoadPool(d, anchors.pos);
    if !ok || end != |d| {
      return Refused;
    }
    for i := 0 to |list|
      invariant forall k :: 0 <= k < i ==> list[k].hash in pool
    {
      if list[i].hash !in pool {
        return Refused;
      }
    }
    var nextBoundary := if list != [] then (list[|list| - 1].tsMs / 60_000 + 1) * 60_000
                        else (wm / 1_000_000 / 60_000 + 1) * 60_000;
    return Accepted(Loaded(wm, first, last, bmp, list, pool, poolBytes, nextBoundary));
  }

  method LoadAnchors(d: seq<byte>, at: nat) returns (r: Read<seq<Anchor>>)
    ensures r == ReadList(d, at)
  {
    if at + 8 > |d| {
      return Short;
    }
    var anchorCount := Get64(d[at..at + 8]);
    var pos := at + 8;
    var list: seq<Anchor> := [];
    for i := 0 to anchorCount
      invariant ReadAnchors(d, pos, anchorCount - i, list) == ReadList(d, at)
    {
      if pos + 16 > |d| {
        return Short;
      }
      list := list + [Anchor(Get64(d[pos..pos + 8]), Get64(d[pos + 8..pos + 16]))];
      pos := pos + 16;
    }
    return Got(list, pos);
  }

  method LoadPool(d: seq<byte>, at: nat)
      returns (ok: bool, pool: map<u64, Bitmap>, poolBytes: nat, pos: nat, ghost entries: seq<Entry>)
    ensures ReadPool(d, at) == if ok then Got(entries, pos) else Short
    ensures ok ==> pool == PoolOf(entries) && poolBytes == BytesOf(entries)
  {
    ok, pool, poolBytes, pos, entries := false, map[], 0, at, [];
    if at + 8 > |d| {
      return;
    }
    var poolCount := Get64(d[at..at + 8]);
    pos := at + 8;
    for i := 0 to poolCount
      invariant ReadEntries(d, pos, poolCount - i, entries) == ReadPool(d, at)
      invariant pool == PoolOf(entries) && poolBytes == BytesOf(entries)
    {
      if pos + 12 > |d| {
        return;
      }
      var h, len := Get64(d[pos..pos + 8]), Get32(d[pos + 8..pos + 12]);
      if pos + 12 + len > |d| {
        return;
      }
      var pb := d[pos + 12..pos + 12 + len];
      assert (entries + [Entry(h, pb)])[..|entries|] == entries;
      entries := entries + [Entry(h, pb)];
      pool := pool[h := pb];
      poolBytes := poolBytes + |pb|;
      pos := pos + 12 + len;
    }
    ok := true;
  }
}
