/** The on-disk snapshot as a byte format: what is written, and the reader that accepts it. */
module Snapshot {
  import opened Bytes
  import opened Canvas
  import opened Checkpoints
  import opened AnchorGrids

  // "PBSSNAP2"
  const MAGIC: seq<byte> := [0x50, 0x42, 0x53, 0x53, 0x4e, 0x41, 0x50, 0x32]

  datatype Entry = Entry(hash: u64, bmp: Bitmap)

  /** The content of a snapshot file, pool entries in the order they were written. */
  datatype Saved = Saved(warmTs: u64, firstMs: u64, lastMs: u64, bmp: Bitmap, list: seq<Anchor>, entries: seq<Entry>)

  /** What loading hands back: the saved state with the grid's bookkeeping rebuilt. */
  datatype Loaded = Loaded(warmTs: u64, firstMs: u64, lastMs: u64, bmp: Bitmap, list: seq<Anchor>,
                           pool: map<u64, Bitmap>, poolBytes: nat, nextBoundary: nat)

  predicate Encodable(s: Saved, g: Size) {
    && |s.bmp| == g.Cells() < U64
    && |s.list| < U64 && (forall i :: 0 <= i < |s.list| ==> s.list[i].tsMs < U64)
    && |s.entries| < U64 && (forall i :: 0 <= i < |s.entries| ==> |s.entries[i].bmp| < U32)
  }

  function EncodeAnchors(list: seq<Anchor>): seq<byte>
    requires forall i :: 0 <= i < |list| ==> list[i].tsMs < U64
  {
    if list == [] then [] else Put64(list[0].tsMs) + Put64(list[0].hash) + EncodeAnchors(list[1..])
  }

  function EncodeEntry(e: Entry): seq<byte>
    requires |e.bmp| < U32
  {
    Put64(e.hash) + Put32(|e.bmp|) + e.bmp
  }

  function EncodeEntries(es: seq<Entry>): seq<byte>
    requires forall i :: 0 <= i < |es| ==> |es[i].bmp| < U32
  {
    if es == [] then [] else EncodeEntry(es[0]) + EncodeEntries(es[1..])
  }

  function Head(s: Saved, g: Size): (h: seq<byte>)
    requires |s.bmp| < U64
    ensures |h| == 48
  {
    MAGIC + Put64(s.warmTs) + Put32(g.w) + Put32(g.h) + Put64(s.firstMs) + Put64(s.lastMs) + Put64(|s.bmp|)
  }

  function Encode(s: Saved, g: Size): seq<byte>
    requires Encodable(s, g)
  {
    Head(s, g) + s.bmp + (Put64(|s.list|) + EncodeAnchors(s.list)) + (Put64(|s.entries|) + EncodeEntries(s.entries))
  }

  // ---- The reader, as functions of the data and a cursor ----

  datatype Read<+T> = Short | Got(value: T, pos: nat)

  function ReadAnchors(d: seq<byte>, pos: nat, n: nat, acc: seq<Anchor>): Read<seq<Anchor>>
    decreases n
  {
    if n == 0 then Got(acc, pos)
    else if pos + 16 > |d| then Short
    else ReadAnchors(d, pos + 16, n - 1, acc + [Anchor(Get64(d[pos..pos + 8]), Get64(d[pos + 8..pos + 16]))])
  }

  function ReadEntries(d: seq<byte>, pos: nat, n: nat, acc: seq<Entry>): Read<seq<Entry>>
    decreases n
  {
    if n == 0 then Got(acc, pos)
    else if pos + 12 > |d| then Short
    else
      var len := Get32(d[pos + 8..pos + 12]);
      if pos + 12 + len > |d| then Short
      else ReadEntries(d, pos + 12 + len, n - 1, acc + [Entry(Get64(d[pos..pos + 8]), d[pos + 12..pos + 12 + len])])
  }

  function ReadList(d: seq<byte>, pos: nat): Read<seq<Anchor>> {
    if pos + 8 > |d| then Short else ReadAnchors(d, pos + 8, Get64(d[pos..pos + 8]), [])
  }

  function ReadPool(d: seq<byte>, pos: nat): Read<seq<Entry>> {
    if pos + 8 > |d| then Short else ReadEntries(d, pos + 8, Get64(d[pos..pos + 8]), [])
  }

  predicate HeaderOk(d: seq<byte>, g: Size) {
    && 48 + g.Cells() <= |d|
    && d[..8] == MAGIC
    && Get32(d[16..20]) == g.w && Get32(d[20..24]) == g.h
    && Get64(d[40..48]) == g.Cells()
  }

  /** Everything but the end-of-file and reference checks: the content and where it ends. */
  function Body(d: seq<byte>, g: Size): Read<Saved> {
    if !HeaderOk(d, g) then Short
    else
      match ReadList(d, 48 + g.Cells())
      case Short => Short
      case Got(list, p) =>
        match ReadPool(d, p)
        case Short => Short
        case Got(entries, q) =>
          Got(Saved(Get64(d[8..16]), Get64(d[24..32]), Get64(d[32..40]), d[48..48 + g.Cells()], list, entries), q)
  }

  function PoolOf(es: seq<Entry>): map<u64, Bitmap> {
    if es == [] then map[] else PoolOf(es[..|es| - 1])[es[|es| - 1].hash := es[|es| - 1].bmp]
  }

  function BytesOf(es: seq<Entry>): nat {
    if es == [] then 0 else BytesOf(es[..|es| - 1]) + |es[|es| - 1].bmp|
  }

  function NextBoundary(list: seq<Anchor>, warmTs: nat): nat {
    if list != [] then (list[|list| - 1].tsMs / INTERVAL_MS + 1) * INTERVAL_MS
    else (warmTs / NS_PER_MS / INTERVAL_MS + 1) * INTERVAL_MS
  }

  function Load(d: seq<byte>, g: Size): Option<Loaded> {
    match Body(d, g)
    case Short => None
    case Got(s, p) =>
      if p != |d| || exists i :: 0 <= i < |s.list| && s.list[i].hash !in PoolOf(s.entries) then None
      else Some(Loaded(s.warmTs, s.firstMs, s.lastMs, s.bmp, s.list, PoolOf(s.entries), BytesOf(s.entries),
                       NextBoundary(s.list, s.warmTs)))
  }

  /** The header and bitmap are in order and the anchor count has its top bit set. The reader takes the count
      as a signed integer for a slice's capacity, and a negative capacity is a panic, not an error. */
  predicate Panics(d: seq<byte>, g: Size) {
    HeaderOk(d, g) && 48 + g.Cells() + 8 <= |d| && Get64(d[48 + g.Cells()..48 + g.Cells() + 8]) >= U63
  }

  datatype Reading = Panicked | Refused | Accepted(s: Loaded)

  function Reads(d: seq<byte>, g: Size): Reading {
    if Panics(d, g) then Panicked
    else match Load(d, g) case None => Refused case Some(s) => Accepted(s)
  }

  // ---- Prefix freedom ----

  lemma {:induction false} ReadAnchorsExtends(d: seq<byte>, more: seq<byte>, pos: nat, n: nat, acc: seq<Anchor>)
    requires ReadAnchors(d, pos, n, acc).Got? && pos <= |d|
    ensures ReadAnchors(d + more, pos, n, acc) == ReadAnchors(d, pos, n, acc)
    ensures ReadAnchors(d, pos, n, acc).pos <= |d|
    decreases n
  {
    if n > 0 {
      var all := d + more;
      assert all[pos..pos + 8] == d[pos..pos + 8] && all[pos + 8..pos + 16] == d[pos + 8..pos + 16];
      ReadAnchorsExtends(d, more, pos + 16, n - 1, acc + [Anchor(Get64(d[pos..pos + 8]), Get64(d[pos + 8..pos + 16]))]);
    }
  }

  lemma {:induction false} ReadEntriesExtends(d: seq<byte>, more: seq<byte>, pos: nat, n: nat, acc: seq<Entry>)
    requires ReadEntries(d, pos, n, acc).Got? && pos <= |d|
    ensures ReadEntries(d + more, pos, n, acc) == ReadEntries(d, pos, n, acc)
    ensures ReadEntries(d, pos, n, acc).pos <= |d|
    decreases n
  {
    if n > 0 {
      var all := d + more;
      assert all[pos..pos + 8] == d[pos..pos + 8] && all[pos + 8..pos + 12] == d[pos + 8..pos + 12];
      var len := Get32(d[pos + 8..pos + 12]);
      assert all[pos + 12..pos + 12 + len] == d[pos + 12..pos + 12 + len];
      ReadEntriesExtends(d, more, pos + 12 + len, n - 1,
                         acc + [Entry(Get64(d[pos..pos + 8]), d[pos + 12..pos + 12 + len])]);
    }
  }

  lemma HeaderExtends(d: seq<byte>, more: seq<byte>, g: Size)
    requires HeaderOk(d, g)
    ensures HeaderOk(d + more, g)
    ensures var n := 48 + g.Cells();
            (d + more)[8..16] == d[8..16] && (d + more)[24..32] == d[24..32] && (d + more)[32..40] == d[32..40]
            && (d + more)[48..n] == d[48..n]
  {
    var all := d + more;
    assert all[..8] == d[..8] && all[16..20] == d[16..20] && all[20..24] == d[20..24] && all[40..48] == d[40..48];
  }

  /** Reading never looks past where it stops. */
  lemma BodyExtends(d: seq<byte>, more: seq<byte>, g: Size)
    requires Body(d, g).Got?
    ensures Body(d + more, g) == Body(d, g) && Body(d, g).pos <= |d|
  {
    var all, at := d + more, 48 + g.Cells();
    HeaderExtends(d, more, g);
    assert all[at..at + 8] == d[at..at + 8];
    ReadAnchorsExtends(d, more, at + 8, Get64(d[at..at + 8]), []);
    var p := ReadList(d, at).pos;
    assert all[p..p + 8] == d[p..p + 8];
    ReadEntriesExtends(d, more, p + 8, Get64(d[p..p + 8]), []);
  }

  /** No accepted file is a proper prefix of another: truncation and trailing bytes are refused. */
  lemma AcceptedFilesPrefixFree(d: seq<byte>, more: seq<byte>, g: Size)
    requires more != []
    ensures Load(d, g) == None || Load(d + more, g) == None
  {
    if Body(d, g).Got? {
      BodyExtends(d, more, g);
    }
  }

  // ---- Round trip ----

  lemma {:induction false} ReadAnchorsEncoded(pre: seq<byte>, list: seq<Anchor>, post: seq<byte>, acc: seq<Anchor>)
    requires forall i :: 0 <= i < |list| ==> list[i].tsMs < U64
    ensures ReadAnchors(pre + EncodeAnchors(list) + post, |pre|, |list|, acc)
            == Got(acc + list, |pre| + |EncodeAnchors(list)|)
    decreases |list|
  {
    var d := pre + EncodeAnchors(list) + post;
    if list == [] {
      assert acc + list == acc;
    } else {
      var a, b := Put64(list[0].tsMs), Put64(list[0].hash);
      assert d == (pre + a + b) + EncodeAnchors(list[1..]) + post;
      assert d[|pre|..|pre| + 8] == a && d[|pre| + 8..|pre| + 16] == b;
      PutGet64(list[0].tsMs);
      PutGet64(list[0].hash);
      ReadAnchorsEncoded(pre + a + b, list[1..], post, acc + [list[0]]);
      assert acc + [list[0]] + list[1..] == acc + list;
    }
  }

  lemma {:induction false} ReadEntriesEncoded(pre: seq<byte>, es: seq<Entry>, post: seq<byte>, acc: seq<Entry>)
    requires forall i :: 0 <= i < |es| ==> |es[i].bmp| < U32
    ensures ReadEntries(pre + EncodeEntries(es) + post, |pre|, |es|, acc) == Got(acc + es, |pre| + |EncodeEntries(es)|)
    decreases |es|
  {
    hide EncodeEntry, Get64, Get32;
    var d := pre + EncodeEntries(es) + post;
    if es == [] {
      assert acc + es == acc;
    } else {
      var e := es[0];
      var code := EncodeEntry(e);
      EntryFields(pre, e, EncodeEntries(es[1..]) + post);
      assert d == (pre + code) + EncodeEntries(es[1..]) + post;
      assert d == pre + code + (EncodeEntries(es[1..]) + post);
      ReadEntriesEncoded(pre + code, es[1..], post, acc + [e]);
      assert acc + [e] + es[1..] == acc + es;
    }
  }

  lemma EntryFields(pre: seq<byte>, e: Entry, post: seq<byte>)
    requires |e.bmp| < U32
    ensures var d, p := pre + EncodeEntry(e) + post, |pre|;
            && |EncodeEntry(e)| == 12 + |e.bmp|
            && Get64(d[p..p + 8]) == e.hash && Get32(d[p + 8..p + 12]) == |e.bmp|
            && d[p + 12..p + 12 + |e.bmp|] == e.bmp
  {
    var d, p := pre + EncodeEntry(e) + post, |pre|;
    assert d[p..p + 8] == Put64(e.hash) && d[p + 8..p + 12] == Put32(|e.bmp|);
    PutGet64(e.hash);
    PutGet32(|e.bmp|);
  }

  lemma HeadFields(s: Saved, g: Size, rest: seq<byte>)
    requires |s.bmp| == g.Cells() < U64
    ensures var d := Head(s, g) + s.bmp + rest;
            && HeaderOk(d, g) && d[48..48 + g.Cells()] == s.bmp
            && Get64(d[8..16]) == s.warmTs && Get64(d[24..32]) == s.firstMs && Get64(d[32..40]) == s.lastMs
  {
    var d := Head(s, g) + s.bmp + rest;
    assert d[..8] == MAGIC;
    assert d[8..16] == Put64(s.warmTs) && d[24..32] == Put64(s.firstMs) && d[32..40] == Put64(s.lastMs);
    assert d[16..20] == Put32(g.w) && d[20..24] == Put32(g.h) && d[40..48] == Put64(|s.bmp|);
    PutGet64(s.warmTs);
    PutGet64(s.firstMs);
    PutGet64(s.lastMs);
    PutGet64(|s.bmp|);
    PutGet32(g.w);
    PutGet32(g.h);
  }

  lemma BodyOfEncoded(s: Saved, g: Size)
    requires Encodable(s, g)
    ensures Body(Encode(s, g), g) == Got(s, |Encode(s, g)|)
  {
    hide EncodeAnchors, EncodeEntries, ReadAnchors, ReadEntries, HeaderOk, Head, LittleEndian, FromLittleEndian, Put64, Get64;
    var d := Encode(s, g);
    var a, b := Put64(|s.list|), Put64(|s.entries|);
    var ea, ee := EncodeAnchors(s.list), EncodeEntries(s.entries);
    var top := Head(s, g) + s.bmp;
    assert d == top + (a + ea + (b + ee));
    HeadFields(s, g, a + ea + (b + ee));
    assert d[|top|..|top| + 8] == a;
    PutGet64(|s.list|);
    assert d == (top + a) + ea + (b + ee);
    ReadAnchorsEncoded(top + a, s.list, b + ee, []);
    var mid := top + a + ea;
    assert d[|mid|..|mid| + 8] == b;
    PutGet64(|s.entries|);
    assert d == (mid + b) + ee + [];
    ReadEntriesEncoded(mid + b, s.entries, [], []);
    assert [] + s.list == s.list && [] + s.entries == s.entries;
  }

  /** Entries list a pool when each key comes once, with its bitmap. */
  ghost predicate Lists(es: seq<Entry>, pool: map<u64, Bitmap>) {
    PoolOf(es) == pool && Distinct(es)
  }

  ghost predicate Distinct(es: seq<Entry>) {
    forall i, j :: 0 <= i < j < |es| ==> es[i].hash != es[j].hash
  }

  lemma {:induction false} PoolOfKeys(es: seq<Entry>)
    ensures forall h :: h in PoolOf(es) <==> h in set i | 0 <= i < |es| :: es[i].hash
  {
    if es != [] {
      PoolOfKeys(es[..|es| - 1]);
    }
  }

  /** However the pool was ordered, the byte count comes back as the total of its bitmaps. */
  lemma {:induction false} BytesOfListed(es: seq<Entry>, pool: map<u64, Bitmap>, hash: Bitmap -> u64)
    requires Lists(es, pool) && forall h :: h in pool ==> hash(pool[h]) == h
    ensures BytesOf(es) == TotalBytes(pool.Values)
    decreases |es|
  {
    if es != [] {
      var init, e := es[..|es| - 1], es[|es| - 1];
      PoolOfKeys(init);
      var rest := PoolOf(init);
      assert e.hash !in rest;
      assert pool - {e.hash} == rest;
      BytesOfListed(init, rest, hash);
      PoolRemove(pool, e.hash, hash);
    } else {
      assert pool.Values == {};
    }
  }

  /** Loading what was saved returns every part of it, whatever order the pool was written in. */
  lemma LoadOfSaved(s: Saved, g: Size, pool: map<u64, Bitmap>, w: seq<Checkpoint>, hash: Bitmap -> u64)
    requires Encodable(s, g) && Lists(s.entries, pool)
    requires w != [] && Spaced(w) && Names(s.list, w, hash) && Pools(pool, w, hash)
    ensures Load(Encode(s, g), g) == Some(Loaded(s.warmTs, s.firstMs, s.lastMs, s.bmp, s.list, pool,
                                                 TotalBytes(Bitmaps(w)), w[|w| - 1].tsMs + 60_000))
  {
    hide Encodable, Encode, Body, TotalBytes, Bitmaps, CollisionFree, BytesOf, PoolOf;
    BodyOfEncoded(s, g);
    BytesOfListed(s.entries, pool, hash);
    PoolValues(pool, w, hash);
  }

  // ---- Exactly the saved files are accepted ----

  lemma {:induction false} ReadAnchorsExact(d: seq<byte>, pos: nat, n: nat, acc: seq<Anchor>) returns (list: seq<Anchor>)
    requires ReadAnchors(d, pos, n, acc).Got? && pos <= |d|
    ensures |list| == n && ReadAnchors(d, pos, n, acc) == Got(acc + list, pos + 16 * n) && pos + 16 * n <= |d|
    ensures (forall i :: 0 <= i < n ==> list[i].tsMs < U64) && d[pos..pos + 16 * n] == EncodeAnchors(list)
    decreases n
  {
    if n == 0 {
      list := [];
      assert acc + list == acc;
    } else {
      var a, b := d[pos..pos + 8], d[pos + 8..pos + 16];
      var first := Anchor(Get64(a), Get64(b));
      var rest := ReadAnchorsExact(d, pos + 16, n - 1, acc + [first]);
      list := [first] + rest;
      GetPut(a);
      GetPut(b);
      assert acc + [first] + rest == acc + list && list[1..] == rest;
      assert d[pos..pos + 16 * n] == a + b + d[pos + 16..pos + 16 * n];
    }
  }

  lemma {:induction false} ReadEntriesExact(d: seq<byte>, pos: nat, n: nat, acc: seq<Entry>) returns (es: seq<Entry>)
    requires ReadEntries(d, pos, n, acc).Got? && pos <= |d|
    ensures |es| == n && forall i :: 0 <= i < n ==> |es[i].bmp| < U32
    ensures var r := ReadEntries(d, pos, n, acc);
            r.value == acc + es && pos <= r.pos <= |d| && d[pos..r.pos] == EncodeEntries(es)
    decreases n
  {
    hide Get64, Get32, Put64, Put32;
    if n == 0 {
      es := [];
      assert acc + es == acc;
    } else {
      var a, b := d[pos..pos + 8], d[pos + 8..pos + 12];
      var next := pos + 12 + Get32(b);
      var first := Entry(Get64(a), d[pos + 12..next]);
      var rest := ReadEntriesExact(d, next, n - 1, acc + [first]);
      var r := ReadEntries(d, pos, n, acc);
      es := [first] + rest;
      GetPut(a);
      GetPut(b);
      assert acc + [first] + rest == acc + es && es[1..] == rest;
      assert d[pos..r.pos] == a + b + d[pos + 12..next] + d[next..r.pos];
    }
  }

  lemma HeaderExact(d: seq<byte>, g: Size)
    requires HeaderOk(d, g)
    ensures var n := 48 + g.Cells();
            d[..n] == Head(Saved(Get64(d[8..16]), Get64(d[24..32]), Get64(d[32..40]), d[48..n], [], []), g) + d[48..n]
  {
    hide Get64, Get32, Put64, Put32;
    GetPut(d[8..16]);
    GetPut(d[16..20]);
    GetPut(d[20..24]);
    GetPut(d[24..32]);
    GetPut(d[32..40]);
    GetPut(d[40..48]);
    assert d[..24] == d[..8] + d[8..16] + d[16..20] + d[20..24];
    assert d[24..48] == d[24..32] + d[32..40] + d[40..48];
    assert d[..48 + g.Cells()] == d[..24] + d[24..48] + d[48..48 + g.Cells()];
  }

  lemma ListExact(d: seq<byte>, at: nat)
    requires ReadList(d, at).Got? && at <= |d|
    ensures var list, p := ReadList(d, at).value, ReadList(d, at).pos;
            && |list| < U64 && (forall i :: 0 <= i < |list| ==> list[i].tsMs < U64)
            && at <= p <= |d| && d[at..p] == Put64(|list|) + EncodeAnchors(list)
  {
    hide Get64, Put64, EncodeAnchors, ReadAnchors;
    var n := d[at..at + 8];
    var list := ReadAnchorsExact(d, at + 8, Get64(n), []);
    assert [] + list == list;
    GetPut(n);
    assert d[at..ReadList(d, at).pos] == n + d[at + 8..ReadList(d, at).pos];
  }

  lemma PoolExact(d: seq<byte>, at: nat)
    requires ReadPool(d, at).Got? && at <= |d|
    ensures var es, p := ReadPool(d, at).value, ReadPool(d, at).pos;
            && |es| < U64 && (forall i :: 0 <= i < |es| ==> |es[i].bmp| < U32)
            && at <= p <= |d| && d[at..p] == Put64(|es|) + EncodeEntries(es)
  {
    hide Get64, Put64, EncodeEntries, ReadEntries;
    var n := d[at..at + 8];
    var es := ReadEntriesExact(d, at + 8, Get64(n), []);
    assert [] + es == es;
    GetPut(n);
    assert d[at..ReadPool(d, at).pos] == n + d[at + 8..ReadPool(d, at).pos];
  }

  /** Whatever a whole body was read from is its own encoding. */
  lemma BodyExact(d: seq<byte>, g: Size)
    requires Body(d, g).Got? && Body(d, g).pos == |d|
    ensures Encodable(Body(d, g).value, g) && d == Encode(Body(d, g).value, g)
  {
    hide Get64, Get32, Put64, Put32, EncodeAnchors, EncodeEntries, ReadList, ReadPool, Head;
    var s, at := Body(d, g).value, 48 + g.Cells();
    var p := ReadList(d, at).pos;
    HeaderExact(d, g);
    ListExact(d, at);
    PoolExact(d, p);
    HeadIgnores(s, g);
    assert d == d[..at] + d[at..p] + d[p..];
  }

  lemma HeadIgnores(s: Saved, g: Size)
    requires |s.bmp| < U64
    ensures Head(s, g) == Head(s.(list := [], entries := []), g)
  {}

  /** Every anchor refers to a pooled bitmap. */
  predicate Referenced(s: Saved) {
    forall i :: 0 <= i < |s.list| ==> exists j :: 0 <= j < |s.entries| && s.entries[j].hash == s.list[i].hash
  }

  lemma ReferencedPool(s: Saved)
    ensures Referenced(s) <==> forall i :: 0 <= i < |s.list| ==> s.list[i].hash in PoolOf(s.entries)
  {
    PoolOfKeys(s.entries);
    var keys := set i | 0 <= i < |s.entries| :: s.entries[i].hash;
    assert forall h :: h in keys <==> exists j :: 0 <= j < |s.entries| && s.entries[j].hash == h;
    assert forall i :: 0 <= i < |s.list| ==> (s.list[i].hash in PoolOf(s.entries) <==> s.list[i].hash in keys);
  }

  /** The reader accepts a file if and only if it is the encoding, for this very grid, of a state whose anchors
      all refer to bitmaps it lists. */
  lemma AcceptsExactlySaved(d: seq<byte>, g: Size)
    ensures Load(d, g).Some? <==> exists s :: Encodable(s, g) && Referenced(s) && d == Encode(s, g)
  {
    hide Encode, Encodable, Body, Referenced, PoolOf, BytesOf;
    if Load(d, g).Some? {
      BodyExact(d, g);
      ReferencedPool(Body(d, g).value);
    }
    if s :| Encodable(s, g) && Referenced(s) && d == Encode(s, g) {
      BodyOfEncoded(s, g);
      ReferencedPool(s);
    }
  }

  /** A snapshot of one grid is refused by a server of any other. */
  lemma OtherGridRefused(s: Saved, g: Size, h: Size)
    requires Encodable(s, g) && g != h
    ensures Load(Encode(s, g), h) == None
  {
    hide Encode, Encodable, Get64, Get32, ReadList, ReadPool;
    EncodedHeader(s, g);
  }

  lemma EncodedHeader(s: Saved, g: Size)
    requires Encodable(s, g)
    ensures HeaderOk(Encode(s, g), g)
  {
    hide HeaderOk;
    CountOfEncoded(s, g);
  }

  /** Where an accepted file keeps what. */
  lemma FileLayout(d: seq<byte>, g: Size)
    requires Load(d, g).Some?
    ensures var r, n := Load(d, g).value, 48 + g.w * g.h;
            && n + 8 <= |d|
            && d[..8] == [0x50, 0x42, 0x53, 0x53, 0x4e, 0x41, 0x50, 0x32]
            && Get64(d[8..16]) == r.warmTs
            && Get32(d[16..20]) == g.w && Get32(d[20..24]) == g.h
            && Get64(d[24..32]) == r.firstMs && Get64(d[32..40]) == r.lastMs
            && Get64(d[40..48]) == g.w * g.h && d[48..n] == r.bmp
            && Get64(d[n..n + 8]) == |r.list| && n + 8 + 16 * |r.list| <= |d|
            && forall i :: 0 <= i < |r.list| ==>
                 var at := n + 8 + 16 * i;
                 r.list[i] == Anchor(Get64(d[at..at + 8]), Get64(d[at + 8..at + 16]))
  {
    hide Get64, Get32, PoolOf, BytesOf, ReadList, ReadPool, NextBoundary;
    ListLayout(d, 48 + g.Cells());
  }

  lemma ListLayout(d: seq<byte>, p: nat)
    requires ReadList(d, p).Got? && p <= |d|
    ensures var list := ReadList(d, p).value;
            && p + 8 <= |d| && Get64(d[p..p + 8]) == |list| && p + 8 + 16 * |list| <= |d|
            && forall i :: 0 <= i < |list| ==>
                 var at := p + 8 + 16 * i;
                 list[i] == Anchor(Get64(d[at..at + 8]), Get64(d[at + 8..at + 16]))
  {
    hide Get64, ReadAnchors;
    ReadAnchorsAt(d, p + 8, Get64(d[p..p + 8]), []);
  }

  lemma {:induction false} ReadAnchorsAt(d: seq<byte>, pos: nat, n: nat, acc: seq<Anchor>)
    requires ReadAnchors(d, pos, n, acc).Got? && pos <= |d|
    ensures pos + 16 * n <= |d|
    ensures var list := ReadAnchors(d, pos, n, acc).value;
            && |list| == |acc| + n && acc <= list
            && forall i :: 0 <= i < n ==>
                 var at := pos + 16 * i;
                 list[|acc| + i] == Anchor(Get64(d[at..at + 8]), Get64(d[at + 8..at + 16]))
    decreases n
  {
    hide Get64;
    if n > 0 {
      var first := Anchor(Get64(d[pos..pos + 8]), Get64(d[pos + 8..pos + 16]));
      ReadAnchorsAt(d, pos + 16, n - 1, acc + [first]);
      var list := ReadAnchors(d, pos, n, acc).value;
      forall i | 0 <= i < n
        ensures var at := pos + 16 * i; list[|acc| + i] == Anchor(Get64(d[at..at + 8]), Get64(d[at + 8..at + 16]))
      {
        if i > 0 {
          assert list[|acc + [first]| + (i - 1)] == list[|acc| + i];
          assert pos + 16 + 16 * (i - 1) == pos + 16 * i;
        }
      }
    }
  }

  /** The boundary to record next: the first full minute past the newest anchor, or past the watermark if
      there is none. */
  lemma NextIsMinute(d: seq<byte>, g: Size)
    requires Load(d, g).Some?
    ensures var r := Load(d, g).value;
            var t := if r.list != [] then r.list[|r.list| - 1].tsMs else r.warmTs / 1_000_000;
            r.nextBoundary % 60_000 == 0 && t < r.nextBoundary <= t + 60_000
  {
    hide Body, PoolOf, BytesOf;
  }

  // ---- The panic ----

  lemma {:induction false} AnchorsFit(d: seq<byte>, pos: nat, n: nat, acc: seq<Anchor>)
    requires ReadAnchors(d, pos, n, acc).Got? && pos <= |d|
    ensures pos + 16 * n <= |d|
    decreases n
  {
    if n > 0 {
      AnchorsFit(d, pos + 16, n - 1, acc + [Anchor(Get64(d[pos..pos + 8]), Get64(d[pos + 8..pos + 16]))]);
    }
  }

  /** Every file the reader panics on is one it should have refused. */
  lemma PanicsForRefusing(d: seq<byte>, g: Size)
    requires Panics(d, g) && |d| < U63
    ensures Load(d, g) == None
  {
    hide ReadAnchors, ReadEntries, Get64, Get32, PoolOf, BytesOf;
    var p := 48 + g.Cells();
    if ReadList(d, p).Got? {
      AnchorsFit(d, p + 8, Get64(d[p..p + 8]), []);
    }
  }

  lemma CountOfEncoded(s: Saved, g: Size)
    requires Encodable(s, g)
    ensures var d, p := Encode(s, g), 48 + g.Cells();
            HeaderOk(d, g) && p + 8 <= |d| && d[p..p + 8] == Put64(|s.list|)
  {
    hide EncodeAnchors, EncodeEntries, HeaderOk, Head, Put64;
    var d := Encode(s, g);
    var a, b := Put64(|s.list|), Put64(|s.entries|);
    var ea, ee := EncodeAnchors(s.list), EncodeEntries(s.entries);
    var top := Head(s, g) + s.bmp;
    assert d == top + (a + ea + (b + ee));
    HeadFields(s, g, a + ea + (b + ee));
    assert d[|top|..|top| + 8] == a;
  }

  /** No saved file is one the reader panics on. */
  lemma SavedNeverPanics(s: Saved, g: Size)
    requires Encodable(s, g) && |s.list| < U63
    ensures !Panics(Encode(s, g), g)
  {
    hide Encode, HeaderOk, Put64, Get64;
    CountOfEncoded(s, g);
    PutGet64(|s.list|);
  }

  /** So what reading a file ends in is settled by whether it was saved for this grid. */
  lemma ReadsExactlySaved(d: seq<byte>, g: Size)
    ensures Reads(d, g).Accepted? <==> exists s :: Encodable(s, g) && Referenced(s) && |s.list| < U63 && d == Encode(s, g)
  {
    hide Encode, Encodable, Load, Referenced, Panics;
    AcceptsExactlySaved(d, g);
    if Reads(d, g).Accepted? {
      var s :| Encodable(s, g) && Referenced(s) && d == Encode(s, g);
      CountUnder(s, g);
    }
    if s :| Encodable(s, g) && Referenced(s) && |s.list| < U63 && d == Encode(s, g) {
      SavedNeverPanics(s, g);
    }
  }

  lemma CountUnder(s: Saved, g: Size)
    requires Encodable(s, g) && !Panics(Encode(s, g), g)
    ensures |s.list| < U63
  {
    hide Encode, Put64, Get64, HeaderOk;
    CountOfEncoded(s, g);
    PutGet64(|s.list|);
  }

  /** One flipped bit of any saved file, the top one of the anchor count, makes it one. */
  lemma FlippedBitPanics(s: Saved, g: Size)
    requires Encodable(s, g) && |s.list| < U63
    ensures var d, p := Encode(s, g), 48 + g.Cells() + 7;
            p < |d| && d[p] < 128 && Panics(d[p := d[p] + 128], g)
  {
    hide Encode, Put64, Get64, Get32;
    var d, p := Encode(s, g), 48 + g.Cells();
    CountOfEncoded(s, g);
    PutGet64(|s.list|);
    assert d[p + 7] == d[p..p + 8][7];
    TopBit(d[p..p + 8]);
    var e := d[p + 7 := d[p + 7] + 128];
    assert e[p..p + 8] == d[p..p + 8][7 := d[p + 7] + 128];
    assert e[..8] == d[..8] && e[16..20] == d[16..20] && e[20..24] == d[20..24] && e[40..48] == d[40..48];
  }
}
