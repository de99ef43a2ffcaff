/** The append-only file of evicted checkpoints: writing a record, reading a bitmap back by
    reference, and rebuilding the index by scanning. */
module Sidecar {
  import opened Bytes
  import opened Canvas
  import opened Checkpoints

  const HEADER := 20

  datatype BlobLoc = BlobLoc(off: nat, len: nat)
  datatype AnchorRef = AnchorRef(tsMs: nat, off: nat, len: nat, hash: u64)

  /** One record: the boundary, the state's hash, and the bitmap unless it is already stored. */
  function Record(tsMs: u64, hash: u64, body: Bitmap): (r: seq<byte>)
    requires |body| <= MAX_POOL_BYTES
    ensures |r| == HEADER + |body|
  {
    Put64(tsMs) + Put64(hash) + Put32(|body|) + body
  }

  datatype Scan = Scan(entries: seq<AnchorRef>, blobs: map<u64, BlobLoc>, ends: seq<nat>, pos: nat)

  datatype Header = Header(tsMs: u64, hash: u64, len: u32)

  function HeaderAt(data: seq<byte>, pos: nat): Header
    requires pos + HEADER <= |data|
  {
    Header(Get64(data[pos..pos + 8]), Get64(data[pos + 8..pos + 16]), Get32(data[pos + 16..pos + 20]))
  }

  /** Whether a whole record, legible given the blobs seen so far, starts at `pos`. */
  predicate RecordAt(data: seq<byte>, pos: nat, blobs: map<u64, BlobLoc>) {
    && pos + HEADER <= |data|
    && var h := HeaderAt(data, pos);
       if h.len == 0 then h.hash in blobs
       else h.len <= MAX_POOL_BYTES && pos + HEADER + h.len <= |data|
  }

  function LocAt(data: seq<byte>, pos: nat, blobs: map<u64, BlobLoc>): BlobLoc
    requires RecordAt(data, pos, blobs)
  {
    var h := HeaderAt(data, pos);
    if h.len == 0 then blobs[h.hash] else BlobLoc(pos + HEADER, h.len)
  }

  /** One step of the scan, past the record at the current position. */
  function Next(data: seq<byte>, s: Scan): (r: Scan)
    requires RecordAt(data, s.pos, s.blobs)
    ensures s.pos < r.pos <= |data|
  {
    var h := HeaderAt(data, s.pos);
    var loc := LocAt(data, s.pos, s.blobs);
    var end := s.pos + HEADER + h.len;
    Scan(s.entries + [AnchorRef(h.tsMs, loc.off, loc.len, h.hash)], s.blobs[h.hash := loc], s.ends + [end], end)
  }

  function ScanFrom(data: seq<byte>, s: Scan): Scan
    decreases |data| - s.pos
  {
    if RecordAt(data, s.pos, s.blobs) then ScanFrom(data, Next(data, s)) else s
  }

  function ScanAll(data: seq<byte>): Scan {
    ScanFrom(data, Scan([], map[], [], 0))
  }

  /** The bytes a reference names, under the reader's checks. */
  function Fetch(file: seq<byte>, ref: AnchorRef, hash: Bitmap -> u64): Option<Bitmap> {
    if ref.len == 0 || ref.len > MAX_POOL_BYTES || ref.off + ref.len > |file| then None
    else
      var b := file[ref.off..ref.off + ref.len];
      if hash(b) != ref.hash then None else Some(b)
  }

  // ---- Scanning a longer or a shorter file ----

  lemma HeaderExtends(data: seq<byte>, more: seq<byte>, pos: nat)
    requires pos + HEADER <= |data|
    ensures HeaderAt(data + more, pos) == HeaderAt(data, pos)
  {
    var all := data + more;
    assert all[pos..pos + 8] == data[pos..pos + 8];
    assert all[pos + 8..pos + 16] == data[pos + 8..pos + 16];
    assert all[pos + 16..pos + 20] == data[pos + 16..pos + 20];
  }

  /** A scan that consumed its whole file resumes exactly there once the file grows. */
  lemma {:induction false} ScanResumes(data: seq<byte>, more: seq<byte>, s: Scan)
    requires s.pos <= |data|
    requires ScanFrom(data, s).pos == |data|
    ensures ScanFrom(data + more, s) == ScanFrom(data + more, ScanFrom(data, s))
    decreases |data| - s.pos
  {
    if RecordAt(data, s.pos, s.blobs) {
      HeaderExtends(data, more, s.pos);
      assert Next(data + more, s) == Next(data, s);
      ScanResumes(data, more, Next(data, s));
    }
  }

  lemma {:induction false} ScanGrows(data: seq<byte>, s: Scan)
    requires |s.entries| == |s.ends|
    ensures var r := ScanFrom(data, s);
            && |r.entries| == |r.ends| && s.entries <= r.entries && s.ends <= r.ends
            && (forall i :: |s.ends| <= i < |r.ends| ==> s.pos < r.ends[i] <= |data|)
            && (forall i, j :: |s.ends| <= i < j < |r.ends| ==> r.ends[i] < r.ends[j])
    decreases |data| - s.pos
  {
    if RecordAt(data, s.pos, s.blobs) {
      ScanGrows(data, Next(data, s));
      assert Next(data, s).ends <= ScanFrom(data, s).ends;
      assert ScanFrom(data, s).ends[|s.ends|] == Next(data, s).pos;
    }
  }

  /** Scanning the first `cut` bytes of any file finds exactly the records that end within them. */
  lemma {:induction false} ScanOfCut(data: seq<byte>, cut: nat, s: Scan) returns (k: nat)
    requires s.pos <= cut <= |data|
    requires |s.entries| == |s.ends|
    ensures var full, part := ScanFrom(data, s), ScanFrom(data[..cut], s);
            && |full.entries| == |full.ends|
            && |s.ends| <= k <= |full.ends|
            && part.entries == full.entries[..k] && part.ends == full.ends[..k]
            && (forall i :: |s.ends| <= i < k ==> full.ends[i] <= cut)
            && (forall i :: k <= i < |full.ends| ==> cut < full.ends[i])
    decreases |data| - s.pos
  {
    hide Get64, Get32;
    var short := data[..cut];
    ScanGrows(data, s);
    k := |s.ends|;
    if s.pos + HEADER <= cut {
      HeaderExtends(short, data[cut..], s.pos);
      assert short + data[cut..] == data;
    }
    if RecordAt(short, s.pos, s.blobs) {
      assert RecordAt(data, s.pos, s.blobs) && Next(data, s) == Next(short, s);
      ScanGrows(data, Next(data, s));
      k := ScanOfCut(data, cut, Next(data, s));
      assert ScanFrom(data, s).ends[|s.ends|] == Next(data, s).pos;
    } else if RecordAt(data, s.pos, s.blobs) {
      ScanGrows(data, Next(data, s));
      var full := ScanFrom(data, s);
      assert cut < Next(data, s).pos;
      assert full.ends[|s.ends|] == Next(data, s).pos;
    }
  }

  // ---- One well-formed file ----

  /** Reference `ref` restores checkpoint `c` from `file`. */
  ghost predicate Restores(file: seq<byte>, ref: AnchorRef, c: Checkpoint, hash: Bitmap -> u64) {
    ref.tsMs == c.tsMs && ref.hash == hash(c.bmp) && Fetch(file, ref, hash) == Some(c.bmp)
  }

  ghost predicate BlobsHold(file: seq<byte>, blobs: map<u64, BlobLoc>, hash: Bitmap -> u64, run: iset<Bitmap>) {
    forall h :: h in blobs ==>
      var loc := blobs[h];
      && 0 < loc.len <= MAX_POOL_BYTES && loc.off + loc.len <= |file|
      && file[loc.off..loc.off + loc.len] in run && hash(file[loc.off..loc.off + loc.len]) == h
  }

  /** Scan result `s` covers the whole file, its i-th entry restoring `written[i]`. */
  ghost predicate Indexes(s: Scan, file: seq<byte>, written: seq<Checkpoint>, hash: Bitmap -> u64, run: iset<Bitmap>) {
    && s.pos == |file|
    && |s.entries| == |s.ends| == |written|
    && (forall i :: 0 <= i < |written| ==> Restores(file, s.entries[i], written[i], hash))
    && (forall i :: 0 <= i < |written| ==> s.entries[i].off + s.entries[i].len <= s.ends[i] <= |file|)
    && (forall i :: 0 <= i < |written| ==> written[i].bmp in run)
    && BlobsHold(file, s.blobs, hash, run)
  }

  /** The file is a complete run of records, the i-th restoring `written[i]`. */
  ghost predicate Logs(file: seq<byte>, written: seq<Checkpoint>, hash: Bitmap -> u64, run: iset<Bitmap>) {
    Indexes(ScanAll(file), file, written, hash, run)
  }

  lemma FetchExtends(file: seq<byte>, more: seq<byte>, ref: AnchorRef, hash: Bitmap -> u64)
    requires ref.off + ref.len <= |file|
    ensures Fetch(file + more, ref, hash) == Fetch(file, ref, hash)
  {
    assert (file + more)[ref.off..ref.off + ref.len] == file[ref.off..ref.off + ref.len];
  }

  lemma HeaderOfRecord(file: seq<byte>, tsMs: u64, hash: u64, body: Bitmap)
    requires |body| <= MAX_POOL_BYTES
    ensures HeaderAt(file + Record(tsMs, hash, body), |file|) == Header(tsMs, hash, |body|)
  {
    var all := file + Record(tsMs, hash, body);
    assert all[|file|..|file| + 8] == Put64(tsMs);
    assert all[|file| + 8..|file| + 16] == Put64(hash);
    assert all[|file| + 16..|file| + 20] == Put32(|body|);
    PutGet64(tsMs);
    PutGet64(hash);
    PutGet32(|body|);
  }

  /** A fully scanned file, grown by one record, scans to one more entry. */
  lemma ScanAppended(file: seq<byte>, tsMs: u64, hash: u64, body: Bitmap)
    requires ScanAll(file).pos == |file| && |body| <= MAX_POOL_BYTES
    requires body == [] ==> hash in ScanAll(file).blobs
    ensures var s, f := ScanAll(file), file + Record(tsMs, hash, body);
            var loc := Stored(file, hash, body);
            ScanAll(f) == Scan(s.entries + [AnchorRef(tsMs, loc.off, loc.len, hash)], s.blobs[hash := loc], s.ends + [|f|], |f|)
  {
    var rec := Record(tsMs, hash, body);
    var f := file + rec;
    HeaderOfRecord(file, tsMs, hash, body);
    ScanResumes(file, rec, Scan([], map[], [], 0));
    assert RecordAt(f, |file|, ScanAll(file).blobs);
    assert ScanAll(f) == ScanFrom(f, Next(f, ScanAll(file)));
  }

  /** Where the bitmap of a record lives: in the record, or where its hash was stored before. */
  function Stored(file: seq<byte>, hash: u64, body: Bitmap): BlobLoc
    requires body == [] ==> hash in ScanAll(file).blobs
  {
    if body == [] then ScanAll(file).blobs[hash] else BlobLoc(|file| + HEADER, |body|)
  }

  lemma BlobsHoldExtended(file: seq<byte>, more: seq<byte>, blobs: map<u64, BlobLoc>, hash: Bitmap -> u64, run: iset<Bitmap>)
    requires BlobsHold(file, blobs, hash, run)
    ensures BlobsHold(file + more, blobs, hash, run)
  {
    forall h | h in blobs
      ensures (file + more)[blobs[h].off..blobs[h].off + blobs[h].len] == file[blobs[h].off..blobs[h].off + blobs[h].len]
    {}
  }

  lemma IndexesGrow(s: Scan, file: seq<byte>, more: seq<byte>, written: seq<Checkpoint>, c: Checkpoint, loc: BlobLoc,
                    hash: Bitmap -> u64, run: iset<Bitmap>)
    requires Indexes(s, file, written, hash, run) && c.bmp in run
    requires 0 < loc.len <= MAX_POOL_BYTES && loc.off + loc.len <= |file + more|
    requires (file + more)[loc.off..loc.off + loc.len] == c.bmp
    ensures var h, f := hash(c.bmp), file + more;
            Indexes(Scan(s.entries + [AnchorRef(c.tsMs, loc.off, loc.len, h)], s.blobs[h := loc], s.ends + [|f|], |f|),
                    f, written + [c], hash, run)
  {
    var f := file + more;
    BlobsHoldExtended(file, more, s.blobs, hash, run);
    forall i | 0 <= i < |written|
      ensures Restores(f, s.entries[i], written[i], hash)
    {
      FetchExtends(file, more, s.entries[i], hash);
    }
  }

  /** Appending a record, with the bitmap or reusing a stored one, logs one more checkpoint. */
  lemma AppendLogs(file: seq<byte>, written: seq<Checkpoint>, c: Checkpoint, body: Bitmap,
                   hash: Bitmap -> u64, run: iset<Bitmap>)
    requires CollisionFree(hash, run) && Logs(file, written, hash, run)
    requires c.bmp in run && c.tsMs < U64 && 0 < |c.bmp| <= MAX_POOL_BYTES
    requires body == c.bmp || (body == [] && hash(c.bmp) in ScanAll(file).blobs)
    ensures Logs(file + Record(c.tsMs, hash(c.bmp), body), written + [c], hash, run)
  {
    var rec := Record(c.tsMs, hash(c.bmp), body);
    var f, s := file + rec, ScanAll(file);
    var loc := Stored(file, hash(c.bmp), body);
    assert f[loc.off..loc.off + loc.len] == c.bmp by {
      if body != [] {
        assert f[|file| + HEADER..|f|] == c.bmp;
      } else {
        assert f[loc.off..loc.off + loc.len] == file[loc.off..loc.off + loc.len];
      }
    }
    IndexesGrow(s, file, rec, written, c, loc, hash, run);
    ScanAppended(file, c.tsMs, hash(c.bmp), body);
  }

  /** The writer's memory agrees with what a scan of its file would find. */
  ghost predicate Remembers(data: seq<byte>, last: u64, blobs: map<u64, BlobLoc>) {
    && (forall h :: h in blobs ==> h in ScanAll(data).blobs && ScanAll(data).blobs[h] == blobs[h])
    && (last != 0 ==> last in blobs)
  }

  /** The bitmap bytes the writer puts into its next record. */
  function BodyToWrite(blobs: map<u64, BlobLoc>, hash: u64, bmp: Bitmap): Bitmap {
    if hash in blobs then [] else bmp
  }

  lemma WriteKeeps(data: seq<byte>, last: u64, blobs: map<u64, BlobLoc>, written: seq<Checkpoint>, c: Checkpoint,
                   hash: Bitmap -> u64, run: iset<Bitmap>) returns (loc: BlobLoc)
    requires CollisionFree(hash, run) && Logs(data, written, hash, run) && Remembers(data, last, blobs)
    requires c.bmp in run && c.tsMs < U64 && 0 < |c.bmp| <= MAX_POOL_BYTES
    ensures var h := hash(c.bmp);
            var f := data + Record(c.tsMs, h, BodyToWrite(blobs, h, c.bmp));
            var ref := AnchorRef(c.tsMs, loc.off, loc.len, h);
            && loc == (if h in blobs then blobs[h] else BlobLoc(|data| + HEADER, |c.bmp|))
            && Logs(f, written + [c], hash, run) && Remembers(f, h, blobs[h := loc])
            && ScanAll(f).entries == ScanAll(data).entries + [ref]
            && loc.off + loc.len <= |f| && Restores(f, ref, c, hash)
  {
    hide ScanAll, Restores, BlobsHold, CollisionFree;
    var h := hash(c.bmp);
    var body := BodyToWrite(blobs, h, c.bmp);
    loc := Stored(data, h, body);
    AppendLogs(data, written, c, body, hash, run);
    ScanAppended(data, c.tsMs, h, body);
    LastRestores(data + Record(c.tsMs, h, body), written, c, ScanAll(data).entries, AnchorRef(c.tsMs, loc.off, loc.len, h), hash, run);
  }

  lemma LastRestores(file: seq<byte>, written: seq<Checkpoint>, c: Checkpoint, entries: seq<AnchorRef>, ref: AnchorRef,
                     hash: Bitmap -> u64, run: iset<Bitmap>)
    requires Logs(file, written + [c], hash, run) && |entries| == |written| && ScanAll(file).entries == entries + [ref]
    ensures ref.off + ref.len <= |file| && Restores(file, ref, c, hash)
  {
    hide ScanAll, Restores, BlobsHold;
    assert (entries + [ref])[|written|] == ref && (written + [c])[|written|] == c;
  }

  /** Crash recovery: from any prefix of the file the scan rebuilds exactly the checkpoints whose
      records lie wholly inside it, and each of them still reads back byte for byte. */
  lemma CutRecovers(file: seq<byte>, cut: nat, written: seq<Checkpoint>, hash: Bitmap -> u64, run: iset<Bitmap>)
      returns (k: nat)
    requires cut <= |file| && Logs(file, written, hash, run)
    ensures var full, part := ScanAll(file), ScanAll(file[..cut]);
            && k <= |written|
            && part.entries == full.entries[..k]
            && (forall i :: 0 <= i < k ==> full.ends[i] <= cut && Restores(file[..cut], part.entries[i], written[i], hash))
            && (forall i :: k <= i < |written| ==> cut < full.ends[i])
  {
    k := ScanOfCut(file, cut, Scan([], map[], [], 0));
    var full := ScanAll(file);
    forall i | 0 <= i < k
      ensures Restores(file[..cut], full.entries[i], written[i], hash)
    {
      assert file[..cut] + file[cut..] == file;
      FetchExtends(file[..cut], file[cut..], full.entries[i], hash);
    }
  }

  /** The scan stands at the end of its last record, and its blobs are those of its entries. */
  ghost predicate Settled(s: Scan) {
    && |s.entries| == |s.ends|
    && s.pos == (if s.ends == [] then 0 else s.ends[|s.ends| - 1])
    && forall h :: h in s.blobs ==> exists i :: 0 <= i < |s.entries| && RefersTo(s.entries[i], h, s.blobs[h])
  }

  predicate RefersTo(ref: AnchorRef, hash: u64, loc: BlobLoc) {
    ref.hash == hash && ref.off == loc.off && ref.len == loc.len
  }

  lemma {:induction false} ScanSettles(data: seq<byte>, s: Scan)
    requires Settled(s)
    ensures Settled(ScanFrom(data, s))
    decreases |data| - s.pos
  {
    if RecordAt(data, s.pos, s.blobs) {
      var t := Next(data, s);
      var last := |s.entries|;
      assert RefersTo(t.entries[last], HeaderAt(data, s.pos).hash, LocAt(data, s.pos, s.blobs));
      forall h | h in t.blobs
        ensures exists i :: 0 <= i < |t.entries| && RefersTo(t.entries[i], h, t.blobs[h])
      {
        if h != HeaderAt(data, s.pos).hash {
          var i :| 0 <= i < |s.entries| && RefersTo(s.entries[i], h, s.blobs[h]);
          assert t.entries[i] == s.entries[i];
        }
      }
      ScanSettles(data, t);
    }
  }

  /** Where the first `k` records of a file end. */
  function EndOf(file: seq<byte>, k: nat): nat
    requires k <= |ScanAll(file).ends|
  {
    if k == 0 then 0 else ScanAll(file).ends[k - 1]
  }

  /** Exactly the first `k` records end within `cut`. */
  ghost predicate EndWithin(ends: seq<nat>, cut: nat, k: nat) {
    k <= |ends| && (forall i :: 0 <= i < k ==> ends[i] <= cut) && (forall i :: k <= i < |ends| ==> cut < ends[i])
  }

  lemma EndWithinOnce(ends: seq<nat>, cut: nat, j: nat, k: nat)
    requires EndWithin(ends, cut, j) && EndWithin(ends, cut, k)
    ensures j == k
  {
    var atJ, atK := if j < |ends| then ends[j] else 0, if k < |ends| then ends[k] else 0;
    assert j < k ==> atJ <= cut;
    assert k < j ==> atK <= cut;
  }

  lemma EndsAscend(file: seq<byte>)
    ensures var s := ScanAll(file);
            && |s.entries| == |s.ends| && (forall i :: 0 <= i < |s.ends| ==> 0 < s.ends[i] <= |file|)
            && forall i, j :: 0 <= i < j < |s.ends| ==> s.ends[i] < s.ends[j]
  {
    ScanGrows(file, Scan([], map[], [], 0));
  }

  /** Scanning up to the end of the k-th record finds the first `k` records and stops there. */
  lemma CutEnds(file: seq<byte>, k: nat)
    requires k <= |ScanAll(file).ends|
    ensures k <= |ScanAll(file).entries| && EndOf(file, k) <= |file|
    ensures var part := ScanAll(file[..EndOf(file, k)]);
            && part.entries == ScanAll(file).entries[..k] && part.ends == ScanAll(file).ends[..k]
            && part.pos == EndOf(file, k) && Settled(part)
  {
    EndsAscend(file);
    var end, ends := EndOf(file, k), ScanAll(file).ends;
    var j := ScanOfCut(file, end, Scan([], map[], [], 0));
    assert EndWithin(ends, end, k);
    assert EndWithin(ends, end, j);
    EndWithinOnce(ends, end, j, k);
    ScanSettles(file[..end], Scan([], map[], [], 0));
  }

  lemma EntriesHold(s: Scan, file: seq<byte>, written: seq<Checkpoint>, hash: Bitmap -> u64, run: iset<Bitmap>)
    requires Settled(s) && |s.entries| == |written|
    requires forall i :: 0 <= i < |written| ==> Restores(file, s.entries[i], written[i], hash) && written[i].bmp in run
    ensures BlobsHold(file, s.blobs, hash, run)
  {
    forall h | h in s.blobs
      ensures var loc := s.blobs[h];
              && 0 < loc.len <= MAX_POOL_BYTES && loc.off + loc.len <= |file|
              && file[loc.off..loc.off + loc.len] in run && hash(file[loc.off..loc.off + loc.len]) == h
    {
      var i :| 0 <= i < |s.entries| && RefersTo(s.entries[i], h, s.blobs[h]);
      assert Restores(file, s.entries[i], written[i], hash);
    }
  }

  /** A file cut at the end of its k-th record is a complete file again, of its first `k` records. */
  lemma CutAtRecord(file: seq<byte>, k: nat, written: seq<Checkpoint>, hash: Bitmap -> u64, run: iset<Bitmap>)
    requires Logs(file, written, hash, run) && k <= |written|
    ensures EndOf(file, k) <= |file| && Logs(file[..EndOf(file, k)], written[..k], hash, run)
  {
    hide ScanAll, BlobsHold;
    CutEnds(file, k);
    EndsAscend(file);
    var full, end := ScanAll(file), EndOf(file, k);
    var f, part := file[..end], ScanAll(file[..end]);
    forall i | 0 <= i < k
      ensures Restores(f, part.entries[i], written[..k][i], hash)
      ensures part.entries[i].off + part.entries[i].len <= part.ends[i] <= end
    {
      assert full.ends[i] <= end;
      assert f + file[end..] == file;
      FetchExtends(f, file[end..], full.entries[i], hash);
    }
    EntriesHold(part, f, written[..k], hash, run);
  }

  /** Every byte cut holds the complete file of some first records, and past its end no whole record. */
  lemma CutHoldsRecords(file: seq<byte>, cut: nat, written: seq<Checkpoint>, hash: Bitmap -> u64, run: iset<Bitmap>)
      returns (k: nat)
    requires cut <= |file| && Logs(file, written, hash, run)
    ensures k <= |written| && EndOf(file, k) <= cut && (forall i :: k <= i < |written| ==> cut < ScanAll(file).ends[i])
    ensures Logs(file[..EndOf(file, k)], written[..k], hash, run)
    ensures ScanAll(file[..cut]).entries == ScanAll(file[..EndOf(file, k)]).entries
  {
    hide ScanAll, BlobsHold, Restores;
    k := CutRecovers(file, cut, written, hash, run);
    CutAtRecord(file, k, written, hash, run);
    CutEnds(file, k);
  }

  // ---- What a scan of any bytes finds ----

  /** Of the first `n` entries with hash `h` the last is at `off`, `len`. */
  ghost predicate LastOf(es: seq<AnchorRef>, n: nat, h: u64, off: nat, len: nat)
    requires n <= |es|
  {
    exists j :: 0 <= j < n && es[j].hash == h && es[j].off == off && es[j].len == len
                && forall k :: j < k < n ==> es[k].hash != h
  }

  /** Bytes `from` to `to` are the i-th entry's record: an 8-byte boundary, an 8-byte hash, a 4-byte length,
      and a bitmap of that length, of at most 192 MiB, or none if an earlier entry has the hash. */
  ghost predicate RecordReads(data: seq<byte>, es: seq<AnchorRef>, i: nat, from: nat, to: nat)
    requires i < |es|
  {
    && from + 20 <= to <= |data|
    && es[i].tsMs == Get64(data[from..from + 8]) && es[i].hash == Get64(data[from + 8..from + 16])
    && var len := Get32(data[from + 16..from + 20]);
       && to == from + 20 + len
       && (len > 0 ==> len <= 192 * 0x10_0000 && es[i].off == from + 20 && es[i].len == len)
       && (len == 0 ==> LastOf(es, i, es[i].hash, es[i].off, es[i].len))
  }

  /** No record can be read at `at`: it is torn, too long, or refers to a bitmap not seen before. */
  ghost predicate NothingReads(data: seq<byte>, es: seq<AnchorRef>, at: nat) {
    at + 20 <= |data| ==>
      var h, len := Get64(data[at + 8..at + 16]), Get32(data[at + 16..at + 20]);
      || len > 192 * 0x10_0000
      || at + 20 + len > |data|
      || (len == 0 && forall j :: 0 <= j < |es| ==> es[j].hash != h)
  }

  function StartOf(ends: seq<nat>, i: nat): nat
    requires i <= |ends|
  {
    if i == 0 then 0 else ends[i - 1]
  }

  ghost predicate ReadSoFar(data: seq<byte>, s: Scan) {
    && |s.entries| == |s.ends| && s.pos == StartOf(s.ends, |s.ends|)
    && forall i :: 0 <= i < |s.ends| ==> RecordReads(data, s.entries, i, StartOf(s.ends, i), s.ends[i])
  }

  /** The blobs are where the entries say, the last entry of a hash counting. */
  ghost predicate Indexed(s: Scan) {
    && (forall h :: h in s.blobs ==> LastOf(s.entries, |s.entries|, h, s.blobs[h].off, s.blobs[h].len))
    && (forall j :: 0 <= j < |s.entries| ==> s.entries[j].hash in s.blobs)
  }

  lemma LastOfPush(es: seq<AnchorRef>, n: nat, e: AnchorRef, h: u64, off: nat, len: nat)
    requires n <= |es| && LastOf(es, n, h, off, len)
    ensures LastOf(es + [e], n, h, off, len)
    ensures n == |es| && e.hash != h ==> LastOf(es + [e], n + 1, h, off, len)
  {
    var j :| 0 <= j < n && es[j].hash == h && es[j].off == off && es[j].len == len && forall k :: j < k < n ==> es[k].hash != h;
    assert (es + [e])[j] == es[j];
  }

  lemma ReadsStill(data: seq<byte>, es: seq<AnchorRef>, e: AnchorRef, i: nat, from: nat, to: nat)
    requires i < |es| && RecordReads(data, es, i, from, to)
    ensures RecordReads(data, es + [e], i, from, to)
  {
    hide LastOf, Get64, Get32;
    assert (es + [e])[i] == es[i];
    if Get32(data[from + 16..from + 20]) == 0 {
      LastOfPush(es, i, e, es[i].hash, es[i].off, es[i].len);
    }
  }

  lemma NextReadsNew(data: seq<byte>, s: Scan)
    requires s.pos <= |data| && Indexed(s) && RecordAt(data, s.pos, s.blobs)
    ensures var t := Next(data, s);
            |t.entries| == |s.entries| + 1 && RecordReads(data, t.entries, |s.entries|, s.pos, t.pos)
  {
    hide LastOf, Get64, Get32;
    var h, loc := HeaderAt(data, s.pos), LocAt(data, s.pos, s.blobs);
    if h.len == 0 {
      LastOfPush(s.entries, |s.entries|, AnchorRef(h.tsMs, loc.off, loc.len, h.hash), h.hash, loc.off, loc.len);
    }
  }

  lemma NextReads(data: seq<byte>, s: Scan)
    requires ReadSoFar(data, s) && Indexed(s) && RecordAt(data, s.pos, s.blobs)
    ensures ReadSoFar(data, Next(data, s)) && Indexed(Next(data, s))
  {
    hide LastOf, HeaderAt, RecordReads, RecordAt, LocAt;
    var t, n := Next(data, s), |s.entries|;
    var e := t.entries[n];
    NextReadsNew(data, s);
    forall i | 0 <= i < |t.ends|
      ensures RecordReads(data, t.entries, i, StartOf(t.ends, i), t.ends[i])
    {
      if i < n {
        ReadsStill(data, s.entries, e, i, StartOf(s.ends, i), s.ends[i]);
      }
    }
    NextIndexed(s, t, e);
  }

  lemma NextIndexed(s: Scan, t: Scan, e: AnchorRef)
    requires Indexed(s) && t.entries == s.entries + [e] && t.blobs == s.blobs[e.hash := BlobLoc(e.off, e.len)]
    ensures Indexed(t)
  {
    hide LastOf;
    NewIsLast(s.entries, e);
    forall h | h in t.blobs
      ensures LastOf(t.entries, |s.entries| + 1, h, t.blobs[h].off, t.blobs[h].len)
    {
      if h != e.hash {
        LastOfPush(s.entries, |s.entries|, e, h, s.blobs[h].off, s.blobs[h].len);
      }
    }
  }

  lemma NewIsLast(es: seq<AnchorRef>, e: AnchorRef)
    ensures LastOf(es + [e], |es| + 1, e.hash, e.off, e.len)
  {
    assert (es + [e])[|es|] == e;
  }

  lemma {:induction false} ScanFromReads(data: seq<byte>, s: Scan)
    requires ReadSoFar(data, s) && Indexed(s)
    ensures var r := ScanFrom(data, s);
            ReadSoFar(data, r) && Indexed(r) && NothingReads(data, r.entries, r.pos)
    decreases |data| - s.pos
  {
    hide ReadSoFar, Get64, Get32;
    if RecordAt(data, s.pos, s.blobs) {
      NextReads(data, s);
      ScanFromReads(data, Next(data, s));
    } else {
      StopsThere(data, s);
    }
  }

  lemma StopsThere(data: seq<byte>, s: Scan)
    requires Indexed(s) && !RecordAt(data, s.pos, s.blobs)
    ensures NothingReads(data, s.entries, s.pos)
  {
    hide Get64, Get32, LastOf;
  }

  /** Scanning any bytes reads record after record from the first byte on, each where the one before it ends,
      and stops where none can be read. */
  lemma ScanReads(data: seq<byte>)
    ensures var s := ScanAll(data);
            && |s.entries| == |s.ends|
            && (forall i :: 0 <= i < |s.ends| ==>
                  RecordReads(data, s.entries, i, if i == 0 then 0 else s.ends[i - 1], s.ends[i]))
            && NothingReads(data, s.entries, if s.ends == [] then 0 else s.ends[|s.ends| - 1])
  {
    hide RecordReads, NothingReads, LastOf;
    ScanFromReads(data, Scan([], map[], [], 0));
  }
}
