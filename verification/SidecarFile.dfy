/** The sidecar as the running server holds it: the file, and the writer's memory of what it wrote. */
module SidecarFiles {
  import opened Bytes
  import opened Canvas
  import opened Checkpoints
  import opened Sidecar

  class SidecarFile {
    const hash: Bitmap -> u64
    ghost const run: iset<Bitmap>
    var data: seq<byte>
    var lastAnchorHash: u64
    var anchorBlobs: map<u64, BlobLoc>
    ghost var written: seq<Checkpoint>  // what each record of the file restores

    ghost predicate Valid()
      reads this
    {
      && CollisionFree(hash, run)
      && Logs(data, written, hash, run)
      && Remembers(data, lastAnchorHash, anchorBlobs)
    }

    constructor (hash: Bitmap -> u64, ghost run: iset<Bitmap>)
      requires CollisionFree(hash, run)
      ensures Valid() && this.hash == hash && this.run == run && written == []
    {
      this.hash, this.run := hash, run;
      data, lastAnchorHash, anchorBlobs, written := [], 0, map[], [];
    }

    /** A new process opens the file knowing nothing of what is in it. */
    method Reopen()
      requires Valid()
      modifies this`anchorBlobs, this`lastAnchorHash
      ensures Valid()
      ensures anchorBlobs == map[] && lastAnchorHash == 0
    {
      anchorBlobs, lastAnchorHash := map[], 0;
    }

    method ResetAnchorSidecar()
      requires CollisionFree(hash, run)
      modifies this
      ensures Valid() && data == [] && written == []
    {
      data, lastAnchorHash, anchorBlobs, written := [], 0, map[], [];
    }

    /** Appends one evicted checkpoint and says where its bitmap is. */
    method WriteAnchorBlob(tsMs: nat, h: u64, bmp: Bitmap) returns (off: nat, len: nat)
      requires Valid()
      requires bmp in run && h == hash(bmp) && tsMs < U64 && 0 < |bmp| <= MAX_POOL_BYTES
      modifies this
      ensures Valid()
      ensures old(data) <= data && written == old(written) + [Checkpoint(tsMs, bmp)]
      ensures ScanAll(data).entries == old(ScanAll(data).entries) + [AnchorRef(tsMs, off, len, h)]
      ensures off + len <= |data| && Restores(data, AnchorRef(tsMs, off, len, h), Checkpoint(tsMs, bmp), hash)
      ensures |data| == |old(data)| + HEADER + if h in old(anchorBlobs) then 0 else |bmp|
    {
      var sameAsLast := h == lastAnchorHash;
      var known := h in anchorBlobs;
      var loc := if known then anchorBlobs[h] else BlobLoc(0, 0);
      ghost var at := WriteKeeps(data, lastAnchorHash, anchorBlobs, written, Checkpoint(tsMs, bmp), hash, run);
      ghost var record := Record(tsMs, h, BodyToWrite(anchorBlobs, h, bmp));
      var rec := Put64(tsMs) + Put64(h);
      if sameAsLast || known {
        rec := rec + Put32(0);
        assert rec == record && anchorBlobs[h := loc] == anchorBlobs;
      } else {
        rec := rec + Put32(|bmp|) + bmp;
        loc := BlobLoc(|data| + HEADER, |bmp|);
        anchorBlobs := anchorBlobs[h := loc];
        assert rec == record;
      }
      assert loc == at;
      data := data + rec;
      written := written + [Checkpoint(tsMs, bmp)];
      lastAnchorHash := h;
      off, len := loc.off, loc.len;
    }

    /** Reads a bitmap back: the scan's i-th reference gives what the i-th record was written for, and
        no reference ever gives another bitmap of the run than the one it names. */
    method ReadAnchorBlob(ref: AnchorRef) returns (r: Option<Bitmap>)
      ensures r == Fetch(data, ref, hash)
      ensures r.Some? <==> && 0 < ref.len <= 192 * 0x10_0000 && ref.off + ref.len <= |data|
                           && hash(data[ref.off..ref.off + ref.len]) == ref.hash
      ensures r.Some? ==> r.value == data[ref.off..ref.off + ref.len]
      ensures Valid() ==> forall i :: 0 <= i < |written| && i < |ScanAll(data).entries| && ref == ScanAll(data).entries[i]
                                      ==> r == Some(written[i].bmp)
      ensures Valid() ==> forall b :: b in run && hash(b) == ref.hash && r.Some? && r.value in run ==> r.value == b
    {
      if ref.len == 0 || ref.len > MAX_POOL_BYTES {
        return None;
      }
      if ref.off + ref.len > |data| {
        return None;
      }
      var bmp := data[ref.off..ref.off + ref.len];
      if hash(bmp) != ref.hash {
        return None;
      }
      return Some(bmp);
    }

    /** Rebuilds the index from the bytes alone, stopping at the first torn or unresolvable record. */
    method ScanAnchorSidecar() returns (entries: seq<AnchorRef>)
      modifies this`anchorBlobs
      ensures entries == ScanAll(data).entries && anchorBlobs == ScanAll(data).blobs
      ensures old(Valid()) ==> Valid()
    {
      entries := [];
      var blobs: map<u64, BlobLoc> := map[];
      var pos := 0;
      ghost var ends: seq<nat> := [];
      while pos + HEADER <= |data|
        invariant pos <= |data|
        invariant ScanFrom(data, Scan(entries, blobs, ends, pos)) == ScanAll(data)
        decreases |data| - pos
      {
        ghost var s := Scan(entries, blobs, ends, pos);
        var tsMs := Get64(data[pos..pos + 8]);
        var h := Get64(data[pos + 8..pos + 16]);
        var ln := Get32(data[pos + 16..pos + 20]);
        assert HeaderAt(data, pos) == Header(tsMs, h, ln);
        var body := pos + HEADER;
        var loc;
        if ln == 0 {
          if h !in blobs {
            break;
          }
          loc := blobs[h];
        } else {
          if ln > MAX_POOL_BYTES || body + ln > |data| {
            break;
          }
          loc := BlobLoc(body, ln);
        }
        blobs := blobs[h := loc];
        pos := body + ln;
        entries := entries + [AnchorRef(tsMs, loc.off, loc.len, h)];
        ends := ends + [pos];
        assert Scan(entries, blobs, ends, pos) == Next(data, s);
      }
      anchorBlobs := blobs;
    }
  }
}
