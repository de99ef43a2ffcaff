/** Change delivery: at-least-once events, the consumer's dedupe, and the cache's own defence. */
module ChangeStream {
  import opened Bytes
  import opened Canvas
  import opened Checkpoints
  import opened History

  datatype EventType = SinglePhase | PendingEvent | PostedEvent | VoidedEvent | ExpiredEvent

  datatype Event = Event(kind: EventType, timestamp: nat, x: u32, y: u32, color: byte, transferId: nat)

  /** The event the change stream carries for a post leg, decoded as the parser decodes it: an
      unrecognised account leaves the coordinates and colour at zero, a low code the colour. */
  function PostingOf(t: Transfer): Event {
    match UnpackPixelID(t.debit)
    case None => Event(PostedEvent, t.timestamp, 0, 0, 0, t.id)
    case Some((x, y)) =>
      Event(PostedEvent, t.timestamp, x, y, if t.code >= CLAIM_CODE then (t.code - CLAIM_CODE) % 256 else 0, t.id)
  }

  /** What an event paints on a grid. */
  function EventPaint(ev: Event, g: Size): Option<Paint> {
    if ev.kind == PostedEvent && g.Contains(ev.x, ev.y) then Some(Paint(ev.x, ev.y, ev.color)) else None
  }

  /** The transfer debits a pixel account with a claim code, as every leg of a claim does. */
  predicate IsClaimLeg(t: Transfer) {
    UnpackPixelID(t.debit).Some? && t.code >= CLAIM_CODE
  }

  /** The stream and the ledger reader decode a post leg alike exactly when it is a claim's leg or
      its event falls outside the grid. */
  lemma DecodersAgree(t: Transfer, g: Size)
    requires t.flags.post
    ensures EventPaint(PostingOf(t), g) == IsPostedClaim(t, g)
            <==> IsClaimLeg(t) || !g.Contains(PostingOf(t).x, PostingOf(t).y)
  {}

  /** What a post leg's event says: the cell whose account it debits, or (0, 0) if the account is no pixel's, and
      the colour its code carries, or 0 if it carries none. */
  lemma PostingDecodes(t: Transfer, x: u32, y: u32)
    ensures var ev := PostingOf(t);
            && ev.kind == PostedEvent && ev.timestamp == t.timestamp && ev.transferId == t.id
            && (t.debit == 0x1_0000_0000_0000_0000 + x * 0x1_0000_0000 + y ==>
                  ev.x == x && ev.y == y && ev.color == if t.code >= 1000 then (t.code - 1000) % 256 else 0)
            && (UnpackPixelID(t.debit).None? ==> (ev.x, ev.y, ev.color) == (0, 0, 0))
  {
    UnpackIsInverse(t.debit, x, y);
  }

  /** The cache after an event, and whether the event was broadcast. */
  ghost function ApplyEvent(c: Cache, ev: Event, g: Size): (Cache, bool)
    requires |c.bmp| == g.Cells()
    ensures |ApplyEvent(c, ev, g).0.bmp| == g.Cells()
  {
    if ev.kind != PostedEvent || !g.Contains(ev.x, ev.y) || ev.timestamp <= c.warmTs then (c, false)
    else
      var synced := c.(grid := SyncTo(c.grid, ev.timestamp, c.bmp));
      var i := Index(ev.x, ev.y, g);
      if c.bmp[i] == ev.color % 16 + 1 then (synced, false)
      else
        var painted := synced.(bmp := c.bmp[i := ev.color % 16 + 1], warmTs := ev.timestamp);
        (NotePaint(painted, ev.timestamp / NS_PER_MS), true)
  }

  lemma PaintOfPosting(c: Cache, t: Transfer, g: Size)
    requires |c.bmp| == g.Cells() && Paints(t, g)
    ensures var ev := PostingOf(t);
            && g.Contains(ev.x, ev.y) && t.flags.post
            && Apply(c.bmp, t, g) == c.bmp[Index(ev.x, ev.y, g) := ev.color % 16 + 1]
            && (Apply(c.bmp, t, g) == c.bmp <==> c.bmp[Index(ev.x, ev.y, g)] == ev.color % 16 + 1)
  {
    var ev := PostingOf(t);
    var i, v := Index(ev.x, ev.y, g), ev.color % 16 + 1;
    assert Apply(c.bmp, t, g)[i] == v;
  }

  /** The next posted claim: the cache takes it in and broadcasts it exactly when it changes the canvas. */
  lemma PostingAgrees(c: Cache, l: seq<Transfer>, t: Transfer, g: Size)
    requires Agrees(c, l, g) && Follows(l, t) && Paints(t, g)
    requires NotOlder(c, t.timestamp) && c.warmTs < t.timestamp
    ensures |c.bmp| == g.Cells()
    ensures var (r, broadcast) := ApplyEvent(c, PostingOf(t), g);
            && Agrees(r, l + [t], g)
            && r.bmp == Apply(c.bmp, t, g)
            && (broadcast <==> r.bmp != c.bmp)
            && r.grid == SyncTo(c.grid, t.timestamp, c.bmp)
            && (broadcast ==> r.warmTs == t.timestamp && r.lastMs >= t.timestamp / 1_000_000)
            && (!broadcast ==> (r.warmTs, r.firstMs, r.lastMs) == (c.warmTs, c.firstMs, c.lastMs))
            && forall ns :: t.timestamp <= ns ==> NotOlder(r, ns)
  {
    var (r, _) := ApplyEvent(c, PostingOf(t), g);
    PaintOfPosting(c, t, g);
    SyncAgrees(c, l, t.timestamp, g);
    CanvasAppend(l, t, 0, g);
    assert r.bmp == Apply(c.bmp, t, g);
    CheckpointsAppend(r.grid.All(), l, t, g);
    SettledAppend(l, c.bmp, (c.lastMs + 1) * NS_PER_MS, t, (r.lastMs + 1) * NS_PER_MS, g);
    SettledAppend(l, c.bmp, c.warmTs + 1, t, r.warmTs + 1, g);
  }

  /** A redelivered posting changes nothing at all: it lies at or below the watermark, or its cell
      already matches and its boundaries are already recorded. */
  lemma RedeliveryIsNoOp(c: Cache, l: seq<Transfer>, t: Transfer, g: Size)
    requires Agrees(c, l, g) && Ordered(l) && t in l && t.flags.post && IsClaimLeg(t)
    ensures |c.bmp| == g.Cells() && ApplyEvent(c, PostingOf(t), g) == (c, false)
  {
    if Paints(t, g) && c.warmTs < t.timestamp {
      PaintOfPosting(c, t, g);
      AboveWatermarkIsNoOp(c, l, t, g);
      assert SyncTo(c.grid, t.timestamp, c.bmp) == c.grid;
    }
  }

  /** Transfers that paint nothing leave the cache agreeing without being applied. */
  lemma SilentAgrees(c: Cache, l: seq<Transfer>, t: Transfer, g: Size)
    requires Agrees(c, l, g) && !Paints(t, g)
    ensures Agrees(c, l + [t], g)
  {
    forall ns: nat ensures CanvasBefore(l + [t], ns, g) == CanvasBefore(l, ns, g) {
      CanvasAppend(l, t, ns, g);
    }
    CanvasAppend(l, t, 0, g);
  }

  lemma {:induction false} AllSilentAgrees(c: Cache, l: seq<Transfer>, n: nat, m: nat, g: Size)
    requires n <= m <= |l| && Agrees(c, l[..n], g)
    requires forall i :: n <= i < m ==> !Paints(l[i], g)
    ensures Agrees(c, l[..m], g)
  {
    if n < m {
      AllSilentAgrees(c, l, n, m - 1, g);
      SilentAgrees(c, l[..m - 1], l[m - 1], g);
      assert l[..m] == l[..m - 1] + [l[m - 1]];
    }
  }

  // ---- The consumer ----

  /** What can happen next on the stream: a lost connection, an unparsable body, an event that is no
      posting, or the posting of the ledger's i-th transfer. */
  datatype Delivery = Reconnect | BadBody | Other(ev: Event) | Posting(i: nat)

  /** The consumer's state: the cache it feeds, the ids it has seen since it connected, how much of
      the ledger has been delivered, and the broadcasts made. */
  datatype Consumer = Consumer(cache: Cache, seen: set<nat>, upTo: nat, broadcasts: seq<Event>)

  ghost function ProcessBody(k: Consumer, ev: Event, g: Size): Consumer
    requires |k.cache.bmp| == g.Cells()
    ensures |ProcessBody(k, ev, g).cache.bmp| == g.Cells()
  {
    if ev.transferId in k.seen then k
    else
      var (c, broadcast) := ApplyEvent(k.cache, ev, g);
      k.(cache := c, seen := k.seen + {ev.transferId}, broadcasts := if broadcast then k.broadcasts + [ev] else k.broadcasts)
  }

  ghost function Deliver(k: Consumer, d: Delivery, l: seq<Transfer>, g: Size): Consumer
    requires |k.cache.bmp| == g.Cells()
    requires d.Posting? ==> d.i < |l|
    ensures |Deliver(k, d, l, g).cache.bmp| == g.Cells()
  {
    match d
    case Reconnect => k.(seen := {})
    case BadBody => k
    case Other(ev) => ProcessBody(k, ev, g)
    case Posting(i) => ProcessBody(k, PostingOf(l[i]), g).(upTo := if i < k.upTo then k.upTo else i + 1)
  }

  /** At-least-once delivery in ledger order: a posting is either one already delivered or the next
      one, nothing painted lying in between. */
  ghost predicate Deliverable(upTo: nat, d: Delivery, l: seq<Transfer>, g: Size) {
    match d
    case Reconnect => true
    case BadBody => true
    case Other(ev) => ev.kind != PostedEvent && forall i :: 0 <= i < |l| && l[i].flags.post ==> l[i].id != ev.transferId
    case Posting(i) => i < |l| && l[i].flags.post && (i < upTo || forall j :: upTo <= j < i ==> !Paints(l[j], g))
  }

  /** The ledger of a canvas: ordered, no id twice, every post leg a claim's. */
  ghost predicate CanvasLedger(l: seq<Transfer>) {
    && Ordered(l)
    && (forall i, j :: 0 <= i < j < |l| ==> l[i].id != l[j].id)
    && (forall i :: 0 <= i < |l| && l[i].flags.post ==> IsClaimLeg(l[i]))
  }

  ghost predicate ConsumerAgrees(k: Consumer, l: seq<Transfer>, g: Size) {
    && k.upTo <= |l|
    && Agrees(k.cache, l[..k.upTo], g)
    && (forall i :: k.upTo <= i < |l| ==> k.cache.warmTs < l[i].timestamp && NotOlder(k.cache, l[i].timestamp))
    && (forall i :: k.upTo <= i < |l| && l[i].flags.post ==> l[i].id !in k.seen)
  }

  /** The event was broadcast exactly when it changed the bitmap. */
  predicate BroadcastsChange(before: Consumer, after: Consumer, ev: Event) {
    after.broadcasts == before.broadcasts + if after.cache.bmp == before.cache.bmp then [] else [ev]
  }

  /** One delivery keeps the agreement; a redelivery leaves cache and broadcasts as they were. */
  lemma DeliverAgrees(k: Consumer, d: Delivery, l: seq<Transfer>, g: Size)
    requires CanvasLedger(l) && ConsumerAgrees(k, l, g) && Deliverable(k.upTo, d, l, g)
    ensures |k.cache.bmp| == g.Cells()
    ensures var r := Deliver(k, d, l, g);
            && ConsumerAgrees(r, l, g)
            && (!d.Posting? || d.i < k.upTo ==> r.cache == k.cache && r.broadcasts == k.broadcasts && r.upTo == k.upTo)
            && (d.Posting? && k.upTo <= d.i ==>
                  r.upTo == d.i + 1 && BroadcastsChange(k, r, PostingOf(l[d.i])) && NotOlder(r.cache, l[d.i].timestamp))
  {
    hide Agrees;
    AgreesSize(k.cache, l[..k.upTo], g);
    match d
    case Reconnect =>
    case BadBody =>
    case Other(ev) =>
    case Posting(i) =>
      var t := l[i];
      if i < k.upTo {
        assert l[..k.upTo][i] == t;
        OrderedPrefix(l, k.upTo);
        RedeliveryIsNoOp(k.cache, l[..k.upTo], t, g);
      } else {
        NextPostingAgrees(k, i, l, g);
      }
  }

  lemma NextPostingAgrees(k: Consumer, i: nat, l: seq<Transfer>, g: Size)
    requires CanvasLedger(l) && ConsumerAgrees(k, l, g)
    requires k.upTo <= i < |l| && Deliverable(k.upTo, Posting(i), l, g)
    ensures |k.cache.bmp| == g.Cells()
    ensures var r := Deliver(k, Posting(i), l, g);
            && ConsumerAgrees(r, l, g) && BroadcastsChange(k, r, PostingOf(l[i]))
            && NotOlder(r.cache, l[i].timestamp)
  {
    hide Agrees, Fold, CanvasBefore, SyncTo;
    var t, c := l[i], k.cache;
    AgreesSize(c, l[..k.upTo], g);
    AllSilentAgrees(c, l, k.upTo, i, g);
    assert l[..i + 1] == l[..i] + [t];
    if Paints(t, g) {
      PostingAgrees(c, l[..i], t, g);
    } else {
      SilentAgrees(c, l[..i], t, g);
    }
  }

  ghost function DeliverAll(k: Consumer, ds: seq<Delivery>, l: seq<Transfer>, g: Size): Consumer
    requires |k.cache.bmp| == g.Cells()
    requires forall d :: d in ds && d.Posting? ==> d.i < |l|
    ensures |DeliverAll(k, ds, l, g).cache.bmp| == g.Cells()
  {
    if ds == [] then k else Deliver(DeliverAll(k, ds[..|ds| - 1], l, g), ds[|ds| - 1], l, g)
  }

  ghost predicate DeliverableAll(upTo: nat, ds: seq<Delivery>, l: seq<Transfer>, g: Size) {
    ds != [] ==>
      && DeliverableAll(upTo, ds[..|ds| - 1], l, g)
      && Deliverable(Delivered(upTo, ds[..|ds| - 1]), ds[|ds| - 1], l, g)
  }

  /** How much of the ledger a sequence has delivered. */
  function Delivered(upTo: nat, ds: seq<Delivery>): nat {
    if ds == [] then upTo
    else
      var n, d := Delivered(upTo, ds[..|ds| - 1]), ds[|ds| - 1];
      if d.Posting? && n <= d.i then d.i + 1 else n
  }

  /** Whatever is redelivered, reordered behind the front or forgotten by a reconnect, the bitmap is
      the fold of the ledger as far as it has been delivered. */
  lemma {:induction false} DeliveriesAgree(k: Consumer, ds: seq<Delivery>, l: seq<Transfer>, g: Size)
    requires CanvasLedger(l) && ConsumerAgrees(k, l, g) && DeliverableAll(k.upTo, ds, l, g)
    ensures |k.cache.bmp| == g.Cells() && forall d :: d in ds && d.Posting? ==> d.i < |l|
    ensures var r := DeliverAll(k, ds, l, g);
            && r.upTo == Delivered(k.upTo, ds)
            && ConsumerAgrees(r, l, g)
            && r.cache.bmp == Fold(Blank(g), l[..Delivered(k.upTo, ds)], g)
  {
    AgreesSize(k.cache, l[..k.upTo], g);
    if ds != [] {
      var init := ds[..|ds| - 1];
      DeliveriesAgree(k, init, l, g);
      DeliverAgrees(DeliverAll(k, init, l, g), ds[|ds| - 1], l, g);
    }
  }
}
