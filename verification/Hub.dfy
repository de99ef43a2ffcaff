/** The broadcast hub and its clients as a state machine: register, then snapshot, then deltas. A paint
    reaches the bitmap under the service's lock and is announced later, by whoever painted it. */
module Hub {
  import opened Bytes
  import opened Canvas

  const CHANNEL_SIZE := 512

  /** The byte a paint writes, in the bitmap and on the wire alike. */
  function Wire(p: Paint): byte {
    p.color % 16 + 1
  }

  /** A broadcast under way: the subscribers it has copied and not yet served. */
  datatype Broadcast = Broadcast(ev: Paint, to: set<nat>)

  /** A subscriber and the browser behind it: its channel, the deltas of the next flush, its page (none
      until the snapshot), and the cells whose newest paint it dropped. To say what it has been sent, also
      the snapshot itself and every delta received since. */
  datatype Client = Client(registered: bool, queue: seq<Paint>, deltas: seq<Paint>, page: Option<Bitmap>, stale: set<nat>,
                           base: Bitmap, received: seq<Paint>)

  datatype State = State(bmp: Bitmap, pending: seq<Paint>, inFlight: seq<Broadcast>, clients: map<nat, Client>)

  datatype Action =
    | Confirm(p: Paint)          // the bitmap takes the paint; its broadcast is still to come
    | Announce(k: nat)           // the k-th waiting broadcast copies the subscriber set
    | Send(k: nat, c: nat, dropped: bool)  // the k-th broadcast under way reaches subscriber c, or its channel is full
    | Connect(c: nat)
    | Disconnect(c: nat)
    | Snapshot(c: nat)
    | Receive(c: nat)
    | Flush(c: nat)

  predicate Fits(p: Paint, g: Size) {
    g.Contains(p.x, p.y)
  }

  function CellOf(p: Paint, g: Size): (c: nat)
    requires Fits(p, g)
    ensures c < g.Cells()
  {
    Index(p.x, p.y, g)
  }

  predicate AllFit(ps: seq<Paint>, g: Size) {
    forall i :: 0 <= i < |ps| ==> Fits(ps[i], g)
  }

  /** The client's rule: deltas in order. */
  function ApplyDeltas(b: Bitmap, ps: seq<Paint>, g: Size): (r: Bitmap)
    requires |b| == g.Cells() && AllFit(ps, g)
    ensures |r| == |b|
  {
    if ps == [] then b
    else
      var p := ps[|ps| - 1];
      ApplyDeltas(b, ps[..|ps| - 1], g)[CellOf(p, g) := Wire(p)]
  }

  /** The bytes `ps` writes to one cell, in order. */
  function Writes(ps: seq<Paint>, cell: nat, g: Size): seq<byte>
    requires AllFit(ps, g)
  {
    if ps == [] then []
    else
      Writes(ps[..|ps| - 1], cell, g)
      + if CellOf(ps[|ps| - 1], g) == cell then [Wire(ps[|ps| - 1])] else []
  }

  function Last(v: byte, writes: seq<byte>): byte {
    if writes == [] then v else writes[|writes| - 1]
  }

  /** The broadcasts under way that have still to reach `c`. */
  function Under(bs: seq<Broadcast>, c: nat): seq<Paint> {
    if bs == [] then [] else Under(bs[..|bs| - 1], c) + if c in bs[|bs| - 1].to then [bs[|bs| - 1].ev] else []
  }

  lemma {:induction false} UnderFits(bs: seq<Broadcast>, c: nat, g: Size)
    requires forall i :: 0 <= i < |bs| ==> Fits(bs[i].ev, g)
    ensures AllFit(Under(bs, c), g)
  {
    if bs != [] {
      UnderFits(bs[..|bs| - 1], c, g);
    }
  }

  function Drop<T>(xs: seq<T>, k: nat): seq<T>
    requires k < |xs|
  {
    xs[..k] + xs[k + 1..]
  }

  /** No earlier element of `ps` is for the k-th one's cell. */
  predicate FirstOfCell(ps: seq<Paint>, k: nat, g: Size)
    requires k < |ps| && AllFit(ps, g)
  {
    forall j :: 0 <= j < k ==> CellOf(ps[j], g) != CellOf(ps[k], g)
  }

  /** No earlier broadcast under way to `c` is for the k-th one's cell. */
  predicate FirstTo(bs: seq<Broadcast>, k: nat, c: nat, g: Size)
    requires k < |bs| && forall i :: 0 <= i < |bs| ==> Fits(bs[i].ev, g)
  {
    forall j :: 0 <= j < k && c in bs[j].to ==> CellOf(bs[j].ev, g) != CellOf(bs[k].ev, g)
  }

  predicate WellFormed(s: State, g: Size) {
    && |s.bmp| == g.Cells()
    && AllFit(s.pending, g)
    && (forall i :: 0 <= i < |s.inFlight| ==> Fits(s.inFlight[i].ev, g))
    && (forall c :: c in s.clients ==>
          && AllFit(s.clients[c].queue, g) && AllFit(s.clients[c].deltas, g) && AllFit(s.clients[c].received, g)
          && |s.clients[c].queue| <= 512
          && (s.clients[c].page.Some? ==> |s.clients[c].page.value| == |s.clients[c].base| == g.Cells()))
  }

  /** Steps may come in any order. The channel carries locks, unlocks and metrics too, so a paint may find it
      full at any time, and must when it holds that many paints. */
  predicate Possible(s: State, a: Action, g: Size)
    requires WellFormed(s, g)
  {
    match a
    case Confirm(p) => Fits(p, g)
    case Announce(k) => k < |s.pending|
    case Send(k, c, dropped) =>
      && k < |s.inFlight| && c in s.inFlight[k].to && c in s.clients
      && (|s.clients[c].queue| >= CHANNEL_SIZE ==> dropped)
    case Connect(c) => c !in s.clients
    case Disconnect(c) => c in s.clients
    case Snapshot(c) => c in s.clients && s.clients[c].page.None?
    case Receive(c) => c in s.clients && s.clients[c].page.Some? && s.clients[c].queue != []
    case Flush(c) => c in s.clients && s.clients[c].page.Some?
  }

  /** Broadcasts for one cell keep their paints' order, which nothing in the code enforces. */
  predicate InOrder(s: State, a: Action, g: Size)
    requires WellFormed(s, g) && Possible(s, a, g)
  {
    match a
    case Announce(k) => FirstOfCell(s.pending, k, g)
    case Send(k, c, _) => FirstTo(s.inFlight, k, c, g)
    case _ => true
  }

  predicate Enabled(s: State, a: Action, g: Size)
    requires WellFormed(s, g)
  {
    Possible(s, a, g) && InOrder(s, a, g)
  }

  function Subscribers(clients: map<nat, Client>): set<nat> {
    set c | c in clients && clients[c].registered
  }

  /** A broadcast reaches a subscriber: queued if there is room, dropped for this subscriber otherwise. */
  function Offer(cl: Client, p: Paint, dropped: bool, superseded: bool, g: Size): Client
    requires Fits(p, g)
  {
    if !dropped then cl.(queue := cl.queue + [p])
    else if superseded then cl
    else cl.(stale := cl.stale + {CellOf(p, g)})
  }

  function Next(s: State, a: Action, g: Size): State
    requires WellFormed(s, g) && Possible(s, a, g)
  {
    match a
    case Confirm(p) =>
      s.(bmp := s.bmp[CellOf(p, g) := Wire(p)], pending := s.pending + [p],
         clients := map c | c in s.clients :: s.clients[c].(stale := s.clients[c].stale - {CellOf(p, g)}))
    case Announce(k) =>
      s.(pending := Drop(s.pending, k), inFlight := s.inFlight + [Broadcast(s.pending[k], Subscribers(s.clients))])
    case Send(k, c, dropped) =>
      var b := s.inFlight[k];
      var rest := s.inFlight[k := b.(to := b.to - {c})];
      UnderFits(rest, c, g);
      var superseded := Writes(Under(rest, c) + s.pending, CellOf(b.ev, g), g) != [];
      s.(inFlight := rest, clients := s.clients[c := Offer(s.clients[c], b.ev, dropped, superseded, g)])
    case Connect(c) => s.(clients := s.clients[c := Client(true, [], [], None, {}, [], [])])
    case Disconnect(c) => s.(clients := s.clients[c := s.clients[c].(registered := false)])
    case Snapshot(c) => s.(clients := s.clients[c := s.clients[c].(page := Some(s.bmp), base := s.bmp)])
    case Receive(c) =>
      var cl := s.clients[c];
      s.(clients := s.clients[c := cl.(queue := cl.queue[1..], deltas := cl.deltas + [cl.queue[0]],
                                       received := cl.received + [cl.queue[0]])])
    case Flush(c) =>
      var cl := s.clients[c];
      s.(clients := s.clients[c := cl.(page := Some(ApplyDeltas(cl.page.value, cl.deltas, g)), deltas := [])])
  }

  function Start(g: Size, bmp: Bitmap): State {
    State(bmp, [], [], map[])
  }

  // ---- What a client will show ----

  /** All that is on its way to a client, oldest first for each cell. */
  function Outstanding(s: State, c: nat): seq<Paint>
    requires c in s.clients
  {
    s.clients[c].deltas + s.clients[c].queue + (Under(s.inFlight, c) + s.pending)
  }

  lemma OutstandingFits(s: State, c: nat, g: Size)
    requires WellFormed(s, g) && c in s.clients
    ensures AllFit(Outstanding(s, c), g) && AllFit(Under(s.inFlight, c), g)
  {
    UnderFits(s.inFlight, c, g);
  }

  /** The page, or what a snapshot taken now would show. */
  function View(s: State, c: nat): Bitmap
    requires c in s.clients
  {
    if s.clients[c].page.Some? then s.clients[c].page.value else s.bmp
  }

  /** The byte a cell will show once everything outstanding has been applied. */
  function Eventually(s: State, c: nat, cell: nat, g: Size): byte
    requires WellFormed(s, g) && c in s.clients && cell < g.Cells()
  {
    OutstandingFits(s, c, g);
    Last(View(s, c)[cell], Writes(Outstanding(s, c), cell, g))
  }

  /** Outside the stale cells a client is on its way to the server's bitmap. */
  ghost predicate Exact(s: State, c: nat, g: Size)
    requires WellFormed(s, g) && c in s.clients
  {
    forall cell: nat :: cell < g.Cells() && cell !in s.clients[c].stale ==> Eventually(s, c, cell, g) == s.bmp[cell]
  }

  ghost predicate Sound(s: State, g: Size) {
    && WellFormed(s, g)
    && (forall i :: 0 <= i < |s.inFlight| ==> s.inFlight[i].to <= s.clients.Keys)
    && (forall cell: nat :: cell < g.Cells() ==> Last(s.bmp[cell], Writes(s.pending, cell, g)) == s.bmp[cell])
    && (forall c :: c in s.clients && s.clients[c].registered ==> Exact(s, c, g))
  }

  // ---- Writes ----

  lemma {:induction false} WritesConcat(a: seq<Paint>, b: seq<Paint>, cell: nat, g: Size)
    requires AllFit(a, g) && AllFit(b, g)
    ensures AllFit(a + b, g) && Writes(a + b, cell, g) == Writes(a, cell, g) + Writes(b, cell, g)
  {
    if b == [] {
      assert a + b == a;
    } else {
      var n := |b| - 1;
      assert (a + b)[..|a| + n] == a + b[..n];
      WritesConcat(a, b[..n], cell, g);
    }
  }

  lemma WritesOne(p: Paint, cell: nat, g: Size)
    requires Fits(p, g)
    ensures Writes([p], cell, g) == if CellOf(p, g) == cell then [Wire(p)] else []
  {
    assert [p][..0] == [];
  }

  lemma {:induction false} WritesNone(ps: seq<Paint>, cell: nat, g: Size)
    requires AllFit(ps, g) && forall j :: 0 <= j < |ps| ==> CellOf(ps[j], g) != cell
    ensures Writes(ps, cell, g) == []
  {
    if ps != [] {
      WritesNone(ps[..|ps| - 1], cell, g);
    }
  }

  /** Taking the first element for its cell out of a list and putting it in front changes no cell. */
  lemma WritesToFront(ps: seq<Paint>, k: nat, cell: nat, g: Size)
    requires AllFit(ps, g) && k < |ps| && FirstOfCell(ps, k, g)
    ensures AllFit(Drop(ps, k), g)
    ensures Writes([ps[k]], cell, g) + Writes(Drop(ps, k), cell, g) == Writes(ps, cell, g)
  {
    hide Writes, CellOf;
    var a, b := ps[..k], ps[k + 1..];
    assert ps == a + ([ps[k]] + b);
    WritesConcat([ps[k]], b, cell, g);
    WritesConcat(a, [ps[k]] + b, cell, g);
    WritesConcat(a, b, cell, g);
    WritesOne(ps[k], cell, g);
    if CellOf(ps[k], g) == cell {
      WritesNone(a, cell, g);
    }
  }

  lemma {:induction false} UnderUpdate(bs: seq<Broadcast>, k: nat, b: Broadcast, d: nat)
    requires k < |bs| && b.ev == bs[k].ev && (d in b.to <==> d in bs[k].to)
    ensures Under(bs[k := b], d) == Under(bs, d)
  {
    var n := |bs| - 1;
    if k == n {
      assert bs[k := b][..n] == bs[..n];
    } else {
      assert bs[k := b][..n] == bs[..n][k := b];
      UnderUpdate(bs[..n], k, b, d);
    }
  }

  /** Serving `c` takes its first broadcast for the cell out of what is under way to it. */
  lemma {:induction false} UnderServed(bs: seq<Broadcast>, k: nat, c: nat, cell: nat, g: Size)
    requires k < |bs| && c in bs[k].to && forall i :: 0 <= i < |bs| ==> Fits(bs[i].ev, g)
    requires FirstTo(bs, k, c, g)
    ensures var rest := bs[k := bs[k].(to := bs[k].to - {c})];
            && AllFit(Under(rest, c), g) && AllFit(Under(bs, c), g)
            && Writes([bs[k].ev], cell, g) + Writes(Under(rest, c), cell, g) == Writes(Under(bs, c), cell, g)
  {
    hide Writes, CellOf;
    var n := |bs| - 1;
    var rest := bs[k := bs[k].(to := bs[k].to - {c})];
    UnderFits(bs, c, g);
    UnderFits(rest, c, g);
    UnderFits(bs[..n], c, g);
    if k == n {
      assert rest[..n] == bs[..n];
      assert Under(rest, c) == Under(bs[..n], c);
      UnderNone(bs[..n], c, bs[k].ev, cell, g);
      WritesConcat(Under(bs[..n], c), [bs[k].ev], cell, g);
      WritesOne(bs[k].ev, cell, g);
    } else {
      assert rest[..n] == bs[..n][k := bs[k].(to := bs[k].to - {c})];
      UnderServed(bs[..n], k, c, cell, g);
      if c in bs[n].to {
        UnderFits(rest[..n], c, g);
        WritesConcat(Under(bs[..n], c), [bs[n].ev], cell, g);
        WritesConcat(Under(rest[..n], c), [bs[n].ev], cell, g);
      } else {
        assert Under(rest, c) == Under(rest[..n], c) && Under(bs, c) == Under(bs[..n], c);
      }
    }
  }

  lemma {:induction false} UnderNone(bs: seq<Broadcast>, c: nat, p: Paint, cell: nat, g: Size)
    requires Fits(p, g) && forall i :: 0 <= i < |bs| ==> Fits(bs[i].ev, g)
    requires forall j :: 0 <= j < |bs| && c in bs[j].to ==> CellOf(bs[j].ev, g) != CellOf(p, g)
    ensures AllFit(Under(bs, c), g)
    ensures CellOf(p, g) == cell ==> Writes(Under(bs, c), cell, g) == []
  {
    UnderFits(bs, c, g);
    if bs != [] {
      var n := |bs| - 1;
      UnderNone(bs[..n], c, p, cell, g);
      if c in bs[n].to {
        WritesConcat(Under(bs[..n], c), [bs[n].ev], cell, g);
        WritesOne(bs[n].ev, cell, g);
      } else {
        assert Under(bs, c) == Under(bs[..n], c);
      }
    }
  }

  lemma {:induction false} UnderStranger(bs: seq<Broadcast>, c: nat)
    requires forall i :: 0 <= i < |bs| ==> c !in bs[i].to
    ensures Under(bs, c) == []
  {
    if bs != [] {
      UnderStranger(bs[..|bs| - 1], c);
    }
  }

  lemma {:induction false} DeltasApply(b: Bitmap, ps: seq<Paint>, cell: nat, g: Size)
    requires |b| == g.Cells() && AllFit(ps, g) && cell < g.Cells()
    ensures ApplyDeltas(b, ps, g)[cell] == Last(b[cell], Writes(ps, cell, g))
  {
    if ps != [] {
      DeltasApply(b, ps[..|ps| - 1], cell, g);
    }
  }

  /** Two paints may be broadcast in either order just when they are for different cells or the same
      colour; this is why broadcasts for one cell must keep their paints' order. */
  lemma SwapIsHarmlessIff(b: Bitmap, p: Paint, q: Paint, g: Size)
    requires |b| == g.Cells() && Fits(p, g) && Fits(q, g)
    ensures ApplyDeltas(b, [p, q], g) == ApplyDeltas(b, [q, p], g) <==> CellOf(p, g) != CellOf(q, g) || Wire(p) == Wire(q)
  {
    hide CellOf;
    assert [p, q][..1] == [p] && [q, p][..1] == [q] && [p][..0] == [] && [q][..0] == [];
    assert ApplyDeltas(b, [p], g) == b[CellOf(p, g) := Wire(p)];
    assert ApplyDeltas(b, [q], g) == b[CellOf(q, g) := Wire(q)];
    assert ApplyDeltas(b, [p, q], g) == b[CellOf(p, g) := Wire(p)][CellOf(q, g) := Wire(q)];
    assert ApplyDeltas(b, [q, p], g) == b[CellOf(q, g) := Wire(q)][CellOf(p, g) := Wire(p)];
    if CellOf(p, g) == CellOf(q, g) {
      assert ApplyDeltas(b, [p, q], g)[CellOf(p, g)] == Wire(q);
      assert ApplyDeltas(b, [q, p], g)[CellOf(p, g)] == Wire(p);
    }
  }

  // ---- Every step keeps it ----

  lemma OutstandingWrites(s: State, c: nat, cell: nat, g: Size)
    requires WellFormed(s, g) && c in s.clients
    ensures AllFit(Outstanding(s, c), g) && AllFit(Under(s.inFlight, c), g)
    ensures Writes(Outstanding(s, c), cell, g)
         == Writes(s.clients[c].deltas, cell, g) + Writes(s.clients[c].queue, cell, g)
            + (Writes(Under(s.inFlight, c), cell, g) + Writes(s.pending, cell, g))
  {
    hide Writes, CellOf, Under;
    OutstandingFits(s, c, g);
    var cl := s.clients[c];
    WritesConcat(cl.deltas, cl.queue, cell, g);
    WritesConcat(Under(s.inFlight, c), s.pending, cell, g);
    WritesConcat(cl.deltas + cl.queue, Under(s.inFlight, c) + s.pending, cell, g);
  }

  lemma StepWellFormed(s: State, a: Action, g: Size)
    requires WellFormed(s, g) && Possible(s, a, g)
    ensures WellFormed(Next(s, a, g), g)
  {
    hide CellOf, Writes, Under, Index, FirstOfCell, FirstTo;
  }

  /** A step that leaves the view, the bitmap and the writes to a cell alone leaves its future alone. */
  lemma SameFuture(s: State, t: State, c: nat, cell: nat, g: Size)
    requires WellFormed(s, g) && WellFormed(t, g) && c in s.clients && c in t.clients && cell < g.Cells()
    requires View(t, c)[cell] == View(s, c)[cell]
    requires AllFit(Outstanding(s, c), g) && AllFit(Outstanding(t, c), g)
    requires Writes(Outstanding(t, c), cell, g) == Writes(Outstanding(s, c), cell, g)
    ensures Eventually(t, c, cell, g) == Eventually(s, c, cell, g)
  {}

  lemma ConfirmExact(s: State, p: Paint, c: nat, cell: nat, g: Size)
    requires Sound(s, g) && Fits(p, g) && c in s.clients && s.clients[c].registered && cell < g.Cells()
    requires WellFormed(Next(s, Confirm(p), g), g)
    requires cell !in Next(s, Confirm(p), g).clients[c].stale
    ensures Eventually(Next(s, Confirm(p), g), c, cell, g) == Next(s, Confirm(p), g).bmp[cell]
  {
    hide Writes, CellOf, Under;
    var t := Next(s, Confirm(p), g);
    OutstandingFits(s, c, g);
    OutstandingFits(t, c, g);
    assert Outstanding(t, c) == Outstanding(s, c) + [p];
    WritesConcat(Outstanding(s, c), [p], cell, g);
    WritesOne(p, cell, g);
    if cell != CellOf(p, g) {
      assert cell !in s.clients[c].stale;
      assert Eventually(s, c, cell, g) == s.bmp[cell];
      SameFuture(s, t, c, cell, g);
    }
  }

  lemma AnnounceExact(s: State, k: nat, c: nat, cell: nat, g: Size)
    requires Sound(s, g) && Enabled(s, Announce(k), g) && c in s.clients && s.clients[c].registered && cell < g.Cells()
    requires WellFormed(Next(s, Announce(k), g), g)
    ensures Eventually(Next(s, Announce(k), g), c, cell, g) == Eventually(s, c, cell, g)
    ensures forall d :: d in s.clients && !s.clients[d].registered ==>
                          Under(Next(s, Announce(k), g).inFlight, d) == Under(s.inFlight, d)
  {
    hide Writes, CellOf, FirstOfCell, Drop, Eventually, Outstanding, Under;
    forall d | d in s.clients && !s.clients[d].registered
      ensures Under(Next(s, Announce(k), g).inFlight, d) == Under(s.inFlight, d)
    {
      UnderPush(s.inFlight, Broadcast(s.pending[k], Subscribers(s.clients)), d);
    }
    var t := Next(s, Announce(k), g);
    var e := s.pending[k];
    OutstandingWrites(s, c, cell, g);
    OutstandingWrites(t, c, cell, g);
    UnderPush(s.inFlight, Broadcast(e, Subscribers(s.clients)), c);
    WritesConcat(Under(s.inFlight, c), [e], cell, g);
    WritesToFront(s.pending, k, cell, g);
    Regroup(Writes(s.clients[c].deltas, cell, g) + Writes(s.clients[c].queue, cell, g),
            Writes(Under(s.inFlight, c), cell, g), Writes([e], cell, g), Writes(t.pending, cell, g));
    SameFuture(s, t, c, cell, g);
  }

  lemma UnderPush(bs: seq<Broadcast>, b: Broadcast, c: nat)
    ensures Under(bs + [b], c) == Under(bs, c) + if c in b.to then [b.ev] else []
  {
    assert (bs + [b])[..|bs|] == bs;
  }

  lemma Regroup<T>(a: seq<T>, b: seq<T>, c: seq<T>, d: seq<T>)
    ensures a + ((b + c) + d) == a + (b + (c + d))
    ensures (a + b) + (c + d) == a + (b + (c + d))
    ensures a + (b + c) + d == (a + b) + (c + d)
  {}

  /** What a served client has coming, with the paint in its place between the queue and the rest. */
  lemma ServedWrites(s: State, k: nat, c: nat, dropped: bool, cell: nat, g: Size)
    requires WellFormed(s, g) && Enabled(s, Send(k, c, dropped), g)
    ensures var b := s.inFlight[k];
            var rest := s.inFlight[k := b.(to := b.to - {c})];
            && AllFit(Outstanding(s, c), g) && AllFit(Under(rest, c), g) && AllFit(Under(rest, c) + s.pending, g)
            && Writes(Outstanding(s, c), cell, g)
               == Writes(s.clients[c].deltas, cell, g) + Writes(s.clients[c].queue, cell, g)
                  + (Writes([b.ev], cell, g) + Writes(Under(rest, c) + s.pending, cell, g))
  {
    hide Writes, CellOf, Under;
    var b := s.inFlight[k];
    var rest := s.inFlight[k := b.(to := b.to - {c})];
    OutstandingWrites(s, c, cell, g);
    UnderServed(s.inFlight, k, c, cell, g);
    WritesConcat(Under(rest, c), s.pending, cell, g);
  }

  lemma SendQueued(s: State, k: nat, c: nat, cell: nat, g: Size)
    requires WellFormed(s, g) && Enabled(s, Send(k, c, false), g) && cell < g.Cells()
    requires WellFormed(Next(s, Send(k, c, false), g), g)
    ensures Eventually(Next(s, Send(k, c, false), g), c, cell, g) == Eventually(s, c, cell, g)
  {
    hide Writes, CellOf, Under, FirstTo, Outstanding, Eventually, Last;
    var t := Next(s, Send(k, c, false), g);
    var cl, p := s.clients[c], s.inFlight[k].ev;
    ServedWrites(s, k, c, false, cell, g);
    OutstandingWrites(t, c, cell, g);
    WritesConcat(Under(t.inFlight, c), t.pending, cell, g);
    WritesConcat(cl.queue, [p], cell, g);
    Regroup(Writes(cl.deltas, cell, g), Writes(cl.queue, cell, g), Writes([p], cell, g),
            Writes(Under(t.inFlight, c) + t.pending, cell, g));
    SameFuture(s, t, c, cell, g);
  }

  lemma SendDropped(s: State, k: nat, c: nat, cell: nat, g: Size)
    requires WellFormed(s, g) && Enabled(s, Send(k, c, true), g) && cell < g.Cells()
    requires WellFormed(Next(s, Send(k, c, true), g), g)
    requires cell !in Next(s, Send(k, c, true), g).clients[c].stale
    ensures Eventually(Next(s, Send(k, c, true), g), c, cell, g) == Eventually(s, c, cell, g)
  {
    hide Writes, CellOf, Under, FirstTo, Outstanding, Last;
    var t := Next(s, Send(k, c, true), g);
    var cl, p := s.clients[c], s.inFlight[k].ev;
    ServedWrites(s, k, c, true, cell, g);
    OutstandingWrites(t, c, cell, g);
    WritesConcat(Under(t.inFlight, c), t.pending, cell, g);
    WritesOne(p, cell, g);
    LastPast(View(s, c)[cell], Writes(cl.deltas, cell, g) + Writes(cl.queue, cell, g), Writes([p], cell, g),
             Writes(Under(t.inFlight, c) + t.pending, cell, g));
  }

  lemma SendExact(s: State, k: nat, c: nat, dropped: bool, cell: nat, g: Size)
    requires Sound(s, g) && Enabled(s, Send(k, c, dropped), g) && s.clients[c].registered && cell < g.Cells()
    requires WellFormed(Next(s, Send(k, c, dropped), g), g)
    requires cell !in Next(s, Send(k, c, dropped), g).clients[c].stale
    ensures Eventually(Next(s, Send(k, c, dropped), g), c, cell, g) == s.bmp[cell]
  {
    hide Writes, CellOf, Under, FirstTo, Eventually;
    if dropped {
      SendDropped(s, k, c, cell, g);
    } else {
      SendQueued(s, k, c, cell, g);
    }
    assert Eventually(s, c, cell, g) == s.bmp[cell];
  }

  /** Leaving out a write changes nothing when a later one follows or there was none to leave out. */
  lemma LastPast(v: byte, a: seq<byte>, b: seq<byte>, c: seq<byte>)
    requires b == [] || c != []
    ensures Last(v, a + (b + c)) == Last(v, a + c)
  {
    if b == [] {
      assert b + c == c;
    }
  }

  lemma SendLeavesOthers(s: State, k: nat, d: nat, dropped: bool, c: nat, cell: nat, g: Size)
    requires Sound(s, g) && Enabled(s, Send(k, d, dropped), g) && c in s.clients && c != d && cell < g.Cells()
    requires WellFormed(Next(s, Send(k, d, dropped), g), g)
    ensures Eventually(Next(s, Send(k, d, dropped), g), c, cell, g) == Eventually(s, c, cell, g)
  {
    hide Writes, CellOf, FirstTo;
    var b := s.inFlight[k];
    UnderUpdate(s.inFlight, k, b.(to := b.to - {d}), c);
  }

  lemma ReceiveExact(s: State, c: nat, cell: nat, g: Size)
    requires WellFormed(s, g) && Enabled(s, Receive(c), g) && cell < g.Cells()
    requires WellFormed(Next(s, Receive(c), g), g)
    ensures Eventually(Next(s, Receive(c), g), c, cell, g) == Eventually(s, c, cell, g)
  {
    hide Writes, CellOf, Under;
    assert Outstanding(Next(s, Receive(c), g), c) == Outstanding(s, c);
  }

  lemma FlushExact(s: State, c: nat, cell: nat, g: Size)
    requires WellFormed(s, g) && Enabled(s, Flush(c), g) && cell < g.Cells()
    requires WellFormed(Next(s, Flush(c), g), g)
    ensures Eventually(Next(s, Flush(c), g), c, cell, g) == Eventually(s, c, cell, g)
  {
    hide Writes, CellOf, Under;
    var t := Next(s, Flush(c), g);
    OutstandingWrites(s, c, cell, g);
    OutstandingWrites(t, c, cell, g);
    NoWrites(cell, g);
    DeltasApply(s.clients[c].page.value, s.clients[c].deltas, cell, g);
  }

  lemma NoWrites(cell: nat, g: Size)
    ensures Writes([], cell, g) == []
  {}

  lemma ConnectExact(s: State, c: nat, cell: nat, g: Size)
    requires Sound(s, g) && Enabled(s, Connect(c), g) && cell < g.Cells()
    requires WellFormed(Next(s, Connect(c), g), g)
    ensures Eventually(Next(s, Connect(c), g), c, cell, g) == s.bmp[cell]
  {
    hide Writes, CellOf;
    UnderStranger(s.inFlight, c);
    assert Outstanding(Next(s, Connect(c), g), c) == s.pending;
  }

  lemma StepExact(s: State, a: Action, c: nat, g: Size)
    requires Sound(s, g) && Enabled(s, a, g) && WellFormed(Next(s, a, g), g)
    requires c in Next(s, a, g).clients && Next(s, a, g).clients[c].registered
    ensures Exact(Next(s, a, g), c, g)
  {
    hide Writes, CellOf, Under, FirstTo, FirstOfCell, ApplyDeltas, Eventually;
    var t := Next(s, a, g);
    forall cell: nat | cell < g.Cells() && cell !in t.clients[c].stale
      ensures Eventually(t, c, cell, g) == t.bmp[cell]
    {
      match a {
        case Confirm(p) => ConfirmExact(s, p, c, cell, g);
        case Announce(k) => AnnounceExact(s, k, c, cell, g);
        case Send(k, d, dropped) =>
          if c == d {
            SendExact(s, k, c, dropped, cell, g);
          } else {
            SendLeavesOthers(s, k, d, dropped, c, cell, g);
          }
        case Connect(d) =>
          if c == d {
            ConnectExact(s, c, cell, g);
          } else {
            OthersUntouched(s, t, c, cell, g);
          }
        case Disconnect(d) => OthersUntouched(s, t, c, cell, g);
        case Snapshot(d) => OthersUntouched(s, t, c, cell, g);
        case Receive(d) =>
          if c == d {
            ReceiveExact(s, c, cell, g);
          } else {
            OthersUntouched(s, t, c, cell, g);
          }
        case Flush(d) =>
          if c == d {
            FlushExact(s, c, cell, g);
          } else {
            OthersUntouched(s, t, c, cell, g);
          }
      }
    }
  }

  lemma OthersUntouched(s: State, t: State, c: nat, cell: nat, g: Size)
    requires WellFormed(s, g) && WellFormed(t, g) && c in s.clients && c in t.clients && cell < g.Cells()
    requires t.bmp == s.bmp && t.pending == s.pending && t.inFlight == s.inFlight
    requires View(t, c) == View(s, c) && t.clients[c].deltas == s.clients[c].deltas
    requires t.clients[c].queue == s.clients[c].queue
    ensures Eventually(t, c, cell, g) == Eventually(s, c, cell, g)
  {}

  lemma StepPending(s: State, a: Action, cell: nat, g: Size)
    requires Sound(s, g) && Enabled(s, a, g) && WellFormed(Next(s, a, g), g) && cell < g.Cells()
    ensures Last(Next(s, a, g).bmp[cell], Writes(Next(s, a, g).pending, cell, g)) == Next(s, a, g).bmp[cell]
  {
    hide Writes, CellOf, Under, FirstOfCell, FirstTo, Drop;
    match a {
      case Confirm(p) =>
        WritesConcat(s.pending, [p], cell, g);
        WritesOne(p, cell, g);
      case Announce(k) =>
        WritesToFront(s.pending, k, cell, g);
        WritesOne(s.pending[k], cell, g);
      case _ =>
    }
  }

  lemma StepKnown(s: State, a: Action, g: Size)
    requires Sound(s, g) && Enabled(s, a, g)
    ensures forall i :: 0 <= i < |Next(s, a, g).inFlight| ==> Next(s, a, g).inFlight[i].to <= Next(s, a, g).clients.Keys
  {
    hide Writes, CellOf, Under, Exact;
  }

  /** Every step keeps every subscriber on its way to the server's bitmap. */
  lemma StepKeeps(s: State, a: Action, g: Size)
    requires Sound(s, g) && Enabled(s, a, g)
    ensures Sound(Next(s, a, g), g)
  {
    hide Writes, Exact, Next, Possible, InOrder;
    StepWellFormed(s, a, g);
    StepKnown(s, a, g);
    var t := Next(s, a, g);
    forall cell: nat | cell < g.Cells()
      ensures |t.bmp| == g.Cells() && AllFit(t.pending, g) && Last(t.bmp[cell], Writes(t.pending, cell, g)) == t.bmp[cell]
    {
      StepPending(s, a, cell, g);
    }
    forall c | c in t.clients && t.clients[c].registered
      ensures Exact(t, c, g)
    {
      StepExact(s, a, c, g);
    }
  }

  // ---- Whole runs ----

  /** A run of possible steps, with broadcasts for one cell in order or in any. */
  predicate Schedule(s: State, run: seq<Action>, ordered: bool, g: Size)
    requires WellFormed(s, g)
    decreases |run|
  {
    run == []
    || (Possible(s, run[0], g) && (ordered ==> InOrder(s, run[0], g)) && WellFormed(Next(s, run[0], g), g)
        && Schedule(Next(s, run[0], g), run[1..], ordered, g))
  }

  function After(s: State, run: seq<Action>, ordered: bool, g: Size): State
    requires WellFormed(s, g) && Schedule(s, run, ordered, g)
    decreases |run|
  {
    if run == [] then s else After(Next(s, run[0], g), run[1..], ordered, g)
  }

  /** No paint of the run is dropped for any subscriber. */
  predicate NeverDrops(s: State, run: seq<Action>, ordered: bool, g: Size)
    requires WellFormed(s, g) && Schedule(s, run, ordered, g)
    decreases |run|
  {
    run == []
    || ((run[0].Send? ==> !run[0].dropped) && NeverDrops(Next(s, run[0], g), run[1..], ordered, g))
  }

  lemma {:induction false} RunKeeps(s: State, run: seq<Action>, g: Size)
    requires Sound(s, g) && Schedule(s, run, true, g)
    ensures Sound(After(s, run, true, g), g)
    decreases |run|
  {
    hide Next, Exact;
    if run != [] {
      StepKeeps(s, run[0], g);
      RunKeeps(Next(s, run[0], g), run[1..], g);
    }
  }

  ghost predicate NothingStale(s: State) {
    forall c :: c in s.clients ==> s.clients[c].stale == {}
  }

  lemma StepNothingStale(s: State, a: Action, g: Size)
    requires WellFormed(s, g) && Enabled(s, a, g) && NothingStale(s)
    requires a.Send? ==> !a.dropped
    ensures NothingStale(Next(s, a, g))
  {
    hide Writes, CellOf, Under, FirstOfCell, FirstTo;
  }

  lemma {:induction false} RunNothingStale(s: State, run: seq<Action>, g: Size)
    requires WellFormed(s, g) && Schedule(s, run, true, g) && NothingStale(s) && NeverDrops(s, run, true, g)
    ensures NothingStale(After(s, run, true, g))
    decreases |run|
  {
    hide Next, WellFormed, NothingStale;
    if run != [] {
      StepNothingStale(s, run[0], g);
      RunNothingStale(Next(s, run[0], g), run[1..], g);
    }
  }

  /** Nothing is on its way to a client any more, and it has its page. */
  predicate Drained(s: State, c: nat)
    requires c in s.clients
  {
    s.clients[c].registered && s.clients[c].page.Some? && Outstanding(s, c) == []
  }

  /** Whenever a subscriber is drained, after any run from an idle hub, its page agrees with the server's
      bitmap on every cell whose newest paint it did not drop; if none was dropped, on all of them. */
  lemma DrainedPageIsBitmap(bmp: Bitmap, run: seq<Action>, c: nat, g: Size)
    requires |bmp| == g.Cells() && Schedule(Start(g, bmp), run, true, g)
    requires c in After(Start(g, bmp), run, true, g).clients && Drained(After(Start(g, bmp), run, true, g), c)
    ensures var s := After(Start(g, bmp), run, true, g);
            var cl := s.clients[c];
            && |cl.page.value| == |s.bmp|
            && (forall cell: nat :: cell < |s.bmp| && cell !in cl.stale ==> cl.page.value[cell] == s.bmp[cell])
            && (NeverDrops(Start(g, bmp), run, true, g) ==> cl.page.value == s.bmp)
  {
    hide Next, Under;
    var s := After(Start(g, bmp), run, true, g);
    assert Sound(Start(g, bmp), g);
    RunKeeps(Start(g, bmp), run, g);
    forall cell: nat | cell < g.Cells() && cell !in s.clients[c].stale
      ensures s.clients[c].page.value[cell] == s.bmp[cell]
    {
      assert Eventually(s, c, cell, g) == s.bmp[cell];
    }
    if NeverDrops(Start(g, bmp), run, true, g) {
      RunNothingStale(Start(g, bmp), run, g);
    }
  }

  /** A client that has disconnected stays so, and nothing more sets out for it: what is under way to it can
      only arrive or be dropped. */
  lemma GoneGetsNoMore(s: State, a: Action, c: nat, g: Size)
    requires WellFormed(s, g) && Possible(s, a, g) && c in s.clients
    requires a == Disconnect(c) || !s.clients[c].registered
    ensures c in Next(s, a, g).clients && !Next(s, a, g).clients[c].registered
    ensures |Under(Next(s, a, g).inFlight, c)| <= |Under(s.inFlight, c)|
  {
    hide Writes, CellOf, ApplyDeltas, Under;
    match a {
      case Announce(k) => UnderPush(s.inFlight, Broadcast(s.pending[k], Subscribers(s.clients)), c);
      case Send(k, d, _) =>
        var b := s.inFlight[k];
        if c == d {
          UnderFewer(s.inFlight, k, b.(to := b.to - {d}), c);
        } else {
          UnderUpdate(s.inFlight, k, b.(to := b.to - {d}), c);
        }
      case _ =>
    }
  }

  lemma {:induction false} UnderFewer(bs: seq<Broadcast>, k: nat, b: Broadcast, c: nat)
    requires k < |bs| && b.to <= bs[k].to
    ensures |Under(bs[k := b], c)| <= |Under(bs, c)|
  {
    var n := |bs| - 1;
    if k == n {
      assert bs[k := b][..n] == bs[..n];
    } else {
      assert bs[k := b][..n] == bs[..n][k := b];
      UnderFewer(bs[..n], k, b, c);
    }
  }

  // ---- From the ledger to the page ----

  /** The paints of the ledger's posted claims, in ledger order. */
  function PaintsOf(l: seq<Transfer>, g: Size): (ps: seq<Paint>)
    ensures AllFit(ps, g)
  {
    if l == [] then []
    else
      var ps := PaintsOf(l[..|l| - 1], g);
      match IsPostedClaim(l[|l| - 1], g)
      case None => ps
      case Some(p) => ps + [p]
  }

  /** The paints a run puts into the server's bitmap. */
  function Confirmed(run: seq<Action>): seq<Paint> {
    if run == [] then [] else (if run[0].Confirm? then [run[0].p] else []) + Confirmed(run[1..])
  }

  lemma {:induction false} DeltasAreFold(l: seq<Transfer>, g: Size)
    ensures ApplyDeltas(Blank(g), PaintsOf(l, g), g) == Fold(Blank(g), l, g)
  {
    hide IsPostedClaim, Apply, CellOf, Wire, Blank;
    if l != [] {
      var init, t := l[..|l| - 1], l[|l| - 1];
      DeltasAreFold(init, g);
      match IsPostedClaim(t, g) {
        case None => AppliesPaint(Fold(Blank(g), init, g), t, g);
        case Some(p) =>
          assert PaintsOf(l, g)[..|PaintsOf(l, g)| - 1] == PaintsOf(init, g);
          AppliesPaint(Fold(Blank(g), init, g), t, g);
      }
    }
  }

  /** What the wire carries for one posted claim is the byte the ledger's canvas takes for it. */
  lemma AppliesPaint(b: Bitmap, t: Transfer, g: Size)
    requires |b| == g.Cells()
    ensures Apply(b, t, g) == match IsPostedClaim(t, g) case None => b case Some(p) => b[CellOf(p, g) := Wire(p)]
  {
    hide IsPostedClaim;
  }

  lemma {:induction false} DeltasConcat(b: Bitmap, a: seq<Paint>, c: seq<Paint>, g: Size)
    requires |b| == g.Cells() && AllFit(a, g) && AllFit(c, g)
    ensures AllFit(a + c, g) && ApplyDeltas(b, a + c, g) == ApplyDeltas(ApplyDeltas(b, a, g), c, g)
  {
    hide CellOf;
    if c == [] {
      assert a + c == a;
    } else {
      var n := |c| - 1;
      assert (a + c)[..|a| + n] == a + c[..n];
      DeltasConcat(b, a, c[..n], g);
    }
  }

  lemma StepConfirms(s: State, a: Action, g: Size)
    requires WellFormed(s, g) && Possible(s, a, g)
    ensures a.Confirm? ==> Next(s, a, g).bmp == ApplyDeltas(s.bmp, [a.p], g)
    ensures !a.Confirm? ==> Next(s, a, g).bmp == s.bmp
  {
    hide CellOf, Writes, Under;
    if a.Confirm? {
      assert [a.p][..0] == [];
      assert ApplyDeltas(s.bmp, [], g) == s.bmp;
    }
  }

  lemma {:induction false} RunConfirms(s: State, run: seq<Action>, ordered: bool, g: Size)
    requires WellFormed(s, g) && Schedule(s, run, ordered, g)
    ensures AllFit(Confirmed(run), g)
    ensures After(s, run, ordered, g).bmp == ApplyDeltas(s.bmp, Confirmed(run), g)
    decreases |run|
  {
    hide Next, ApplyDeltas, Fits, InOrder;
    if run == [] {
      assert s.bmp == ApplyDeltas(s.bmp, [], g) by {
        NothingApplied(s.bmp, g);
      }
    } else {
      StepConfirms(s, run[0], g);
      RunConfirms(Next(s, run[0], g), run[1..], ordered, g);
      if run[0].Confirm? {
        DeltasConcat(s.bmp, [run[0].p], Confirmed(run[1..]), g);
      } else {
        assert Confirmed(run) == Confirmed(run[1..]);
      }
    }
  }

  lemma NothingApplied(b: Bitmap, g: Size)
    requires |b| == g.Cells()
    ensures ApplyDeltas(b, [], g) == b
  {}

  /** A server that started on the empty canvas and has taken in a ledger's posted claims shows the ledger. */
  lemma RunShowsLedger(run: seq<Action>, l: seq<Transfer>, ns: nat, ordered: bool, g: Size)
    requires Schedule(Start(g, Blank(g)), run, ordered, g) && Confirmed(run) == PaintsOf(l, g)
    requires forall t :: t in l ==> t.timestamp < ns
    ensures ShowsLedger(After(Start(g, Blank(g)), run, ordered, g).bmp, l, ns, g)
  {
    hide Schedule, After, Fold, ShowsLedger, ApplyDeltas, IsPostedClaim;
    RunConfirms(Start(g, Blank(g)), run, ordered, g);
    DeltasAreFold(l, g);
    BitmapShows(l, ns, g);
  }

  /** So a drained subscriber of such a server sees, at every cell whose newest paint it did not drop, the
      colour of the cell's last claim. */
  lemma DrainedPageShowsLedger(run: seq<Action>, s: State, c: nat, l: seq<Transfer>, ns: nat, x: nat, y: nat, i: nat, g: Size)
    requires Schedule(Start(g, Blank(g)), run, true, g) && s == After(Start(g, Blank(g)), run, true, g)
    requires Confirmed(run) == PaintsOf(l, g) && forall t :: t in l ==> t.timestamp < ns
    requires c in s.clients && Drained(s, c)
    requires g.Contains(x, y) && i == y * g.w + x && i !in s.clients[c].stale
    ensures i < |s.clients[c].page.value| && ShowsCell(s.clients[c].page.value[i], l, ns, x, y)
  {
    hide Schedule, After, NeverDrops, ShowsCell, WellFormed, PaintsOf, Confirmed, Outstanding, Blank;
    RowFits(x, y, g);
    DrainedPageIsBitmap(Blank(g), run, c, g);
    RunShowsLedger(run, l, ns, true, g);
  }

  // ---- Broadcasts in any order ----

  /** No element of `ps` is for the cell. */
  ghost predicate NoneFor(ps: seq<Paint>, cell: nat, g: Size)
    requires AllFit(ps, g)
  {
    forall i :: 0 <= i < |ps| ==> CellOf(ps[i], g) != cell
  }

  lemma NoneForConcat(a: seq<Paint>, b: seq<Paint>, cell: nat, g: Size)
    requires AllFit(a, g) && AllFit(b, g)
    ensures AllFit(a + b, g) && (NoneFor(a + b, cell, g) <==> NoneFor(a, cell, g) && NoneFor(b, cell, g))
  {
    hide CellOf;
    assert forall i :: 0 <= i < |a| ==> (a + b)[i] == a[i];
    assert forall i :: 0 <= i < |b| ==> (a + b)[|a| + i] == b[i];
  }

  lemma {:induction false} NoWritesNoneFor(ps: seq<Paint>, cell: nat, g: Size)
    requires AllFit(ps, g) && Writes(ps, cell, g) == []
    ensures NoneFor(ps, cell, g)
  {
    if ps != [] {
      NoWritesNoneFor(ps[..|ps| - 1], cell, g);
      assert ps == ps[..|ps| - 1] + [ps[|ps| - 1]];
    }
  }

  /** What is under way to `c`, but for the k-th broadcast's paint, is still under way once it is served. */
  lemma {:induction false} NoneUnderServed(bs: seq<Broadcast>, k: nat, c: nat, cell: nat, g: Size)
    requires k < |bs| && c in bs[k].to && forall i :: 0 <= i < |bs| ==> Fits(bs[i].ev, g)
    requires var rest := bs[k := bs[k].(to := bs[k].to - {c})];
             AllFit(Under(rest, c), g) && NoneFor(Under(rest, c), cell, g) && CellOf(bs[k].ev, g) != cell
    ensures AllFit(Under(bs, c), g) && NoneFor(Under(bs, c), cell, g)
  {
    hide CellOf;
    var n := |bs| - 1;
    var rest := bs[k := bs[k].(to := bs[k].to - {c})];
    UnderFits(bs, c, g);
    UnderFits(bs[..n], c, g);
    UnderFits(rest[..n], c, g);
    if k == n {
      assert rest[..n] == bs[..n] && Under(rest, c) == Under(bs[..n], c);
      NoneForConcat(Under(bs[..n], c), [bs[n].ev], cell, g);
    } else {
      assert rest[..n] == bs[..n][k := bs[k].(to := bs[k].to - {c})];
      if c in bs[n].to {
        NoneForConcat(Under(rest[..n], c), [bs[n].ev], cell, g);
        NoneUnderServed(bs[..n], k, c, cell, g);
        NoneForConcat(Under(bs[..n], c), [bs[n].ev], cell, g);
      } else {
        assert Under(rest, c) == Under(rest[..n], c) && Under(bs, c) == Under(bs[..n], c);
        NoneUnderServed(bs[..n], k, c, cell, g);
      }
    }
  }

  /** All a client has been sent since its snapshot, and all that is still on its way to it. */
  ghost predicate Untouched(s: State, c: nat, cell: nat, g: Size)
    requires WellFormed(s, g) && c in s.clients
  {
    OutstandingFits(s, c, g);
    && NoneFor(s.clients[c].received, cell, g) && NoneFor(s.clients[c].queue, cell, g)
    && NoneFor(Under(s.inFlight, c), cell, g) && NoneFor(s.pending, cell, g)
  }

  /** The page is the snapshot with what has been received applied, but for the deltas of the next flush; and
      a cell nothing was sent for has not been painted since the snapshot. */
  ghost predicate Faithful(s: State, c: nat, cell: nat, g: Size)
    requires WellFormed(s, g) && c in s.clients && cell < g.Cells()
  {
    && (s.clients[c].page.None? ==> s.clients[c].received == [] && s.clients[c].deltas == [])
    && (s.clients[c].page.Some? ==>
          && Last(s.clients[c].page.value[cell], Writes(s.clients[c].deltas, cell, g))
             == Last(s.clients[c].base[cell], Writes(s.clients[c].received, cell, g))
          && (Untouched(s, c, cell, g) ==> s.clients[c].base[cell] == s.bmp[cell]))
  }

  lemma ConfirmFaithful(s: State, p: Paint, c: nat, cell: nat, g: Size)
    requires WellFormed(s, g) && Fits(p, g) && c in s.clients && cell < g.Cells() && Faithful(s, c, cell, g)
    requires WellFormed(Next(s, Confirm(p), g), g)
    ensures Faithful(Next(s, Confirm(p), g), c, cell, g)
  {
    hide Writes, CellOf, Under, NoneFor;
    OutstandingFits(s, c, g);
    NoneForConcat(s.pending, [p], cell, g);
    NoneForOne(p, cell, g);
  }

  lemma NoneForOne(p: Paint, cell: nat, g: Size)
    requires Fits(p, g)
    ensures NoneFor([p], cell, g) <==> CellOf(p, g) != cell
  {
    hide CellOf;
    assert [p][0] == p;
  }

  lemma AnnounceFaithful(s: State, k: nat, c: nat, cell: nat, g: Size)
    requires WellFormed(s, g) && k < |s.pending| && c in s.clients && s.clients[c].registered && cell < g.Cells()
    requires Faithful(s, c, cell, g) && WellFormed(Next(s, Announce(k), g), g)
    ensures Faithful(Next(s, Announce(k), g), c, cell, g)
  {
    hide Writes, CellOf, Under, NoneFor;
    var e := s.pending[k];
    OutstandingFits(s, c, g);
    OutstandingFits(Next(s, Announce(k), g), c, g);
    UnderPush(s.inFlight, Broadcast(e, Subscribers(s.clients)), c);
    NoneForConcat(Under(s.inFlight, c), [e], cell, g);
    var a, b := s.pending[..k], s.pending[k + 1..];
    assert s.pending == a + ([e] + b);
    NoneForConcat([e], b, cell, g);
    NoneForConcat(a, [e] + b, cell, g);
    NoneForConcat(a, b, cell, g);
  }

  lemma SendFaithful(s: State, k: nat, c: nat, cell: nat, g: Size)
    requires WellFormed(s, g) && Possible(s, Send(k, c, false), g) && cell < g.Cells()
    requires Faithful(s, c, cell, g) && WellFormed(Next(s, Send(k, c, false), g), g)
    ensures Faithful(Next(s, Send(k, c, false), g), c, cell, g)
  {
    hide Writes, CellOf, Under, NoneFor;
    var t := Next(s, Send(k, c, false), g);
    var e := s.inFlight[k].ev;
    OutstandingFits(s, c, g);
    OutstandingFits(t, c, g);
    NoneForConcat(s.clients[c].queue, [e], cell, g);
    NoneForOne(e, cell, g);
    if Untouched(t, c, cell, g) {
      NoneUnderServed(s.inFlight, k, c, cell, g);
    }
  }

  lemma SendFaithfulToOthers(s: State, k: nat, d: nat, c: nat, cell: nat, g: Size)
    requires WellFormed(s, g) && Possible(s, Send(k, d, false), g) && c in s.clients && c != d && cell < g.Cells()
    requires Faithful(s, c, cell, g) && WellFormed(Next(s, Send(k, d, false), g), g)
    ensures Faithful(Next(s, Send(k, d, false), g), c, cell, g)
  {
    hide Writes, CellOf, NoneFor;
    var b := s.inFlight[k];
    UnderUpdate(s.inFlight, k, b.(to := b.to - {d}), c);
  }

  lemma ReceiveFaithful(s: State, c: nat, cell: nat, g: Size)
    requires WellFormed(s, g) && Possible(s, Receive(c), g) && cell < g.Cells()
    requires Faithful(s, c, cell, g) && WellFormed(Next(s, Receive(c), g), g)
    ensures Faithful(Next(s, Receive(c), g), c, cell, g)
  {
    hide Writes, CellOf, Under, NoneFor;
    var cl := s.clients[c];
    OutstandingFits(s, c, g);
    assert cl.queue == [cl.queue[0]] + cl.queue[1..];
    NoneForConcat([cl.queue[0]], cl.queue[1..], cell, g);
    NoneForConcat(cl.received, [cl.queue[0]], cell, g);
    WritesConcat(cl.deltas, [cl.queue[0]], cell, g);
    WritesConcat(cl.received, [cl.queue[0]], cell, g);
    LastPush(cl.page.value[cell], Writes(cl.deltas, cell, g), cl.base[cell], Writes(cl.received, cell, g),
             Writes([cl.queue[0]], cell, g));
  }

  lemma LastPush(v: byte, a: seq<byte>, w: byte, b: seq<byte>, c: seq<byte>)
    requires Last(v, a) == Last(w, b)
    ensures Last(v, a + c) == Last(w, b + c)
  {
    if c == [] {
      assert a + c == a && b + c == b;
    }
  }

  lemma FlushFaithful(s: State, c: nat, cell: nat, g: Size)
    requires WellFormed(s, g) && Possible(s, Flush(c), g) && cell < g.Cells()
    requires Faithful(s, c, cell, g) && WellFormed(Next(s, Flush(c), g), g)
    ensures Faithful(Next(s, Flush(c), g), c, cell, g)
  {
    hide Writes, CellOf, Under, NoneFor;
    NoWrites(cell, g);
    DeltasApply(s.clients[c].page.value, s.clients[c].deltas, cell, g);
  }

  lemma SnapshotFaithful(s: State, c: nat, cell: nat, g: Size)
    requires WellFormed(s, g) && Possible(s, Snapshot(c), g) && cell < g.Cells()
    requires Faithful(s, c, cell, g) && WellFormed(Next(s, Snapshot(c), g), g)
    ensures Faithful(Next(s, Snapshot(c), g), c, cell, g)
  {
    hide CellOf, Under, NoneFor;
    NoWrites(cell, g);
  }

  lemma StepFaithful(s: State, a: Action, c: nat, cell: nat, g: Size)
    requires WellFormed(s, g) && Possible(s, a, g) && WellFormed(Next(s, a, g), g) && (a.Send? ==> !a.dropped)
    requires c in Next(s, a, g).clients && Next(s, a, g).clients[c].registered && cell < g.Cells()
    requires c in s.clients ==> Faithful(s, c, cell, g)
    ensures Faithful(Next(s, a, g), c, cell, g)
  {
    hide Writes, CellOf, Under, NoneFor, ApplyDeltas;
    match a
    case Confirm(p) => ConfirmFaithful(s, p, c, cell, g);
    case Announce(k) => AnnounceFaithful(s, k, c, cell, g);
    case Send(k, d, _) =>
      if c == d {
        SendFaithful(s, k, c, cell, g);
      } else {
        SendFaithfulToOthers(s, k, d, c, cell, g);
      }
    case Connect(d) =>
    case Disconnect(d) =>
    case Snapshot(d) =>
      if c == d {
        SnapshotFaithful(s, c, cell, g);
      }
    case Receive(d) =>
      if c == d {
        ReceiveFaithful(s, c, cell, g);
      }
    case Flush(d) =>
      if c == d {
        FlushFaithful(s, c, cell, g);
      }
  }

  ghost predicate AllFaithful(s: State, cell: nat, g: Size)
    requires WellFormed(s, g) && cell < g.Cells()
  {
    forall c :: c in s.clients && s.clients[c].registered ==> Faithful(s, c, cell, g)
  }

  lemma {:induction false} RunFaithful(s: State, run: seq<Action>, ordered: bool, cell: nat, g: Size)
    requires WellFormed(s, g) && Schedule(s, run, ordered, g) && NeverDrops(s, run, ordered, g)
    requires cell < g.Cells() && AllFaithful(s, cell, g)
    ensures WellFormed(After(s, run, ordered, g), g) && AllFaithful(After(s, run, ordered, g), cell, g)
    decreases |run|
  {
    hide Next, WellFormed, Faithful, Possible, InOrder;
    if run != [] {
      var t := Next(s, run[0], g);
      forall c | c in t.clients && t.clients[c].registered
        ensures Faithful(t, c, cell, g)
      {
        WasRegistered(s, run[0], c, g);
        StepFaithful(s, run[0], c, cell, g);
      }
      RunFaithful(t, run[1..], ordered, cell, g);
    }
  }

  lemma WasRegistered(s: State, a: Action, c: nat, g: Size)
    requires WellFormed(s, g) && Possible(s, a, g)
    requires c in Next(s, a, g).clients && Next(s, a, g).clients[c].registered
    ensures c in s.clients ==> s.clients[c].registered
  {
    hide Writes, CellOf, Under, ApplyDeltas;
  }

  /** With nothing dropped but broadcasts starting and arriving in any order, a drained subscriber's page shows
      the server's byte at a cell if and only if it has received no delta for the cell since its snapshot, or
      the last one it received carries that byte. */
  lemma DrainedCellIff(bmp: Bitmap, run: seq<Action>, c: nat, cell: nat, g: Size)
    requires |bmp| == g.Cells() && Schedule(Start(g, bmp), run, false, g) && NeverDrops(Start(g, bmp), run, false, g)
    requires c in After(Start(g, bmp), run, false, g).clients && Drained(After(Start(g, bmp), run, false, g), c)
    requires cell < g.Cells()
    ensures var s := After(Start(g, bmp), run, false, g);
            WellFormed(s, g)
            && var writes := Writes(s.clients[c].received, cell, g);
               s.clients[c].page.value[cell] == s.bmp[cell] <==> writes == [] || writes[|writes| - 1] == s.bmp[cell]
  {
    hide Next, CellOf, Possible, InOrder;
    var s := After(Start(g, bmp), run, false, g);
    RunFaithful(Start(g, bmp), run, false, cell, g);
    var cl := s.clients[c];
    assert Faithful(s, c, cell, g);
    assert cl.deltas == [] && cl.queue == [] && Under(s.inFlight, c) == [] && s.pending == [];
    if Writes(cl.received, cell, g) == [] {
      NoWritesNoneFor(cl.received, cell, g);
      assert Untouched(s, c, cell, g);
    }
  }
}
