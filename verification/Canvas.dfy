/** Transfers of the canvas ledger, and the canvas they fold to.
    Identifiers, codes and ledgers are unsigned words; timestamps are nanoseconds. */
module Canvas {
  import opened Bytes

  datatype Option<+T> = None | Some(value: T)

  type Bitmap = seq<byte>

  datatype Flags = Flags(linked: bool, pending: bool, post: bool, void: bool)

  datatype Transfer = Transfer(id: nat, debit: nat, credit: nat, amount: nat, pendingId: nat, player: nat,
                               code: nat, timeout: nat, ledger: nat, flags: Flags, timestamp: nat)

  datatype Size = Size(w: u32, h: u32) {
    function Cells(): nat { w * h }
    predicate Contains(x: nat, y: nat) { x < w && y < h }
  }

  const PIXEL_MARKER := 1
  const CLAIM_CODE := 1000

  function PixelID(x: u32, y: u32): nat {
    PIXEL_MARKER * U64 + x * U32 + y
  }

  function UnpackPixelID(id: nat): Option<(u32, u32)> {
    if id / U64 != PIXEL_MARKER then None
    else Some(((id % U64) / U32, (id % U64) % U32))
  }

  lemma UnpackIsInverse(id: nat, x: u32, y: u32)
    ensures UnpackPixelID(id) == Some((x, y)) <==> id == PixelID(x, y)
  {
    var lo := x * U32 + y;
    assert PixelID(x, y) / U64 == 1 && PixelID(x, y) % U64 == lo;
    assert lo / U32 == x && lo % U32 == y;
    var low := id % U64;
    assert low == low / U32 * U32 + low % U32;
  }

  datatype Paint = Paint(x: u32, y: u32, color: byte)

  /** The posted claim leg a transfer carries, if it is one for a cell of the grid. */
  function IsPostedClaim(t: Transfer, g: Size): (r: Option<Paint>)
    ensures r.Some? ==> g.Contains(r.value.x, r.value.y)
  {
    if !t.flags.post then None
    else
      match UnpackPixelID(t.debit)
      case None => None
      case Some((x, y)) =>
        if !g.Contains(x, y) || t.code < CLAIM_CODE then None
        else Some(Paint(x, y, (t.code - CLAIM_CODE) % 256))
  }

  predicate Paints(t: Transfer, g: Size) {
    IsPostedClaim(t, g).Some?
  }

  function Index(x: nat, y: nat, g: Size): (i: nat)
    requires g.Contains(x, y)
    ensures i < g.Cells()
  {
    RowFits(x, y, g);
    y * g.w + x
  }

  lemma RowFits(x: nat, y: nat, g: Size)
    requires g.Contains(x, y)
    ensures y * g.w + x < g.w * g.h
  {
    ProductsGrow(y + 1, g.h, g.w);
  }

  lemma ProductsGrow(a: nat, b: nat, c: nat)
    requires a <= b
    ensures a * c <= b * c
  {
    assert b * c == a * c + (b - a) * c;
  }

  function Blank(g: Size): (b: Bitmap)
    ensures |b| == g.Cells()
  {
    seq(g.Cells(), _ => 0)
  }

  /** What one transfer does to a canvas: a posted claim writes its colour plus one. */
  function Apply(b: Bitmap, t: Transfer, g: Size): (r: Bitmap)
    requires |b| == g.Cells()
    ensures |r| == g.Cells()
  {
    match IsPostedClaim(t, g)
    case None => b
    case Some(p) => b[Index(p.x, p.y, g) := p.color % 16 + 1]
  }

  function Fold(b: Bitmap, ts: seq<Transfer>, g: Size): (r: Bitmap)
    requires |b| == g.Cells()
    ensures |r| == g.Cells()
  {
    if ts == [] then b else Apply(Fold(b, ts[..|ts| - 1], g), ts[|ts| - 1], g)
  }

  /** The reference meaning of the ledger: every posted claim stamped before `ns`, over an
      empty canvas. It does not rely on the ledger's order. */
  function CanvasBefore(l: seq<Transfer>, ns: nat, g: Size): (r: Bitmap)
    ensures |r| == g.Cells()
  {
    if l == [] then Blank(g)
    else
      var b := CanvasBefore(l[..|l| - 1], ns, g);
      if l[|l| - 1].timestamp < ns then Apply(b, l[|l| - 1], g) else b
  }

  ghost predicate Ordered(l: seq<Transfer>) {
    forall i, j :: 0 <= i < j < |l| ==> l[i].timestamp < l[j].timestamp
  }

  /** How many transfers are stamped before `ns`. */
  function CountBefore(l: seq<Transfer>, ns: nat): (n: nat)
    ensures n <= |l|
  {
    if l == [] then 0
    else CountBefore(l[..|l| - 1], ns) + if l[|l| - 1].timestamp < ns then 1 else 0
  }

  lemma {:induction false} CountBeforeSplits(l: seq<Transfer>, ns: nat)
    requires Ordered(l)
    ensures var n := CountBefore(l, ns);
            (forall i :: 0 <= i < n ==> l[i].timestamp < ns) && (forall i :: n <= i < |l| ==> l[i].timestamp >= ns)
  {
    if l != [] {
      var init := l[..|l| - 1];
      CountBeforeSplits(init, ns);
      if l[|l| - 1].timestamp < ns {
        CountsAll(init, ns);
      }
    }
  }

  lemma {:induction false} CountsAll(l: seq<Transfer>, ns: nat)
    requires forall i :: 0 <= i < |l| ==> l[i].timestamp < ns
    ensures CountBefore(l, ns) == |l|
  {
    if l != [] {
      CountsAll(l[..|l| - 1], ns);
    }
  }

  lemma {:induction false} CountBeforeZero(l: seq<Transfer>)
    ensures CountBefore(l, 0) == 0
  {
    if l != [] {
      CountBeforeZero(l[..|l| - 1]);
    }
  }

  lemma {:induction false} CountBeforeMonotone(l: seq<Transfer>, from: nat, to: nat)
    requires from <= to
    ensures CountBefore(l, from) <= CountBefore(l, to)
  {
    if l != [] {
      CountBeforeMonotone(l[..|l| - 1], from, to);
    }
  }

  lemma {:induction false} FoldConcat(b: Bitmap, s: seq<Transfer>, t: seq<Transfer>, g: Size)
    requires |b| == g.Cells()
    ensures Fold(b, s + t, g) == Fold(Fold(b, s, g), t, g)
  {
    if t == [] {
      assert s + t == s;
    } else {
      var init := t[..|t| - 1];
      FoldConcat(b, s, init, g);
      assert (s + t)[..|s + t| - 1] == s + init;
    }
  }

  lemma {:induction false} CanvasIsPrefixFold(l: seq<Transfer>, ns: nat, g: Size)
    requires Ordered(l)
    ensures CanvasBefore(l, ns, g) == Fold(Blank(g), l[..CountBefore(l, ns)], g)
  {
    if l != [] {
      var init := l[..|l| - 1];
      CanvasIsPrefixFold(init, ns, g);
      CountBeforeSplits(l, ns);
      CountBeforeSplits(init, ns);
      var n := CountBefore(init, ns);
      if l[|l| - 1].timestamp < ns {
        CountsAll(init, ns);
        assert l[..n + 1] == l && init[..n] == init;
      } else {
        assert l[..n] == init[..n];
      }
    }
  }

  /** Folding the transfers between two instants turns one canvas into the other. */
  lemma FoldBetween(l: seq<Transfer>, from: nat, to: nat, g: Size)
    requires Ordered(l) && from <= to
    ensures CountBefore(l, from) <= CountBefore(l, to)
    ensures Fold(CanvasBefore(l, from, g), l[CountBefore(l, from)..CountBefore(l, to)], g) == CanvasBefore(l, to, g)
  {
    var i, j := CountBefore(l, from), CountBefore(l, to);
    CountBeforeSplits(l, from);
    CountBeforeSplits(l, to);
    CountBeforeMonotone(l, from, to);
    CanvasIsPrefixFold(l, from, g);
    CanvasIsPrefixFold(l, to, g);
    FoldConcat(Blank(g), l[..i], l[i..j], g);
    assert l[..i] + l[i..j] == l[..j];
  }

  /** Only posted claims matter: with none at or after `from`, the canvas no longer changes. */
  lemma {:induction false} QuietAfter(l: seq<Transfer>, from: nat, ns: nat, g: Size)
    requires forall t :: t in l && Paints(t, g) ==> t.timestamp < from
    requires from <= ns
    ensures CanvasBefore(l, ns, g) == Fold(Blank(g), l, g)
  {
    if l != [] {
      var init, t := l[..|l| - 1], l[|l| - 1];
      assert t in l;
      QuietAfter(init, from, ns, g);
    }
  }

  lemma OrderedPrefix(l: seq<Transfer>, n: nat)
    requires Ordered(l) && n <= |l|
    ensures Ordered(l[..n])
  {}

  /** Transfers at or after `ns` do not show in the canvas before it. */
  lemma {:induction false} LaterTransfersInvisible(l: seq<Transfer>, d: seq<Transfer>, ns: nat, g: Size)
    requires forall t :: t in d && Paints(t, g) ==> ns <= t.timestamp
    ensures CanvasBefore(l + d, ns, g) == CanvasBefore(l, ns, g)
  {
    if d == [] {
      assert l + d == l;
    } else {
      var init := d[..|d| - 1];
      LaterTransfersInvisible(l, init, ns, g);
      assert d[|d| - 1] in d;
      assert (l + d)[..|l + d| - 1] == l + init;
    }
  }

  /** The transfer after position `i` of an ordered ledger is the first at or after its successor instant. */
  lemma CountAfter(l: seq<Transfer>, i: nat)
    requires Ordered(l) && i < |l|
    ensures CountBefore(l, l[i].timestamp + 1) == i + 1
  {
    CountBeforeSplits(l, l[i].timestamp + 1);
  }

  lemma CountAt(l: seq<Transfer>, i: nat)
    requires Ordered(l) && i < |l|
    ensures CountBefore(l, l[i].timestamp) == i
  {
    CountBeforeSplits(l, l[i].timestamp);
  }

  /** Passing one transfer of an ordered ledger applies exactly it. */
  lemma CanvasSteps(l: seq<Transfer>, i: nat, g: Size)
    requires Ordered(l) && i < |l|
    ensures CanvasBefore(l, l[i].timestamp + 1, g) == Apply(CanvasBefore(l, l[i].timestamp, g), l[i], g)
  {
    CanvasIsPrefixFold(l, l[i].timestamp + 1, g);
    CanvasIsPrefixFold(l, l[i].timestamp, g);
    CountAfter(l, i);
    CountAt(l, i);
    assert l[..i + 1][..i] == l[..i];
  }

  // ---- What a canvas shows ----

  /** A post leg on the account of cell (x, y), the id 2^64 + x * 2^32 + y, with a claim's code. */
  predicate ClaimsCell(t: Transfer, x: nat, y: nat) {
    t.flags.post && t.debit == 0x1_0000_0000_0000_0000 + x * 0x1_0000_0000 + y && t.code >= 1000
  }

  /** The byte is the colour of the cell's last claim stamped before `ns`, plus one, or 0 if it has none. */
  ghost predicate ShowsCell(v: byte, l: seq<Transfer>, ns: nat, x: nat, y: nat) {
    if exists i :: 0 <= i < |l| && ClaimsBefore(l[i], ns, x, y) then
      exists i :: 0 <= i < |l| && ClaimsBefore(l[i], ns, x, y) && v == (l[i].code - 1000) % 16 + 1
                  && forall j :: i < j < |l| ==> !ClaimsBefore(l[j], ns, x, y)
    else v == 0
  }

  predicate ClaimsBefore(t: Transfer, ns: nat, x: nat, y: nat) {
    ClaimsCell(t, x, y) && t.timestamp < ns
  }

  /** Row by row, every cell shows the colour of its last claim before `ns`. */
  ghost predicate ShowsLedger(b: Bitmap, l: seq<Transfer>, ns: nat, g: Size) {
    && |b| == g.w * g.h
    && forall x: nat, y: nat :: g.Contains(x, y) ==> (RowFits(x, y, g); ShowsCell(b[y * g.w + x], l, ns, x, y))
  }

  lemma IndexInjective(x: nat, y: nat, u: nat, v: nat, g: Size)
    requires g.Contains(x, y) && g.Contains(u, v) && Index(x, y, g) == Index(u, v, g)
    ensures (x, y) == (u, v)
  {
    if y < v {
      ProductsGrow(y + 1, v, g.w);
    } else if v < y {
      ProductsGrow(v + 1, y, g.w);
    }
  }

  /** A post leg paints exactly the cell whose account it debits. */
  lemma PaintsItsCell(t: Transfer, x: nat, y: nat, g: Size)
    requires g.Contains(x, y)
    ensures ClaimsCell(t, x, y) <==> exists p :: IsPostedClaim(t, g) == Some(p) && (p.x, p.y) == (x, y)
    ensures ClaimsCell(t, x, y) ==> IsPostedClaim(t, g).value.color % 16 == (t.code - 1000) % 16
  {
    UnpackIsInverse(t.debit, x, y);
    if Paints(t, g) {
      var p := IsPostedClaim(t, g).value;
      UnpackIsInverse(t.debit, p.x, p.y);
    }
    if ClaimsCell(t, x, y) {
      var p := IsPostedClaim(t, g).value;
      assert IsPostedClaim(t, g) == Some(p);
    }
  }

  /** One transfer more changes what a cell shows only if it claims that cell before `ns`. */
  lemma ShowsOneMore(v: byte, l: seq<Transfer>, t: Transfer, ns: nat, x: nat, y: nat)
    requires ShowsCell(v, l, ns, x, y)
    ensures ShowsCell(if ClaimsBefore(t, ns, x, y) then (t.code - 1000) % 16 + 1 else v, l + [t], ns, x, y)
  {
    hide ClaimsBefore;
    var m := l + [t];
    assert m[|l|] == t && forall i :: 0 <= i < |l| ==> m[i] == l[i];
    if ClaimsBefore(t, ns, x, y) {
      assert ClaimsBefore(m[|l|], ns, x, y);
    } else if exists i :: 0 <= i < |l| && ClaimsBefore(l[i], ns, x, y) {
      var i :| 0 <= i < |l| && ClaimsBefore(l[i], ns, x, y) && v == (l[i].code - 1000) % 16 + 1
               && forall j :: i < j < |l| ==> !ClaimsBefore(l[j], ns, x, y);
      assert ClaimsBefore(m[i], ns, x, y);
    }
  }

  lemma BlankShows(ns: nat, g: Size)
    ensures ShowsLedger(Blank(g), [], ns, g)
  {
    forall x: nat, y: nat | g.Contains(x, y)
      ensures y * g.w + x < g.Cells() && ShowsCell(0, [], ns, x, y)
    {
      RowFits(x, y, g);
    }
  }

  lemma StepShows(init: seq<Transfer>, t: Transfer, ns: nat, g: Size)
    requires ShowsLedger(CanvasBefore(init, ns, g), init, ns, g)
    ensures ShowsLedger(CanvasBefore(init + [t], ns, g), init + [t], ns, g)
  {
    hide ShowsCell, Apply, CanvasBefore;
    forall x: nat, y: nat | g.Contains(x, y)
      ensures y * g.w + x < g.Cells() && ShowsCell(CanvasBefore(init + [t], ns, g)[y * g.w + x], init + [t], ns, x, y)
    {
      RowFits(x, y, g);
      CellShown(init, t, ns, x, y, g);
    }
  }

  lemma CellShown(init: seq<Transfer>, t: Transfer, ns: nat, x: nat, y: nat, g: Size)
    requires g.Contains(x, y) && ShowsCell(CanvasBefore(init, ns, g)[Index(x, y, g)], init, ns, x, y)
    ensures ShowsCell(CanvasBefore(init + [t], ns, g)[Index(x, y, g)], init + [t], ns, x, y)
  {
    hide ShowsCell, IsPostedClaim, ClaimsCell;
    var b := CanvasBefore(init, ns, g);
    ShowsOneMore(b[Index(x, y, g)], init, t, ns, x, y);
    assert (init + [t])[..|init|] == init;
    PaintsItsCell(t, x, y, g);
    if Paints(t, g) {
      var p := IsPostedClaim(t, g).value;
      if Index(p.x, p.y, g) == Index(x, y, g) {
        IndexInjective(p.x, p.y, x, y, g);
      }
    }
  }

  /** Folding the posted claims before an instant shows, at every cell, the last of them for that cell. */
  lemma {:induction false} CanvasShows(l: seq<Transfer>, ns: nat, g: Size)
    ensures ShowsLedger(CanvasBefore(l, ns, g), l, ns, g)
  {
    hide ShowsLedger;
    if l == [] {
      BlankShows(ns, g);
    } else {
      assert l == l[..|l| - 1] + [l[|l| - 1]];
      CanvasShows(l[..|l| - 1], ns, g);
      StepShows(l[..|l| - 1], l[|l| - 1], ns, g);
    }
  }

  /** The whole ledger's bitmap shows it too, from any instant past its last transfer on. */
  lemma BitmapShows(l: seq<Transfer>, ns: nat, g: Size)
    requires forall t :: t in l ==> t.timestamp < ns
    ensures ShowsLedger(Fold(Blank(g), l, g), l, ns, g)
  {
    QuietAfter(l, ns, ns, g);
    CanvasShows(l, ns, g);
  }
}
