/** The ledger client: batched provisioning, and submission with its error mapping. */
module Clients {
  import opened Bytes
  import opened Canvas
  import opened TigerBeetle
  import opened Claims
  import opened ClaimProtocol

  const BATCH_SIZE := 8189

  datatype Outcome = Success | ErrPixelLocked | ErrClaimExpired | ErrOther(status: Status)

  predicate IdempotentSuccess(st: Status) {
    st == Created || st == Exists || st == AlreadyPosted || st == AlreadyVoided
  }

  /** The first status that is no idempotent success decides. */
  function OutcomeOf(sts: seq<Status>): Outcome {
    if sts == [] then Success
    else if IdempotentSuccess(sts[0]) then OutcomeOf(sts[1..])
    else if sts[0] == ExceedsCredits then ErrPixelLocked
    else if sts[0] == PendingExpired then ErrClaimExpired
    else ErrOther(sts[0])
  }

  type Cell = (u32, u32)

  /** The first `n` cells of a grid of width `w`, row by row. */
  function Cells(w: nat, n: nat): (cs: seq<Cell>)
    requires w <= U32 && n <= U32 && (n > 0 ==> w > 0)
    ensures |cs| == n
  {
    seq(n, i requires 0 <= i < n => CellAt(w, i))
  }

  function CellAt(w: nat, i: nat): Cell
    requires 0 < w <= U32 && i < U32
  {
    (i % w, i / w)
  }

  function Funds(cs: seq<Cell>): seq<Transfer> {
    seq(|cs|, i requires 0 <= i < |cs| => FundTransfer(cs[i].0, cs[i].1))
  }

  function FundCells(db: Db, cs: seq<Cell>, at: nat): Db
    decreases |cs|
  {
    if cs == [] then db else FundCells(Create(db, FundTransfer(cs[0].0, cs[0].1), at).0, cs[1..], at)
  }

  /** A cell ready to be claimed: its account exists and its unit has been put in. */
  predicate Provisioned(db: Db, c: Cell) {
    PixelID(c.0, c.1) in db.accounts && FundID(c.0, c.1) in db.transfers
  }

  // ---- What batches do ----

  lemma {:induction false} EnsureConcat(db: Db, a: seq<Cell>, b: seq<Cell>)
    ensures Ensure(Ensure(db, a), b) == Ensure(db, a + b)
  {
    if b == [] {
      assert a + b == a;
    } else {
      EnsureConcat(db, a, b[..|b| - 1]);
      assert (a + b)[..|a + b| - 1] == a + b[..|b| - 1];
    }
  }

  lemma {:induction false} EnsureCreates(db: Db, cs: seq<Cell>)
    requires Sound(db)
    ensures var r := Ensure(db, cs);
            && Sound(r) && r.transfers == db.transfers && r.log == db.log && r.fate == db.fate && r.clock == db.clock
            && (forall id :: id in db.accounts ==> id in r.accounts && r.accounts[id] == db.accounts[id])
            && (forall i :: 0 <= i < |cs| ==> PixelID(cs[i].0, cs[i].1) in r.accounts)
            && ((forall i :: 0 <= i < |cs| ==> PixelID(cs[i].0, cs[i].1) in db.accounts) ==> r == db)
  {
    hide Sound;
    EnsureKeeps(db, cs);
    if cs != [] {
      EnsureCreates(db, cs[..|cs| - 1]);
      assert forall i :: 0 <= i < |cs| - 1 ==> cs[..|cs| - 1][i] == cs[i];
    }
  }

  /** Funding a list of cells, one after the other: each ends up with exactly one unit put in. */
  lemma {:induction false} FundCellsKeeps(db: Db, cs: seq<Cell>, at: nat)
    requires Sound(db) && SYSTEM_POOL in db.accounts
    requires forall i :: 0 <= i < |cs| ==> PixelID(cs[i].0, cs[i].1) in db.accounts
    ensures var r := FundCells(db, cs, at);
            && Sound(r) && r.accounts.Keys == db.accounts.Keys && db.transfers.Keys <= r.transfers.Keys
            && (forall i :: 0 <= i < |cs| ==> Provisioned(r, cs[i]))
            && ((forall i :: 0 <= i < |cs| ==> Provisioned(db, cs[i])) ==> r == db)
    decreases |cs|
  {
    hide Sound, Create;
    if cs != [] {
      var (x, y) := cs[0];
      FundKeeps(db, x, y, at);
      FundKeepsKeys(db, x, y, at);
      var (next, st) := Create(db, FundTransfer(x, y), at);
      var rest := cs[1..];
      assert forall i :: 0 <= i < |rest| ==> rest[i] == cs[i + 1];
      FundCellsKeeps(next, rest, at);
      assert forall i :: 0 < i < |cs| ==> cs[i] == rest[i - 1];
    }
  }

  lemma FundKeepsKeys(db: Db, x: u32, y: u32, at: nat)
    ensures var r := Create(db, FundTransfer(x, y), at).0;
            r.accounts.Keys == db.accounts.Keys && db.transfers.Keys <= r.transfers.Keys
  {}

  /** A batch of funding transfers is the transfers one by one, and all of them succeed. */
  lemma {:induction false} FundBatch(db: Db, cs: seq<Cell>, at: nat)
    requires Sound(db) && SYSTEM_POOL in db.accounts
    requires forall i :: 0 <= i < |cs| ==> PixelID(cs[i].0, cs[i].1) in db.accounts
    ensures var (r, sts) := CreateTransfers(db, Funds(cs), at);
            r == FundCells(db, cs, at) && forall i :: 0 <= i < |sts| ==> sts[i] == Created || sts[i] == Exists
    decreases |cs|
  {
    hide Sound, Create;
    if cs != [] {
      var (x, y) := cs[0];
      var t := FundTransfer(x, y);
      FundKeeps(db, x, y, at);
      FundKeepsKeys(db, x, y, at);
      var (next, st) := Create(db, t, at);
      var rest := cs[1..];
      assert forall i :: 0 <= i < |rest| ==> rest[i] == cs[i + 1];
      FundBatch(next, rest, at);
      UnlinkedFirst(db, t, Funds(rest), at);
      assert Funds(cs) == [t] + Funds(rest);
    }
  }

  lemma UnlinkedFirst(db: Db, t: Transfer, rest: seq<Transfer>, at: nat)
    requires !t.flags.linked
    ensures var (next, st) := Create(db, t, at);
            var (last, sts) := CreateTransfers(next, rest, at);
            CreateTransfers(db, [t] + rest, at) == (last, [st] + sts)
  {
    hide Create;
    CreateAlone(db, t, at);
    var ts := [t] + rest;
    assert ts[..1] == [t] && ts[1..] == rest && [t][..1] == [t] && [t][1..] == [];
  }

  lemma {:induction false} FundCellsConcat(db: Db, a: seq<Cell>, b: seq<Cell>, at: nat)
    ensures FundCells(FundCells(db, a, at), b, at) == FundCells(db, a + b, at)
    decreases |a|
  {
    hide Create;
    if a == [] {
      assert a + b == b;
    } else {
      FundCellsConcat(Create(db, FundTransfer(a[0].0, a[0].1), at).0, a[1..], b, at);
      assert (a + b)[1..] == a[1..] + b;
    }
  }

  class Client {
    var db: Db

    constructor ()
      ensures db == EMPTY_DB
    {
      db := EMPTY_DB;
    }

    method SubmitBatch(ts: seq<Transfer>, at: nat) returns (err: Outcome)
      modifies this
      ensures (db, err) == (CreateTransfers(old(db), ts, at).0, OutcomeOf(CreateTransfers(old(db), ts, at).1))
    {
      var (next, results) := CreateTransfers(db, ts, at);
      db := next;
      for i := 0 to |results|
        invariant OutcomeOf(results) == OutcomeOf(results[i..])
      {
        var st := results[i];
        assert results[i..][0] == st && results[i..][1..] == results[i + 1..];
        match st
        case Created | Exists | AlreadyPosted | AlreadyVoided =>
        case ExceedsCredits => return ErrPixelLocked;
        case PendingExpired => return ErrClaimExpired;
        case _ => return ErrOther(st);
      }
      return Success;
    }

    method Submit(t: Transfer, at: nat) returns (err: Outcome)
      requires !t.flags.linked
      modifies this
      ensures var (r, st) := Create(old(db), t, at); db == r && err == OutcomeOf([st])
    {
      CreateAlone(db, t, at);
      err := SubmitBatch([t], at);
    }

    /** Creates accounts for a buffer of cells, after the pool if asked. */
    method CreateAccounts(includeSystemPool: bool, cs: seq<Cell>) returns (ok: bool)
      requires Sound(db)
      modifies this
      ensures ok && Sound(db)
      ensures db == Ensure(if includeSystemPool then CreateAccount(old(db), SYSTEM_POOL, false).0 else old(db), cs)
    {
      hide Sound;
      if includeSystemPool {
        AccountKeeps(db, SYSTEM_POOL);
        SoundFlags(db);
        var (next, st) := CreateAccount(db, SYSTEM_POOL, false);
        db := next;
        if st == AccountDiffers {
          return false;
        }
      }
      ghost var start := db;
      assert cs[..0] == [];
      for i := 0 to |cs|
        invariant Sound(db) && db == Ensure(start, cs[..i])
      {
        assert cs[..i + 1][..i] == cs[..i];
        UnpackIsInverse(PixelID(cs[i].0, cs[i].1), cs[i].0, cs[i].1);
        AccountKeeps(db, PixelID(cs[i].0, cs[i].1));
        SoundFlags(db);
        var (next, st) := CreateAccount(db, PixelID(cs[i].0, cs[i].1), true);
        db := next;
        if st == AccountDiffers {
          return false;
        }
      }
      assert cs[..|cs|] == cs;
      return true;
    }

    /** Provisions every cell of a grid in batches. Run again, it changes nothing. */
    method EnsureAllPixels(w: u32, h: u32, at: nat) returns (ok: bool)
      requires Sound(db) && w * h <= U32
      modifies this
      ensures ok && Sound(db) && SYSTEM_POOL in db.accounts
      ensures forall x: u32, y: u32 :: x < w && y < h ==> Provisioned(db, (x, y))
      ensures SYSTEM_POOL in old(db).accounts && (forall i :: 0 <= i < w * h ==> Provisioned(old(db), CellAt(w, i)))
              ==> db == old(db)
    {
      hide Sound, Create, Ensure, FundCells;
      AccountKeeps(db, SYSTEM_POOL);
      ok := CreateAccounts(true, []);
      if !ok {
        return;
      }
      EnsureNothing(CreateAccount(old(db), SYSTEM_POOL, false).0);
      ok := AccountAll(w, w * h);
      if !ok {
        return;
      }
      ok := FundAll(w, w * h, at);
      CellsCover(w, h);
    }

    /** The account half, over a reused buffer. */
    method AccountAll(w: nat, n: nat) returns (ok: bool)
      requires Sound(db) && w <= U32 && n <= U32 && (n > 0 ==> w > 0)
      modifies this
      ensures ok && Sound(db) && db.transfers == old(db).transfers
      ensures forall id :: id in old(db).accounts ==> id in db.accounts
      ensures forall i :: 0 <= i < n ==> PixelID(CellAt(w, i).0, CellAt(w, i).1) in db.accounts
      ensures (forall i :: 0 <= i < n ==> PixelID(CellAt(w, i).0, CellAt(w, i).1) in old(db).accounts) ==> db == old(db)
    {
      hide Sound, Ensure;
      ghost var start := db;
      ghost var all := Cells(w, n);
      var ids: seq<Cell> := [];
      ghost var flushed: nat := 0;
      assert all[..0] == [];
      EnsureNothing(start);
      for i := 0 to n
        invariant Sound(db) && flushed <= i && db == Ensure(start, all[..flushed]) && ids == all[flushed..i] && |ids| < 8189
      {
        ids := ids + [CellAt(w, i)];
        assert ids == all[flushed..i + 1];
        if |ids| == BATCH_SIZE {
          EnsureConcat(start, all[..flushed], ids);
          assert all[..flushed] + ids == all[..i + 1];
          ok := CreateAccounts(false, ids);
          if !ok {
            return;
          }
          ids, flushed := [], i + 1;
        }
      }
      EnsureConcat(start, all[..flushed], ids);
      EnsureNothing(db);
      assert all[..flushed] + ids == all;
      if |ids| > 0 {
        ok := CreateAccounts(false, ids);
        if !ok {
          return;
        }
      }
      EnsureCreates(start, all);
      assert forall i :: 0 <= i < n ==> all[i] == CellAt(w, i);
      ok := true;
    }

    /** The funding half, over its own reused buffer. */
    method FundAll(w: nat, n: nat, at: nat) returns (ok: bool)
      requires Sound(db) && w <= U32 && n <= U32 && (n > 0 ==> w > 0) && SYSTEM_POOL in db.accounts
      requires forall i :: 0 <= i < n ==> PixelID(CellAt(w, i).0, CellAt(w, i).1) in db.accounts
      modifies this
      ensures ok && Sound(db) && db.accounts.Keys == old(db).accounts.Keys
      ensures forall i :: 0 <= i < n ==> Provisioned(db, CellAt(w, i))
      ensures (forall i :: 0 <= i < n ==> Provisioned(old(db), CellAt(w, i))) ==> db == old(db)
    {
      hide Sound, Create, CreateTransfers, FundCells, Provisioned;
      ghost var start := db;
      ghost var all := Cells(w, n);
      var cells: seq<Cell> := [];
      var transfers: seq<Transfer> := [];
      ghost var flushed: nat := 0;
      assert all[..0] == [];
      FundNothing(start, at);
      for i := 0 to n
        invariant flushed <= i && db == FundCells(start, all[..flushed], at)
        invariant Sound(db) && db.accounts.Keys == start.accounts.Keys
        invariant cells == all[flushed..i] && transfers == Funds(cells) && |cells| < 8189
      {
        var c := CellAt(w, i);
        cells := cells + [c];
        assert cells == all[flushed..i + 1];
        transfers := transfers + [FundTransfer(c.0, c.1)];
        assert transfers == Funds(cells);
        if |transfers| == BATCH_SIZE {
          FundCellsConcat(start, all[..flushed], cells, at);
          assert all[..flushed] + cells == all[..i + 1];
          FundCellsKeeps(start, all[..i + 1], at);
          ok := SubmitFundBatch(cells, transfers, at);
          if !ok {
            return;
          }
          cells, transfers, flushed := [], [], i + 1;
        }
      }
      FundCellsConcat(start, all[..flushed], cells, at);
      assert all[..flushed] + cells == all;
      GridFunded(start, w, n, at);
      FundNothing(db, at);
      ok := true;
      if |transfers| > 0 {
        ok := SubmitFundBatch(cells, transfers, at);
      }
    }

    /** One request of funding transfers, which the ledger takes up to 8190 of. */
    method SubmitFundBatch(ghost cells: seq<Cell>, transfers: seq<Transfer>, at: nat) returns (ok: bool)
      requires Sound(db) && SYSTEM_POOL in db.accounts && transfers == Funds(cells) && |transfers| < 8190
      requires forall i :: 0 <= i < |cells| ==> PixelID(cells[i].0, cells[i].1) in db.accounts
      modifies this
      ensures ok && db == FundCells(old(db), cells, at)
    {
      hide Sound;
      FundBatch(db, cells, at);
      var (next, results) := CreateTransfers(db, transfers, at);
      db := next;
      for i := 0 to |results| {
        if results[i] != Created && results[i] != Exists {
          return false;
        }
      }
      return true;
    }
  }

  lemma FundNothing(db: Db, at: nat)
    ensures FundCells(db, [], at) == db
  {}

  lemma GridFunded(db: Db, w: nat, n: nat, at: nat)
    requires Sound(db) && w <= U32 && n <= U32 && (n > 0 ==> w > 0) && SYSTEM_POOL in db.accounts
    requires forall i :: 0 <= i < n ==> PixelID(CellAt(w, i).0, CellAt(w, i).1) in db.accounts
    ensures var r := FundCells(db, Cells(w, n), at);
            && Sound(r) && r.accounts.Keys == db.accounts.Keys
            && (forall i :: 0 <= i < n ==> Provisioned(r, CellAt(w, i)))
            && ((forall i :: 0 <= i < n ==> Provisioned(db, CellAt(w, i))) ==> r == db)
  {
    hide Sound;
    var all := Cells(w, n);
    assert forall i :: 0 <= i < n ==> all[i] == CellAt(w, i);
    FundCellsKeeps(db, all, at);
  }

  lemma EnsureNothing(db: Db)
    ensures Ensure(db, []) == db
  {}

  lemma SoundFlags(db: Db)
    requires Sound(db)
    ensures SYSTEM_POOL in db.accounts ==> !db.accounts[SYSTEM_POOL].capped
    ensures forall p :: IsPixel(p) && p in db.accounts ==> db.accounts[p].capped
  {
    forall p | IsPixel(p) && p in db.accounts ensures db.accounts[p].capped {
      PixelCapped(db, p);
    }
  }

  ghost predicate Reached(w: nat, n: nat, c: Cell)
    requires w <= U32 && n <= U32 && (n > 0 ==> w > 0)
  {
    exists i :: 0 <= i < n && CellAt(w, i) == c
  }

  /** Row-major numbering reaches every cell of the grid. */
  lemma CellsCover(w: u32, h: u32)
    requires w * h <= U32
    ensures forall x: u32, y: u32 :: x < w && y < h ==> Reached(w, w * h, (x, y))
  {
    forall x: u32, y: u32 | x < w && y < h ensures Reached(w, w * h, (x, y)) {
      RowFits(x, y, Size(w, h));
      DivideRow(x, y, w);
      assert CellAt(w, y * w + x) == (x, y);
    }
  }

  lemma DivideRow(x: nat, y: nat, w: nat)
    requires x < w
    ensures (y * w + x) / w == y && (y * w + x) % w == x
  {
    var i := y * w + x;
    assert i == i / w * w + i % w;
    if i / w < y {
      ProductsGrow(i / w + 1, y, w);
    } else if i / w > y {
      ProductsGrow(y + 1, i / w, w);
    }
  }
}
