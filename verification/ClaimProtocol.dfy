/** Whole runs of the claim protocol: every server, bot and timeout, in any order. */
module ClaimProtocol {
  import opened Bytes
  import opened Canvas
  import opened TigerBeetle
  import opened Claims
  import ChangeStream

  /** What anyone can do to the ledger: provision, fund, claim, confirm, void; and time out a claim. */
  datatype Action =
    | EnsureAccounts(cells: seq<(u32, u32)>)
    | Fund(x: u32, y: u32)
    | Claim(id: nat, x: u32, y: u32, color: byte, player: nat)
    | Confirm(claim: nat, x: u32, y: u32, postId: nat, refundId: nat)
    | Void(claim: nat, legId: nat)
    | Timeout(claim: nat)

  function Ensure(db: Db, cells: seq<(u32, u32)>): Db {
    if cells == [] then db
    else CreateAccount(Ensure(db, cells[..|cells| - 1]), PixelID(cells[|cells| - 1].0, cells[|cells| - 1].1), true).0
  }

  function Do(db: Db, a: Action, at: nat): Db {
    match a
    case EnsureAccounts(cells) => Ensure(CreateAccount(db, SYSTEM_POOL, false).0, cells)
    case Fund(x, y) => CreateTransfers(db, [FundTransfer(x, y)], at).0
    case Claim(id, x, y, color, player) => CreateTransfers(db, [NewClaim(id, x, y, color, player)], at).0
    case Confirm(claim, x, y, postId, refundId) => CreateTransfers(db, BuildConfirm(postId, refundId, claim, x, y), at).0
    case Void(claim, legId) => CreateTransfers(db, [BuildVoid(legId, claim)], at).0
    case Timeout(claim) => Expire(db, claim)
  }

  /** Identifiers are fresh UUIDs, and a confirm names its claim's own pixel. */
  ghost predicate Legit(db: Db, a: Action) {
    match a
    case EnsureAccounts(_) => true
    case Fund(_, _) => true
    case Claim(id, _, _, _, _) => Fresh(db, id)
    case Confirm(claim, x, y, postId, refundId) =>
      && Fresh(db, postId) && Fresh(db, refundId) && postId != refundId
      && (claim in db.transfers ==> db.transfers[claim].debit == PixelID(x, y))
    case Void(_, legId) => Fresh(db, legId)
    case Timeout(_) => true
  }

  lemma CreateAlone(db: Db, t: Transfer, at: nat)
    requires !t.flags.linked
    ensures var (r, st) := Create(db, t, at);
            CreateTransfers(db, [t], at) == (r, [st]) && Chain(db, [t], at) == (r, [st])
  {
    var (r, st) := Create(db, t, at);
    CreateRejects(db, t, at);
    var ts := [t];
    assert ts[..1] == ts && ts[1..] == [];
    assert RunChain(r, ts[1..], at) == (r, []);
    assert [st] + seq(0, _ => LinkedEventFailed) == [st];
    assert RunChain(db, ts, at) == (r, [st]);
    assert seq(1, i requires 0 <= i < 1 => if [st][i] == Created then LinkedEventFailed else [st][i])
           == [if st == Created then LinkedEventFailed else st];
    assert Chain(db, ts, at) == (r, [st]);
    assert [st] + [] == [st];
  }

  lemma CreateRejects(db: Db, t: Transfer, at: nat)
    ensures Create(db, t, at).1 != Created ==> Create(db, t, at).0 == db
  {}

  /** A confirm is all or nothing. */
  lemma ConfirmChain(db: Db, postId: nat, refundId: nat, claim: nat, x: u32, y: u32, at: nat)
    ensures var ts := BuildConfirm(postId, refundId, claim, x, y);
            var (mid, st1) := Create(db, ts[0], at);
            var (end, st2) := Create(mid, ts[1], at);
            var (r, sts) := CreateTransfers(db, ts, at);
            && |sts| == 2
            && (if st1 != Created then r == db && sts[0] == st1 && sts[1] == LinkedEventFailed
                else if st2 != Created then r == db && sts[0] == LinkedEventFailed && sts[1] == st2
                else r == end && sts[0] == Created && sts[1] == Created)
  {
    var ts := BuildConfirm(postId, refundId, claim, x, y);
    var (mid, st1) := Create(db, ts[0], at);
    var (end, st2) := Create(mid, ts[1], at);
    assert ts[1..] == [ts[1]] && ts[1..][1..] == [] && ts[..2] == ts && ts[2..] == [];
    assert ChainLength(ts[1..]) == 1;
    assert RunChain(end, [], at) == (end, []);
    assert RunChain(mid, ts[1..], at).1[0] == st2;
    assert st1 == Created ==> RunChain(db, ts, at).1[1] == st2;
    assert RunChain(db, ts, at).1[0] == st1;
    assert st2 == Created ==> RunChain(mid, ts[1..], at).0 == end;
    assert CreateTransfers(Chain(db, ts, at).0, [], at) == (Chain(db, ts, at).0, []);
  }

  // ---- Provisioning ----

  /** A pixel without an account has no history. */
  lemma NoAccountNoHistory(db: Db, p: nat)
    requires TransfersSound(db) && LogSound(db) && IsPixel(p) && p !in db.accounts
    ensures PostedLegs(db.log, p) == 0 && FundOf(p) !in db.transfers && forall id :: !HoldsPixel(db, id, p)
  {
    forall i | 0 <= i < |db.log| && db.log[i].flags.post ensures db.log[i].debit != p {
      var t := db.log[i];
      assert KnownShape(db, db.transfers[t.id]);
    }
    NoLegs(db.log, p);
    if FundOf(p) in db.transfers {
      FundHasAccount(db, p);
    }
  }

  lemma FundHasAccount(db: Db, p: nat)
    requires TransfersSound(db) && IsPixel(p) && FundOf(p) in db.transfers
    ensures p in db.accounts
  {
    var (x, y) := UnpackPixelID(p).value;
    UnpackIsInverse(p, x, y);
    assert IsFund(db.transfers[FundOf(p)], p);
  }

  lemma AccountKeeps(db: Db, id: nat)
    requires Sound(db) && (id == SYSTEM_POOL || IsPixel(id))
    ensures Sound(CreateAccount(db, id, id != SYSTEM_POOL).0)
    ensures id in CreateAccount(db, id, id != SYSTEM_POOL).0.accounts
  {
    hide PostedLegs, Ordered;
    var r := CreateAccount(db, id, id != SYSTEM_POOL).0;
    if id !in db.accounts {
      assert TransfersSound(r);
      forall p | IsPixel(p) ensures PixelSound(r, p, 0) {
        assert PixelSound(db, p, 0);
        assert forall i :: HoldsPixel(db, i, p) <==> HoldsPixel(r, i, p);
        if p != id {
          SamePixelSound(db, r, p, 0, 0);
        } else {
          NoAccountNoHistory(db, p);
        }
      }
    }
  }

  lemma {:induction false} EnsureKeeps(db: Db, cells: seq<(u32, u32)>)
    requires Sound(db)
    ensures Sound(Ensure(db, cells))
  {
    if cells != [] {
      var (x, y) := cells[|cells| - 1];
      EnsureKeeps(db, cells[..|cells| - 1]);
      UnpackIsInverse(PixelID(x, y), x, y);
      AccountKeeps(Ensure(db, cells[..|cells| - 1]), PixelID(x, y));
    }
  }

  // ---- One action, and whole runs ----

  /** Funding a pixel twice is funding it once. */
  lemma FundKeeps(db: Db, x: u32, y: u32, at: nat)
    requires Sound(db)
    ensures var (r, st) := Create(db, FundTransfer(x, y), at);
            && Sound(r)
            && (FundID(x, y) in db.transfers ==> r == db && st == Exists)
            && (FundID(x, y) !in db.transfers ==>
                  (st == Created <==> SYSTEM_POOL in db.accounts && PixelID(x, y) in db.accounts)
                  && (st == Created ==> r.transfers.Keys == db.transfers.Keys + {FundID(x, y)})
                  && (st != Created ==> r == db))
  {
    var t := FundTransfer(x, y);
    var p := PixelID(x, y);
    UnpackIsInverse(p, x, y);
    FundIdsApart(x, y);
    if t.id in db.transfers {
      assert IsFund(db.transfers[FundOf(p)], p);
    } else {
      UnitKeeps(db, t, at, 0);
    }
  }

  lemma ConfirmKeeps(db: Db, claim: nat, x: u32, y: u32, postId: nat, refundId: nat, at: nat)
    requires Sound(db) && Legit(db, Confirm(claim, x, y, postId, refundId))
    ensures var (r, sts) := CreateTransfers(db, BuildConfirm(postId, refundId, claim, x, y), at);
            && Sound(r) && |sts| == 2
            && (if claim in db.transfers && HoldsPixel(db, claim, PixelID(x, y)) then sts[0] == sts[1] == Created
                else r == db && sts[0] != Created && sts[1] != Created)
  {
    var ts := BuildConfirm(postId, refundId, claim, x, y);
    ConfirmChain(db, postId, refundId, claim, x, y, at);
    hide Create, CreateTransfers;
    UnpackIsInverse(PixelID(x, y), x, y);
    var (mid, st1) := Create(db, ts[0], at);
    LegKeeps(db, ts[0], at);
    PostsOpen(db, ts[0], at);
    if st1 == Created {
      UnitKeeps(mid, ts[1], at, PixelID(x, y));
    }
  }

  lemma PostsOpen(db: Db, t: Transfer, at: nat)
    requires Sound(db) && t.id !in db.transfers && t.flags.post
    ensures Create(db, t, at).1 == Created
            <==> t.pendingId in db.transfers && HoldsPixel(db, t.pendingId, db.transfers[t.pendingId].debit)
  {}

  /** Every legitimate action, whether it succeeds or not, keeps the ledger sound. */
  lemma DoKeeps(db: Db, a: Action, at: nat)
    requires Sound(db) && Legit(db, a)
    ensures Sound(Do(db, a, at))
  {
    hide Create, CreateTransfers, Expire, AccountsSound, TransfersSound, LogSound, PixelSound;
    match a
    case EnsureAccounts(cells) =>
      AccountKeeps(db, SYSTEM_POOL);
      EnsureKeeps(CreateAccount(db, SYSTEM_POOL, false).0, cells);
    case Fund(x, y) =>
      CreateAlone(db, FundTransfer(x, y), at);
      FundKeeps(db, x, y, at);
    case Claim(id, x, y, color, player) =>
      CreateAlone(db, NewClaim(id, x, y, color, player), at);
      ClaimKeeps(db, id, x, y, color, player, at);
    case Confirm(claim, x, y, postId, refundId) =>
      ConfirmKeeps(db, claim, x, y, postId, refundId, at);
    case Void(claim, legId) =>
      CreateAlone(db, BuildVoid(legId, claim), at);
      LegKeeps(db, BuildVoid(legId, claim), at);
    case Timeout(claim) =>
      ExpireKeeps(db, claim);
  }

  /** The states a sequence of timed actions passes through. */
  function Run(db: Db, run: seq<(Action, nat)>): Db {
    if run == [] then db else Do(Run(db, run[..|run| - 1]), run[|run| - 1].0, run[|run| - 1].1)
  }

  ghost predicate LegitRun(db: Db, run: seq<(Action, nat)>) {
    run != [] ==> LegitRun(db, run[..|run| - 1]) && Legit(Run(db, run[..|run| - 1]), run[|run| - 1].0)
  }

  /** From an empty ledger, whatever is done in whatever order, the ledger stays sound. */
  lemma {:induction false} RunsSound(run: seq<(Action, nat)>)
    requires LegitRun(EMPTY_DB, run)
    ensures Sound(Run(EMPTY_DB, run))
  {
    if run == [] {
      EmptySound();
    } else {
      var before := Run(EMPTY_DB, run[..|run| - 1]);
      RunsSound(run[..|run| - 1]);
      DoKeeps(before, run[|run| - 1].0, run[|run| - 1].1);
    }
  }

  // ---- What soundness means to a player ----

  /** A funded pixel always has exactly one unit more posted in than out, which is either spendable
      or held by one unresolved claim; its debits count its repaints. */
  lemma UnitConserved(db: Db, x: u32, y: u32)
    requires Sound(db) && FundID(x, y) in db.transfers
    ensures var p := PixelID(x, y);
            && p in db.accounts
            && var a := db.accounts[p];
               && a.creditsPosted == a.debitsPosted + 1
               && a.debitsPosted == PostedLegs(db.log, p)
               && a.debitsPending in {0, 1}
               && (a.debitsPending == 1 <==> exists id :: HoldsPixel(db, id, p))
               && (forall i, j :: HoldsPixel(db, i, p) && HoldsPixel(db, j, p) ==> i == j)
  {
    var p := PixelID(x, y);
    UnpackIsInverse(p, x, y);
    FundIdsApart(x, y);
    FundHasAccount(db, p);
    assert PixelSound(db, p, 0);
  }

  /** A fresh claim wins exactly when its pixel is funded and nobody holds it; the ledger alone decides. */
  lemma ClaimWinsIff(db: Db, id: nat, x: u32, y: u32, color: byte, player: nat, at: nat)
    requires Sound(db) && Fresh(db, id) && SYSTEM_POOL in db.accounts && PixelID(x, y) in db.accounts
    ensures Create(db, NewClaim(id, x, y, color, player), at).1
            == if FundID(x, y) in db.transfers && forall i :: !HoldsPixel(db, i, PixelID(x, y)) then Created else ExceedsCredits
  {
    var p := PixelID(x, y);
    UnpackIsInverse(p, x, y);
    FundIdsApart(x, y);
    assert PixelSound(db, p, 0);
    var a := db.accounts[p];
    assert a.debitsPending == 0 <==> forall i :: !HoldsPixel(db, i, p);
  }

  /** Naming another pixel in a confirm breaks the ledger: the hypothesis is needed. */
  lemma ForeignConfirmBreaks(db: Db, claim: nat, x: u32, y: u32, postId: nat, refundId: nat, at: nat)
    requires Sound(db) && Fresh(db, postId) && Fresh(db, refundId) && postId != refundId
    requires claim in db.transfers && HoldsPixel(db, claim, db.transfers[claim].debit) && PixelID(x, y) in db.accounts
    ensures Sound(CreateTransfers(db, BuildConfirm(postId, refundId, claim, x, y), at).0)
            <==> db.transfers[claim].debit == PixelID(x, y)
  {
    var p, q := db.transfers[claim].debit, PixelID(x, y);
    UnpackIsInverse(q, x, y);
    if p == q {
      ConfirmKeeps(db, claim, x, y, postId, refundId, at);
    } else {
      ForeignConfirmOwes(db, claim, x, y, postId, refundId, at);
    }
  }

  lemma ForeignConfirmOwes(db: Db, claim: nat, x: u32, y: u32, postId: nat, refundId: nat, at: nat)
    requires Sound(db) && Fresh(db, postId) && Fresh(db, refundId) && postId != refundId
    requires claim in db.transfers && HoldsPixel(db, claim, db.transfers[claim].debit) && PixelID(x, y) in db.accounts
    requires db.transfers[claim].debit != PixelID(x, y)
    ensures !Sound(CreateTransfers(db, BuildConfirm(postId, refundId, claim, x, y), at).0)
  {
    var ts := BuildConfirm(postId, refundId, claim, x, y);
    var p, q := db.transfers[claim].debit, PixelID(x, y);
    UnpackIsInverse(q, x, y);
    ConfirmChain(db, postId, refundId, claim, x, y, at);
    hide Create, CreateTransfers, Ordered, PostedLegs;
    var (mid, st1) := Create(db, ts[0], at);
    var (end, st2) := Create(mid, ts[1], at);
    LegKeeps(db, ts[0], at);
    PostsOpen(db, ts[0], at);
    ResolveEffect(db, ts[0], at);
    CreatePlainEffect(mid, ts[1], at);
    assert PixelSound(mid, q, p);
    FreshIsNoFund(refundId, q);
    LegsAppend(mid.log, ts[1].(timestamp := Stamp(mid, at)), q);
    if st2 == Created {
      assert !PixelSound(end, q, 0);
    }
  }

  /** The history of any sound ledger is one the change stream and the caches may rely on. */
  lemma SoundIsCanvasLedger(db: Db)
    requires Sound(db)
    ensures ChangeStream.CanvasLedger(db.log)
  {
    forall i | 0 <= i < |db.log| && db.log[i].flags.post ensures ChangeStream.IsClaimLeg(db.log[i]) {
      assert KnownShape(db, db.transfers[db.log[i].id]);
    }
  }
}
