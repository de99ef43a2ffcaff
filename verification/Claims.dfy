/** How claims are written into the ledger, and what every interleaving of them keeps. */
module Claims {
  import opened Bytes
  import opened Canvas
  import opened TigerBeetle

  const LEDGER_CANVAS := 1
  const REFUND_CODE := 1001
  const MAX_COLOR := 15
  const CLAIM_TIMEOUT_SECONDS := 3
  const SYSTEM_POOL := 1
  const FUND_MARKER := 0xF00D

  const PLAIN := Flags(false, false, false, false)

  function FundID(x: u32, y: u32): nat {
    FUND_MARKER * U64 + x * U32 + y
  }

  function FundTransfer(x: u32, y: u32): Transfer {
    Transfer(FundID(x, y), SYSTEM_POOL, PixelID(x, y), 1, 0, 0, REFUND_CODE, 0, LEDGER_CANVAS, PLAIN, 0)
  }

  function NewClaim(id: nat, x: u32, y: u32, color: byte, player: nat): Transfer {
    var c := if color > MAX_COLOR then MAX_COLOR else color;
    Transfer(id, PixelID(x, y), SYSTEM_POOL, 1, 0, player, CLAIM_CODE + c, CLAIM_TIMEOUT_SECONDS, LEDGER_CANVAS,
             PLAIN.(pending := true), 0)
  }

  function BuildVoid(id: nat, claim: nat): Transfer {
    Transfer(id, 0, 0, 0, claim, 0, 0, 0, 0, PLAIN.(void := true), 0)
  }

  function BuildConfirm(postId: nat, refundId: nat, claim: nat, x: u32, y: u32): seq<Transfer> {
    [Transfer(postId, 0, 0, 0, claim, 0, 0, 0, 0, PLAIN.(post := true, linked := true), 0),
     Transfer(refundId, SYSTEM_POOL, PixelID(x, y), 1, 0, 0, REFUND_CODE, 0, LEDGER_CANVAS, PLAIN, 0)]
  }

  predicate IsPixel(id: nat) {
    UnpackPixelID(id).Some?
  }

  function FundOf(p: nat): nat
    requires IsPixel(p)
  {
    FundID(UnpackPixelID(p).value.0, UnpackPixelID(p).value.1)
  }

  /** The variant bits every UUID carries in its ninth byte, the lowest of the high word. */
  predicate IsUuid(id: nat) {
    128 <= id / U64 % 256 < 192
  }

  lemma FundIdsApart(x: u32, y: u32)
    ensures FundID(x, y) / U64 == FUND_MARKER && !IsUuid(FundID(x, y))
    ensures FundOf(PixelID(x, y)) == FundID(x, y)
  {
    UnpackIsInverse(PixelID(x, y), x, y);
    var lo := x * U32 + y;
    assert 0 <= lo < U64;
  }

  lemma FundOfInjective(p: nat, q: nat)
    requires IsPixel(p) && IsPixel(q) && FundOf(p) == FundOf(q)
    ensures p == q
  {
    var (x, y) := UnpackPixelID(p).value;
    var (u, v) := UnpackPixelID(q).value;
    assert x * U32 + y == u * U32 + v;
    assert x == u && y == v;
    UnpackIsInverse(p, x, y);
    UnpackIsInverse(q, x, y);
  }

  // ---- The invariant ----

  /** How many posted claim legs of the pixel the history holds. */
  function PostedLegs(log: seq<Transfer>, p: nat): nat {
    if log == [] then 0
    else PostedLegs(log[..|log| - 1], p) + if log[|log| - 1].flags.post && log[|log| - 1].debit == p then 1 else 0
  }

  /** An unresolved pending claim of the pixel. */
  predicate HoldsPixel(db: Db, id: nat, p: nat) {
    id in db.transfers && id in db.fate && db.fate[id] == Open && db.transfers[id].debit == p
  }

  predicate IsClaim(t: Transfer) {
    && t.flags == PLAIN.(pending := true)
    && IsPixel(t.debit) && t.credit == SYSTEM_POOL && t.amount == 1
    && CLAIM_CODE <= t.code <= CLAIM_CODE + MAX_COLOR
  }

  /** One spendable unit once funded, at most one reservation, a version count of posted legs.
      `owed` names the pixel a half-done confirm still owes its unit, 0 when there is none. */
  ghost predicate PixelSound(db: Db, p: nat, owed: nat)
    requires IsPixel(p)
  {
    p in db.accounts ==>
      var a := db.accounts[p];
      && a.capped
      && a.debitsPosted == PostedLegs(db.log, p)
      && a.creditsPosted + (if p == owed then 1 else 0) == a.debitsPosted + (if FundOf(p) in db.transfers then 1 else 0)
      && 0 <= a.debitsPending <= 1
      && (a.debitsPending == 1 <==> exists id :: HoldsPixel(db, id, p))
      && (forall i, j :: HoldsPixel(db, i, p) && HoldsPixel(db, j, p) ==> i == j)
  }

  /** Every transfer the game makes is a claim, a leg of one, or a unit for a pixel. */
  predicate KnownShape(db: Db, t: Transfer) {
    if t.flags.pending then IsClaim(t) && t.debit in db.accounts && SYSTEM_POOL in db.accounts && t.id in db.fate
    else if t.flags.post || t.flags.void then
      IsPixel(t.debit) && t.debit in db.accounts && CLAIM_CODE <= t.code <= CLAIM_CODE + MAX_COLOR
    else IsPixel(t.credit) && t.credit in db.accounts && t.debit == SYSTEM_POOL
  }

  ghost predicate AccountsSound(db: Db) {
    && (SYSTEM_POOL in db.accounts ==> !db.accounts[SYSTEM_POOL].capped)
    && (forall p :: p in db.accounts ==> p == SYSTEM_POOL || IsPixel(p))
  }

  ghost predicate TransfersSound(db: Db) {
    && (forall id :: id in db.transfers ==> db.transfers[id].id == id && KnownShape(db, db.transfers[id]))
    && (forall id :: id in db.fate ==> id in db.transfers && db.transfers[id].flags.pending)
    && (forall p :: IsPixel(p) && FundOf(p) in db.transfers ==> IsFund(db.transfers[FundOf(p)], p))
  }

  predicate IsFund(t: Transfer, p: nat)
    requires IsPixel(p)
  {
    SameRequest(FundTransfer(UnpackPixelID(p).value.0, UnpackPixelID(p).value.1), t)
  }

  /** The history lists stored transfers once each, in strictly increasing time. */
  ghost predicate LogSound(db: Db) {
    && Ordered(db.log)
    && (forall i :: 0 <= i < |db.log| ==> db.log[i].timestamp <= db.clock)
    && (forall i :: 0 <= i < |db.log| ==> db.log[i].id in db.transfers && db.transfers[db.log[i].id] == db.log[i])
    && (forall i, j :: 0 <= i < j < |db.log| ==> db.log[i].id != db.log[j].id)
  }

  ghost predicate SoundBut(db: Db, owed: nat) {
    && AccountsSound(db)
    && TransfersSound(db)
    && LogSound(db)
    && (forall p :: IsPixel(p) ==> PixelSound(db, p, owed))
  }

  ghost predicate Sound(db: Db) {
    SoundBut(db, 0)
  }

  lemma EmptySound()
    ensures Sound(EMPTY_DB)
  {}

  // ---- Each kind of step ----

  /** Nothing the invariant says of a pixel differs between two states. */
  ghost predicate SamePixel(a: Db, b: Db, p: nat)
    requires IsPixel(p)
  {
    && (p in a.accounts <==> p in b.accounts) && (p in a.accounts ==> a.accounts[p] == b.accounts[p])
    && PostedLegs(a.log, p) == PostedLegs(b.log, p)
    && (FundOf(p) in a.transfers <==> FundOf(p) in b.transfers)
    && (forall id :: HoldsPixel(a, id, p) <==> HoldsPixel(b, id, p))
  }

  lemma SamePixelSound(a: Db, b: Db, p: nat, owed: nat, owed': nat)
    requires IsPixel(p) && SamePixel(a, b, p) && PixelSound(a, p, owed)
    requires p == owed <==> p == owed'
    ensures PixelSound(b, p, owed')
  {
    if p in b.accounts && b.accounts[p].debitsPending == 1 {
      var id :| HoldsPixel(a, id, p);
      assert HoldsPixel(b, id, p);
    }
  }

  lemma LegsAppend(log: seq<Transfer>, t: Transfer, p: nat)
    ensures PostedLegs(log + [t], p) == PostedLegs(log, p) + if t.flags.post && t.debit == p then 1 else 0
  {
    assert (log + [t])[..|log|] == log;
  }

  /** The new state is the old with one more transfer stored, newer than all. */
  predicate Stores(db: Db, r: Db, t: Transfer) {
    && t.id !in db.transfers && db.clock < t.timestamp
    && r.transfers == db.transfers[t.id := t] && r.log == db.log + [t] && r.clock == t.timestamp
  }

  lemma {:induction false} NoLegs(log: seq<Transfer>, p: nat)
    requires forall i :: 0 <= i < |log| && log[i].flags.post ==> log[i].debit != p
    ensures PostedLegs(log, p) == 0
  {
    if log != [] {
      NoLegs(log[..|log| - 1], p);
    }
  }

  lemma StoreKeepsLog(db: Db, r: Db, t: Transfer)
    requires LogSound(db) && Stores(db, r, t)
    ensures LogSound(r)
  {}

  ghost predicate Fresh(db: Db, id: nat) {
    id !in db.transfers && IsUuid(id)
  }

  lemma FreshIsNoFund(id: nat, p: nat)
    requires IsUuid(id) && IsPixel(p)
    ensures FundOf(p) != id
  {
    FundIdsApart(UnpackPixelID(p).value.0, UnpackPixelID(p).value.1);
  }

  lemma ClaimKeepsTransfers(db: Db, r: Db, t: Transfer)
    requires TransfersSound(db) && Fresh(db, t.id) && IsClaim(t) && Stores(db, r, t)
    requires r.fate == db.fate[t.id := Open] && r.accounts.Keys == db.accounts.Keys
    requires t.debit in db.accounts && t.credit in db.accounts
    ensures TransfersSound(r)
  {
    forall p | IsPixel(p) && FundOf(p) in r.transfers ensures IsFund(r.transfers[FundOf(p)], p) {
      FreshIsNoFund(t.id, p);
    }
  }

  lemma ClaimKeepsOther(db: Db, r: Db, t: Transfer, p: nat)
    requires IsPixel(p) && PixelSound(db, p, 0) && Fresh(db, t.id) && IsClaim(t) && Stores(db, r, t) && r.fate == db.fate[t.id := Open]
    requires Moved(db.accounts, r.accounts, t.debit, t.credit, 1, 0)
    requires p != t.debit
    ensures PixelSound(r, p, 0)
  {
    hide PostedLegs;
    FreshIsNoFund(t.id, p);
    LegsAppend(db.log, t, p);
    assert forall id :: HoldsPixel(db, id, p) <==> HoldsPixel(r, id, p);
    SamePixelSound(db, r, p, 0, 0);
  }

  lemma ClaimTakesPixel(db: Db, r: Db, t: Transfer)
    requires IsClaim(t) && PixelSound(db, t.debit, 0) && Fresh(db, t.id) && Stores(db, r, t) && r.fate == db.fate[t.id := Open]
    requires Moved(db.accounts, r.accounts, t.debit, t.credit, 1, 0)
    requires var d := db.accounts[t.debit]; d.debitsPending + d.debitsPosted + 1 <= d.creditsPosted
    ensures PixelSound(r, t.debit, 0)
  {
    hide PostedLegs;
    var p := t.debit;
    FreshIsNoFund(t.id, p);
    LegsAppend(db.log, t, p);
    assert db.accounts[p].debitsPending == 0;
    assert HoldsPixel(r, t.id, p);
    assert forall id :: HoldsPixel(r, id, p) ==> id == t.id || HoldsPixel(db, id, p);
  }

  /** A claim is taken exactly when the pixel is funded and free, and then holds it. */
  lemma ClaimKeeps(db: Db, id: nat, x: u32, y: u32, color: byte, player: nat, at: nat)
    requires Sound(db) && Fresh(db, id)
    ensures var (r, st) := Create(db, NewClaim(id, x, y, color, player), at);
            && Sound(r)
            && (st != Created ==> r == db)
            && (st == Created ==> HoldsPixel(r, id, PixelID(x, y)))
  {
    hide Create, Ordered, TransfersSound, LogSound, PixelSound;
    var t := NewClaim(id, x, y, color, player);
    UnpackIsInverse(t.debit, x, y);
    var (r, st) := Create(db, t, at);
    CreatePlainEffect(db, t, at);
    if st == Created {
      var stored := t.(timestamp := Stamp(db, at));
      StoreKeepsLog(db, r, stored);
      ClaimKeepsTransfers(db, r, stored);
      PixelCapped(db, t.debit);
      forall p | IsPixel(p) ensures PixelSound(r, p, 0) {
        assert PixelSound(db, p, 0);
        if p == t.debit {
          ClaimTakesPixel(db, r, stored);
        } else {
          ClaimKeepsOther(db, r, stored, p);
        }
      }
    }
  }

  lemma PixelCapped(db: Db, p: nat)
    requires Sound(db) && IsPixel(p) && p in db.accounts
    ensures db.accounts[p].capped
  {
    assert PixelSound(db, p, 0);
  }

  /** A pending claim stops holding its pixel, by a leg or by expiry. */
  ghost predicate Released(db: Db, r: Db, claim: nat, fate: Fate, posted: int) {
    && claim in db.transfers && db.transfers[claim].flags.pending && claim in db.fate && db.fate[claim] == Open && fate != Open
    && r.fate == db.fate[claim := fate]
    && Moved(db.accounts, r.accounts, db.transfers[claim].debit, db.transfers[claim].credit, 0 - db.transfers[claim].amount, posted)
    && (forall id :: id in db.transfers ==> id in r.transfers && r.transfers[id] == db.transfers[id])
    && (forall id :: id in r.transfers && id !in db.transfers ==> !IsUuidFund(id) && id !in db.fate)
  }

  /** The identifier funds some pixel. */
  ghost predicate IsUuidFund(id: nat) {
    exists p :: IsPixel(p) && FundOf(p) == id
  }

  lemma ReleaseOther(db: Db, r: Db, claim: nat, fate: Fate, posted: int, p: nat, owed: nat)
    requires Released(db, r, claim, fate, posted) && IsClaim(db.transfers[claim])
    requires IsPixel(p) && PixelSound(db, p, 0) && p != db.transfers[claim].debit && p != owed
    requires PostedLegs(r.log, p) == PostedLegs(db.log, p)
    ensures PixelSound(r, p, owed)
  {
    hide PostedLegs;
    assert forall id :: HoldsPixel(db, id, p) <==> HoldsPixel(r, id, p);
    SamePixelSound(db, r, p, 0, owed);
  }

  lemma ReleaseOwn(db: Db, r: Db, claim: nat, fate: Fate, posted: int, owed: nat)
    requires Released(db, r, claim, fate, posted) && IsClaim(db.transfers[claim])
    requires var p := db.transfers[claim].debit;
             && PixelSound(db, p, 0) && PostedLegs(r.log, p) == PostedLegs(db.log, p) + posted
             && ((posted == 1 && owed == p) || (posted == 0 && owed == 0))
    ensures PixelSound(r, db.transfers[claim].debit, owed)
  {
    hide PostedLegs;
    var p := db.transfers[claim].debit;
    assert HoldsPixel(db, claim, p);
    assert forall id :: HoldsPixel(r, id, p) ==> HoldsPixel(db, id, p) && id != claim;
    assert forall id :: !HoldsPixel(r, id, p);
  }

  lemma LegKeepsTransfers(db: Db, r: Db, leg: Transfer, claim: nat, fate: Fate)
    requires TransfersSound(db) && Fresh(db, leg.id) && Stores(db, r, leg)
    requires claim in db.fate && r.fate == db.fate[claim := fate] && r.accounts.Keys == db.accounts.Keys
    requires !leg.flags.pending && (leg.flags.post || leg.flags.void) && IsPixel(leg.debit) && leg.debit in db.accounts
    requires CLAIM_CODE <= leg.code <= CLAIM_CODE + MAX_COLOR
    ensures TransfersSound(r)
  {
    forall p | IsPixel(p) && FundOf(p) in r.transfers ensures IsFund(r.transfers[FundOf(p)], p) {
      FreshIsNoFund(leg.id, p);
    }
  }

  lemma OpenIsClaim(db: Db, claim: nat)
    requires TransfersSound(db) && claim in db.transfers && db.transfers[claim].flags.pending
    ensures var c := db.transfers[claim];
            c.id == claim && IsClaim(c) && c.debit in db.accounts && c.credit in db.accounts && claim in db.fate
  {}

  lemma FreshIsNoFate(db: Db, id: nat)
    requires TransfersSound(db) && Fresh(db, id)
    ensures !IsUuidFund(id) && id !in db.fate
  {
    forall p | IsPixel(p) ensures FundOf(p) != id {
      FreshIsNoFund(id, p);
    }
  }

  /** A post or void leg: nothing happens unless the claim is still open; a post leaves its pixel
      owed one unit, a void gives the unit back at once. */
  lemma LegKeeps(db: Db, t: Transfer, at: nat)
    requires Sound(db) && Fresh(db, t.id) && !t.flags.pending && (t.flags.post <==> !t.flags.void)
    ensures var (r, st) := Create(db, t, at);
            && (st != Created ==> r == db)
            && (st == Created ==>
                  && t.pendingId in db.transfers && IsClaim(db.transfers[t.pendingId])
                  && HoldsPixel(db, t.pendingId, db.transfers[t.pendingId].debit)
                  && SoundBut(r, if t.flags.post then db.transfers[t.pendingId].debit else 0)
                  && r.transfers.Keys == db.transfers.Keys + {t.id}
                  && db.transfers[t.pendingId].debit in r.accounts && SYSTEM_POOL in r.accounts)
  {
    hide Create, Ordered, LogSound, PostedLegs, TransfersSound, PixelSound;
    var (r, st) := Create(db, t, at);
    ResolveEffect(db, t, at);
    if st == Created {
      OpenIsClaim(db, t.pendingId);
      var claim := t.pendingId;
      var c := db.transfers[claim];
      var fate := if t.flags.post then Posted else Voided;
      var posted := if t.flags.post then 1 else 0;
      var owed := if t.flags.post then c.debit else 0;
      var leg := t.(debit := c.debit, credit := c.credit, amount := c.amount, code := c.code, ledger := c.ledger,
                    player := c.player, timestamp := Stamp(db, at));
      StoreKeepsLog(db, r, leg);
      LegKeepsTransfers(db, r, leg, claim, fate);
      FreshIsNoFate(db, t.id);
      assert Released(db, r, claim, fate, posted);
      forall p | IsPixel(p) ensures PixelSound(r, p, owed) {
        assert PixelSound(db, p, 0);
        LegsAppend(db.log, leg, p);
        if p == c.debit {
          ReleaseOwn(db, r, claim, fate, posted, owed);
        } else {
          ReleaseOther(db, r, claim, fate, posted, p, owed);
        }
      }
    }
  }

  lemma ExpiredTransfers(db: Db, r: Db, id: nat)
    requires TransfersSound(db) && r.transfers == db.transfers && id in db.fate && r.fate == db.fate[id := Expired]
    requires IsClaim(db.transfers[id]) ==> db.accounts.Keys <= r.accounts.Keys
    ensures TransfersSound(r) && db.transfers[id].flags.pending
  {}

  /** Expiry gives the unit back like a void, without a transfer. */
  lemma ExpireKeeps(db: Db, id: nat)
    requires Sound(db)
    ensures Sound(Expire(db, id))
  {
    hide Expire, Ordered, PostedLegs, PixelSound, TransfersSound;
    var r := Expire(db, id);
    ExpireEffect(db, id);
    if r != db {
      ExpiredTransfers(db, r, id);
      OpenIsClaim(db, id);
      var c := db.transfers[id];
      assert Released(db, r, id, Expired, 0);
      forall p | IsPixel(p) ensures PixelSound(r, p, 0) {
        assert PixelSound(db, p, 0);
        if p == c.debit {
          ReleaseOwn(db, r, id, Expired, 0, 0);
        } else {
          ReleaseOther(db, r, id, Expired, 0, p, 0);
        }
      }
    }
  }

  lemma UnitKeepsTransfers(db: Db, r: Db, t: Transfer, owed: nat)
    requires TransfersSound(db) && Stores(db, r, t) && r.fate == db.fate && r.accounts.Keys == db.accounts.Keys
    requires t.flags == PLAIN && t.debit == SYSTEM_POOL && IsPixel(t.credit) && t.credit in db.accounts
    requires owed == 0 ==> IsFund(t, t.credit)
    requires forall p :: IsPixel(p) ==> (FundOf(p) == t.id <==> owed == 0 && p == t.credit)
    ensures TransfersSound(r) && t.id !in db.fate
  {}

  /** A unit for a pixel: its one funding, or the refund a posted claim owes it. */
  lemma UnitKeeps(db: Db, t: Transfer, at: nat, owed: nat)
    requires SoundBut(db, owed) && t.id !in db.transfers
    requires t.flags == PLAIN && t.debit == SYSTEM_POOL && t.amount == 1 && IsPixel(t.credit)
    requires if owed == 0 then t.id == FundOf(t.credit) && IsFund(t, t.credit) else owed == t.credit && IsUuid(t.id)
    ensures var (r, st) := Create(db, t, at);
            && (st == Created <==> SYSTEM_POOL in db.accounts && t.credit in db.accounts)
            && (st == Created ==> Sound(r) && r.transfers.Keys == db.transfers.Keys + {t.id})
            && (st != Created ==> r == db)
  {
    hide Ordered, PostedLegs, LogSound, TransfersSound, PixelSound;
    var (r, st) := Create(db, t, at);
    CreatePlainEffect(db, t, at);
    if st == Created {
      var stored := t.(timestamp := Stamp(db, at));
      StoreKeepsLog(db, r, stored);
      forall p | IsPixel(p) ensures FundOf(p) == t.id <==> owed == 0 && p == t.credit {
        if owed == 0 {
          if FundOf(p) == FundOf(t.credit) {
            FundOfInjective(p, t.credit);
          }
        } else {
          FreshIsNoFund(t.id, p);
        }
      }
      UnitKeepsTransfers(db, r, stored, owed);
      forall p | IsPixel(p) ensures PixelSound(r, p, 0) {
        UnitKeepsPixel(db, r, stored, owed, p);
      }
    }
  }

  lemma UnitKeepsPixel(db: Db, r: Db, t: Transfer, owed: nat, p: nat)
    requires IsPixel(p) && PixelSound(db, p, owed) && Stores(db, r, t) && r.fate == db.fate && t.id !in db.fate
    requires t.flags == PLAIN && t.debit == SYSTEM_POOL && IsPixel(t.credit)
    requires Moved(db.accounts, r.accounts, t.debit, t.credit, 0, 1)
    requires FundOf(p) == t.id <==> owed == 0 && p == t.credit
    requires owed == 0 || owed == t.credit
    ensures PixelSound(r, p, 0)
  {
    hide PostedLegs;
    LegsAppend(db.log, t, p);
    assert forall id :: HoldsPixel(db, id, p) <==> HoldsPixel(r, id, p);
    if p != t.credit {
      SamePixelSound(db, r, p, owed, 0);
    } else if p in r.accounts && r.accounts[p].debitsPending == 1 {
      var id :| HoldsPixel(db, id, p);
      assert HoldsPixel(r, id, p);
    }
  }
}
