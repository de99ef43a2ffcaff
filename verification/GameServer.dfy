/** One server against the ledger: claim, confirm, cancel and reap, call after call. */
module GameServers {
  import opened Bytes
  import opened Canvas
  import opened TigerBeetle
  import opened Claims
  import opened ClaimProtocol
  import opened Clients
  import opened Registry

  datatype ClaimResult = Claimed(id: Id) | ErrOutOfBounds | ErrLockedByOther | ErrSubmit(err: Outcome)
  datatype ResolveResult = Resolved | ErrUnknownClaim | ErrResolve(err: Outcome)

  /** The ledger holds the claim the registry knows by this id: same pixel, colour and player. */
  predicate Backed(db: Db, id: Id, m: Meta) {
    && id in db.transfers
    && IsClaim(db.transfers[id])
    && db.transfers[id].debit == PixelID(m.x, m.y)
    && db.transfers[id].code == CLAIM_CODE + m.color
    && db.transfers[id].player == m.player
  }

  ghost predicate AllBacked(db: Db, r: Table, g: Size) {
    forall id :: id in r.claims ==>
      Backed(db, id, r.claims[id]) && r.claims[id].color <= MAX_COLOR && g.Contains(r.claims[id].x, r.claims[id].y)
  }

  /** What the ledger's own clock and every submit do to it: nothing stored is lost. */
  ghost predicate Keeps(a: Db, b: Db) {
    forall id :: id in a.transfers ==> id in b.transfers && b.transfers[id] == a.transfers[id]
  }

  lemma CreateKeeps(db: Db, t: Transfer, at: nat)
    ensures Keeps(db, Create(db, t, at).0)
  {
    if t.id !in db.transfers {
      if t.flags.post || t.flags.void {
        ResolveEffect(db, t, at);
      } else {
        CreatePlainEffect(db, t, at);
      }
    }
  }

  /** A transfer that is no post leg leaves the fold of the history alone. */
  lemma SilentFold(a: Db, b: Db, t: Transfer, g: Size)
    requires b.log == a.log || (b.log == a.log + [t] && !t.flags.post)
    ensures Fold(Blank(g), b.log, g) == Fold(Blank(g), a.log, g)
  {
    if b.log != a.log {
      assert b.log[..|b.log| - 1] == a.log;
    }
  }

  /** The server keeps the colour it was given, the ledger one clamped to the palette: the pixel
      they paint is the same exactly for palette colours and those congruent to the last. */
  lemma ClampAgreesIff(color: byte)
    ensures (if color > MAX_COLOR then MAX_COLOR else color) % 16 == color % 16 <==> color <= MAX_COLOR || color % 16 == MAX_COLOR
  {}

  /** A confirmed claim's two legs paint its pixel with its colour. */
  lemma ConfirmPaints(db: Db, claim: Id, m: Meta, postId: nat, refundId: nat, at: nat, g: Size)
    requires Sound(db) && Backed(db, claim, m) && m.color <= MAX_COLOR && g.Contains(m.x, m.y)
    requires Fresh(db, postId) && Fresh(db, refundId) && postId != refundId
    requires HoldsPixel(db, claim, PixelID(m.x, m.y))
    ensures var r := CreateTransfers(db, BuildConfirm(postId, refundId, claim, m.x, m.y), at).0;
            && Keeps(db, r) && db.accounts.Keys == r.accounts.Keys
            && Fold(Blank(g), r.log, g) == Fold(Blank(g), db.log, g)[Index(m.x, m.y, g) := m.color % 16 + 1]
  {
    hide Create, CreateTransfers, Sound, Fold, UnpackPixelID;
    var ts := BuildConfirm(postId, refundId, claim, m.x, m.y);
    ConfirmChain(db, postId, refundId, claim, m.x, m.y, at);
    ConfirmKeeps(db, claim, m.x, m.y, postId, refundId, at);
    var (mid, _) := Create(db, ts[0], at);
    var (end, st2) := Create(mid, ts[1], at);
    ResolveEffect(db, ts[0], at);
    CreatePlainEffect(mid, ts[1], at);
    var refund := ts[1].(timestamp := Stamp(mid, at));
    SilentFold(mid, end, refund, g);
    PostPaints(db, mid, mid.log[|db.log|], m, g);
  }

  lemma PostPaints(db: Db, mid: Db, leg: Transfer, m: Meta, g: Size)
    requires mid.log == db.log + [leg] && g.Contains(m.x, m.y)
    requires leg.flags.post && leg.debit == PixelID(m.x, m.y) && leg.code == CLAIM_CODE + m.color
    ensures Fold(Blank(g), mid.log, g) == Fold(Blank(g), db.log, g)[Index(m.x, m.y, g) := m.color % 16 + 1]
  {
    assert mid.log[..|mid.log| - 1] == db.log;
    UnpackIsInverse(leg.debit, m.x, m.y);
    assert IsPostedClaim(leg, g) == Some(Paint(m.x, m.y, m.color));
  }

  /** Two states in which the same claims hold the same pixels. */
  ghost predicate SameHolders(a: Db, b: Db) {
    b.fate == a.fate && Keeps(a, b) && forall id :: id in b.fate ==> id in a.transfers
  }

  lemma SameToSelf(db: Db)
    requires Sound(db)
    ensures SameHolders(db, db)
  {}

  lemma KeepsHolders(a: Db, b: Db)
    requires SameHolders(a, b)
    ensures Keeps(a, b) && forall id, p :: HoldsPixel(a, id, p) <==> HoldsPixel(b, id, p)
  {}

  lemma FundHolds(db: Db, x: u32, y: u32, at: nat, g: Size)
    requires Sound(db)
    ensures var r := Create(db, FundTransfer(x, y), at).0;
            SameHolders(db, r) && Fold(Blank(g), r.log, g) == Fold(Blank(g), db.log, g)
  {
    var t := FundTransfer(x, y);
    CreateKeeps(db, t, at);
    FundKeeps(db, x, y, at);
    if t.id !in db.transfers {
      CreatePlainEffect(db, t, at);
      hide Create, Fold;
      SilentFold(db, Create(db, t, at).0, t.(timestamp := Stamp(db, at)), g);
    }
  }

  /** First-touch provisioning of a cell: sound, silent, and complete whatever was there before. */
  lemma ProvisionOne(db: Db, x: u32, y: u32, at: nat, g: Size)
    requires Sound(db)
    ensures var made := Ensure(CreateAccount(db, SYSTEM_POOL, false).0, [(x, y)]);
            var (r, st) := Create(made, FundTransfer(x, y), at);
            && Sound(made) && Sound(r) && OutcomeOf([st]) == Success
            && Provisioned(r, (x, y)) && SYSTEM_POOL in r.accounts
            && SameHolders(db, r) && Fold(Blank(g), r.log, g) == Fold(Blank(g), db.log, g)
            && db.accounts.Keys <= r.accounts.Keys
            && (forall i :: Fresh(db, i) ==> Fresh(r, i))
  {
    hide Sound, Fold, Create, Ensure;
    FundIdsApart(x, y);
    var pooled := CreateAccount(db, SYSTEM_POOL, false).0;
    AccountKeeps(db, SYSTEM_POOL);
    EnsureCreates(pooled, [(x, y)]);
    var made := Ensure(pooled, [(x, y)]);
    assert PixelID([(x, y)][0].0, [(x, y)][0].1) in made.accounts;
    FundKeeps(made, x, y, at);
    FundKeepsKeys(made, x, y, at);
    FundHolds(made, x, y, at, g);
  }

  lemma ValidKept(a: Db, b: Db, r: Table, created: set<Registry.Cell>, g: Size)
    requires Keeps(a, b) && a.accounts.Keys <= b.accounts.Keys && AllBacked(a, r, g)
    requires AllProvisioned(a, created)
    ensures AllBacked(b, r, g) && AllProvisioned(b, created)
  {}

  lemma OneMoreProvisioned(db: Db, created: set<Registry.Cell>, c: Registry.Cell)
    requires AllProvisioned(db, created) && Provisioned(db, c) && SYSTEM_POOL in db.accounts
    ensures AllProvisioned(db, created + {c})
  {}

  lemma CreatedIsProvisioned(db: Db, created: set<Registry.Cell>, c: Registry.Cell)
    requires AllProvisioned(db, created) && c in created
    ensures Provisioned(db, c) && SYSTEM_POOL in db.accounts
  {}

  ghost predicate AllProvisioned(db: Db, created: set<Registry.Cell>) {
    forall c :: c in created ==> Provisioned(db, c) && SYSTEM_POOL in db.accounts
  }

  /** Submitting a claim for a provisioned cell: it wins exactly when nobody holds the pixel. */
  lemma ClaimEffect(db: Db, id: Id, m: Meta, at: nat, g: Size)
    requires Sound(db) && Fresh(db, id) && m.color <= MAX_COLOR
    requires Provisioned(db, (m.x, m.y)) && SYSTEM_POOL in db.accounts
    ensures var (r, st) := Create(db, NewClaim(id, m.x, m.y, m.color, m.player), at);
            && Sound(r) && Keeps(db, r) && r.accounts.Keys == db.accounts.Keys
            && Fold(Blank(g), r.log, g) == Fold(Blank(g), db.log, g)
            && r.transfers.Keys <= db.transfers.Keys + {id}
            && (if forall i :: !HoldsPixel(db, i, PixelID(m.x, m.y)) then
                  st == Created && Backed(r, id, m) && HoldsPixel(r, id, PixelID(m.x, m.y)) && r.fate == db.fate[id := Open]
                else st == ExceedsCredits && r == db)
  {
    hide Sound, Create, Fold;
    var t := NewClaim(id, m.x, m.y, m.color, m.player);
    UnpackIsInverse(t.debit, m.x, m.y);
    CreateKeeps(db, t, at);
    CreatePlainEffect(db, t, at);
    ClaimKeeps(db, id, m.x, m.y, m.color, m.player, at);
    ClaimWinsIff(db, id, m.x, m.y, m.color, m.player, at);
    SilentFold(db, Create(db, t, at).0, t.(timestamp := Stamp(db, at)), g);
  }

  /** Submitting a void: it resolves the claim if it was open, and is refused without effect if not. */
  lemma VoidEffect(db: Db, legId: Id, claim: Id, at: nat, g: Size)
    requires Sound(db) && Fresh(db, legId) && claim in db.transfers && IsClaim(db.transfers[claim])
    ensures var (r, st) := Create(db, BuildVoid(legId, claim), at);
            && Sound(r) && Keeps(db, r) && r.accounts.Keys == db.accounts.Keys
            && Fold(Blank(g), r.log, g) == Fold(Blank(g), db.log, g)
            && claim in db.fate
            && (db.fate[claim] == Open ==> st == Created && r.fate == db.fate[claim := Voided])
            && (db.fate[claim] != Open ==> r == db)
            && (db.fate[claim] != Open ==> st == match db.fate[claim] case Posted => AlreadyPosted case Voided => AlreadyVoided case _ => PendingExpired)
  {
    var t := BuildVoid(legId, claim);
    OpenIsClaim(db, claim);
    LegKeeps(db, t, at);
    CreateKeeps(db, t, at);
    VoidStatus(db, t, at);
    hide Create, Sound, Fold;
    ResolveEffect(db, t, at);
    var r := Create(db, t, at).0;
    if r.log != db.log {
      var leg := r.log[|db.log|];
      SilentFold(db, r, leg, g);
    } else {
      SilentFold(db, r, t, g);
    }
  }

  lemma VoidStatus(db: Db, t: Transfer, at: nat)
    requires TransfersSound(db) && t.id !in db.transfers && t.flags.void && t.pendingId in db.transfers
    requires IsClaim(db.transfers[t.pendingId])
    ensures Create(db, t, at).1
            == match db.fate[t.pendingId] case Open => Created case Posted => AlreadyPosted case Voided => AlreadyVoided
               case Expired => PendingExpired
  {}

  const CLAIM_NS := CLAIM_TIMEOUT_SECONDS * 1_000_000_000

  class GameServer {
    const g: Size
    const tb: Client
    var bmp: Bitmap
    var claims: map<Id, Meta>
    var byPlayer: map<Player, Id>
    var locks: map<Registry.Cell, Lock>
    var created: set<Registry.Cell>

    ghost function T(): Table
      reads this
    {
      Table(claims, byPlayer, locks)
    }

    /** The registry is consistent and backed by the ledger, and the standing bitmap is the fold of
        the ledger's posted claims. */
    ghost predicate Valid()
      reads this, tb
    {
      && Sound(tb.db)
      && Paired(T()) && LocksBacked(T())
      && AllBacked(tb.db, T(), g)
      && |bmp| == g.Cells() && bmp == Fold(Blank(g), tb.db.log, g)
      && AllProvisioned(tb.db, created)
    }

    constructor (g: Size, tb: Client)
      requires tb.db == EMPTY_DB
      ensures Valid() && this.g == g && this.tb == tb && T() == EMPTY_TABLE
    {
      this.g, this.tb := g, tb;
      bmp, claims, byPlayer, locks, created := Blank(g), map[], map[], map[], {};
    }

    /** Creates and funds a pixel's account on first touch. */
    method EnsurePixel(x: u32, y: u32, at: nat)
      requires Valid()
      modifies this`created, tb
      ensures Valid() && SameHolders(old(tb.db), tb.db)
      ensures Provisioned(tb.db, (x, y)) && SYSTEM_POOL in tb.db.accounts
      ensures forall i :: Fresh(old(tb.db), i) ==> Fresh(tb.db, i)
    {
      hide Sound, Fold, Create, CreateAccount, Ensure, AllBacked, Paired, LocksBacked, Keeps, SameHolders, Fresh, AllProvisioned;
      hide Provisioned;
      if (x, y) in created {
        CreatedIsProvisioned(tb.db, created, (x, y));
        SameToSelf(tb.db);
        return;
      }
      ProvisionOne(tb.db, x, y, at, g);
      ghost var before := tb.db;
      var ok := tb.CreateAccounts(true, [(x, y)]);
      if !ok {
        return;
      }
      var err := tb.Submit(FundTransfer(x, y), at);
      if err != Success {
        return;
      }
      KeepsHolders(before, tb.db);
      ValidKept(before, tb.db, T(), created, g);
      OneMoreProvisioned(tb.db, created, (x, y));
      created := created + {(x, y)};
    }

    /** Removes a claim with its lock and index entry. */
    method VacateClaim(id: Id, key: Registry.Cell)
      modifies this`claims, this`byPlayer, this`locks
      ensures T() == Vacate(old(T()), id, key)
      ensures claims == old(claims) - {id}
      ensures forall p :: p in old(byPlayer) && (id !in old(claims) || old(byPlayer)[p] != id) ==> p in byPlayer
      ensures forall p :: p in byPlayer ==> p in old(byPlayer) && byPlayer[p] == old(byPlayer)[p]
      ensures forall k :: k in old(locks) && (k != key || id !in old(claims) || old(locks)[k].player != old(claims)[id].player)
                          ==> k in locks
      ensures forall k :: k in locks ==> k in old(locks) && locks[k] == old(locks)[k]
      ensures old(Paired(T())) ==> Paired(T()) && forall p :: p in byPlayer ==> byPlayer[p] != id
    {
      if Paired(T()) {
        VacateKeeps(T(), id, key);
      }
      if id !in claims {
        return;
      }
      var m := claims[id];
      if m.player in byPlayer && byPlayer[m.player] == id {
        byPlayer := byPlayer - {m.player};
      }
      claims := claims - {id};
      if key in locks && locks[key].player == m.player {
        locks := locks - {key};
      }
    }

    /** Claim's first region: remember and vacate the player's claim, then register the new one. */
    method Register(id: Id, m: Meta, expires: nat) returns (prev: Option<Superseded>)
      modifies this`claims, this`byPlayer, this`locks
      ensures T() == Begin(old(T()), id, m, expires) && prev == Supersedes(old(T()), m.player)
    {
      prev := None;
      if m.player in byPlayer {
        var oldId := byPlayer[m.player];
        if oldId in claims {
          var meta := claims[oldId];
          prev := Some(Superseded(oldId, meta, if meta.At() in locks then Some(locks[meta.At()]) else None));
          VacateClaim(oldId, meta.At());
        }
      }
      locks := locks[m.At() := Lock(m.player, expires)];
      claims := claims[id := m];
      byPlayer := byPlayer[m.player := id];
    }

    /** Claim's second region, after the ledger refused it. */
    method Restore(id: Id, m: Meta, prev: Option<Superseded>)
      modifies this`claims, this`byPlayer, this`locks
      ensures T() == Rollback(old(T()), id, m, prev)
    {
      locks := locks - {m.At()};
      claims := claims - {id};
      if prev.Some? {
        var s := prev.value;
        claims := claims[s.id := s.meta];
        byPlayer := byPlayer[m.player := s.id];
        if s.hadLock.Some? {
          locks := locks[s.meta.At() := s.hadLock.value];
        }
      } else {
        byPlayer := byPlayer - {m.player};
      }
    }

    /** Locks a cell for a player, superseding the player's earlier claim; the ledger decides who wins. */
    method Claim(player: Player, x: u32, y: u32, color: byte, id: Id, legId: Id, now: nat, at: nat) returns (res: ClaimResult)
      requires Valid() && color <= MAX_COLOR
      requires Fresh(tb.db, id) && Fresh(tb.db, legId) && id != legId
      modifies this, tb
      ensures Valid() && bmp == old(bmp)
      ensures res == ErrOutOfBounds <==> !g.Contains(x, y)
      ensures !g.Contains(x, y) ==> T() == old(T())
      ensures var taken := (x, y) in old(locks) && now < old(locks)[(x, y)].expires && old(locks)[(x, y)].player != player;
              g.Contains(x, y) ==>
                if taken then res == ErrLockedByOther && T() == old(T())
                else if forall i :: !HoldsPixel(old(tb.db), i, PixelID(x, y)) then
                  && res == Claimed(id) && Took(old(T()), T(), id, Meta(x, y, color, player), now + 3_000_000_000)
                  && HoldsPixel(tb.db, id, PixelID(x, y))
                  && (player in old(byPlayer) ==> !Unresolved(tb.db, old(byPlayer)[player]))
                else res == ErrLockedByOther && Undone(old(T()), T(), now)
    {
      if x >= g.w || y >= g.h {
        return ErrOutOfBounds;
      }
      hide Sound, Fold, AllBacked, Paired, LocksBacked, Keeps, SameHolders, Begin, Undone, HoldsPixel, AllProvisioned, Provisioned, Took, Fresh;
      ghost var db0, t0 := tb.db, T();
      EnsurePixel(x, y, at);
      KeepsHolders(db0, tb.db);
      if (x, y) in locks && now < locks[(x, y)].expires && locks[(x, y)].player != player {
        return ErrLockedByOther;
      }
      var m := Meta(x, y, color, player);
      res := ClaimLocked(id, m, legId, now, at);
    }

    /** The rest of a claim once no live lock of another player stands in its way. */
    method ClaimLocked(id: Id, m: Meta, legId: Id, now: nat, at: nat) returns (res: ClaimResult)
      requires Valid() && m.color <= MAX_COLOR && g.Contains(m.x, m.y)
      requires Fresh(tb.db, id) && Fresh(tb.db, legId) && id != legId
      requires Provisioned(tb.db, m.At()) && SYSTEM_POOL in tb.db.accounts
      requires !LockedByOther(T(), m.At(), m.player, now)
      modifies this, tb
      ensures Valid() && bmp == old(bmp)
      ensures if forall i :: !HoldsPixel(old(tb.db), i, PixelID(m.x, m.y)) then
                && res == Claimed(id) && Took(old(T()), T(), id, m, now + 3_000_000_000)
                && HoldsPixel(tb.db, id, PixelID(m.x, m.y))
                && (m.player in old(byPlayer) ==> !Unresolved(tb.db, old(byPlayer)[m.player]))
              else res == ErrLockedByOther && Undone(old(T()), T(), now)
    {
      hide Sound, Fold, Create, AllBacked, Paired, LocksBacked, Keeps, Begin, Rollback, Supersedes, Undone, HoldsPixel, LockedByOther, AllProvisioned, Provisioned, Took;
      ghost var db0, t0 := tb.db, T();
      FreshIsUnclaimed(db0, t0, id, g);
      BeginTakes(t0, id, m, now + CLAIM_NS);
      BeginKeeps(t0, id, m, now + CLAIM_NS);
      RefusedIsUndone(t0, id, m, now + CLAIM_NS, now);
      ClaimEffect(db0, id, m, at, g);
      var prev := Register(id, m, now + CLAIM_NS);
      var err := tb.Submit(NewClaim(id, m.x, m.y, m.color, m.player), at);
      if err != Success {
        Restore(id, m, prev);
        UndoneBacked(tb.db, t0, T(), now, g);
        return if err == ErrPixelLocked then ErrLockedByOther else ErrSubmit(err);
      }
      ValidKept(db0, tb.db, t0, created, g);
      BegunBacked(tb.db, t0, id, m, now + CLAIM_NS, g);
      res := Claimed(id);
      if prev.Some? {
        SupersededKnown(tb.db, t0, m.player, g);
        VoidSuperseded(prev.value.id, id, PixelID(m.x, m.y), legId, at);
      }
    }

    /** Voids a superseded claim; whether the ledger still knew it open or not, it is not open after. */
    method VoidSuperseded(oldId: Id, ghost id: Id, ghost pixel: nat, legId: Id, at: nat)
      requires Valid() && Fresh(tb.db, legId) && oldId in tb.db.transfers && IsClaim(tb.db.transfers[oldId])
      requires HoldsPixel(tb.db, id, pixel) && id != oldId
      modifies tb
      ensures Valid() && HoldsPixel(tb.db, id, pixel) && !Unresolved(tb.db, oldId)
    {
      hide Sound, Fold, Create, AllBacked, Paired, LocksBacked, AllProvisioned;
      ghost var before := tb.db;
      VoidEffect(before, legId, oldId, at, g);
      var _ := tb.Submit(BuildVoid(legId, oldId), at);
      ValidKept(before, tb.db, T(), created, g);
    }

    /** Posts a player's claim and refunds its pixel in one chain, then paints; if the ledger no
        longer holds the claim open, nothing changes anywhere. */
    method Confirm(player: Player, id: Id, postId: Id, refundId: Id, at: nat) returns (res: ResolveResult)
      requires Valid() && Fresh(tb.db, postId) && Fresh(tb.db, refundId) && postId != refundId
      modifies this, tb
      ensures Valid()
      ensures res == ErrUnknownClaim <==> !(id in old(claims) && old(claims)[id].player == player)
      ensures res == Resolved <==> id in old(claims) && old(claims)[id].player == player && Unresolved(old(tb.db), id)
      ensures res == Resolved ==> var m := old(claims)[id];
                && T() == Vacate(old(T()), id, m.At())
                && g.Contains(m.x, m.y) && bmp == old(bmp)[Index(m.x, m.y, g) := m.color + 1]
      ensures res != Resolved ==> T() == old(T()) && bmp == old(bmp) && tb.db == old(tb.db)
      ensures id in old(claims) && old(claims)[id].player == player && Timed(old(tb.db), id) ==>
                res == ErrResolve(ErrClaimExpired)
    {
      hide Sound, Fold, CreateTransfers, AllBacked, Paired, LocksBacked, Keeps, AllProvisioned, Vacate, Backed, HoldsPixel, Fresh, IsClaim;
      hide Timed, Unresolved, BuildConfirm, OutcomeOf;
      if id !in claims || claims[id].player != player {
        return ErrUnknownClaim;
      }
      var m := claims[id];
      ghost var db0, t0 := tb.db, T();
      KnownClaim(db0, t0, id, g);
      ConfirmOutcome(db0, id, m, postId, refundId, at, g);
      VacateKeeps(t0, id, m.At());
      var err := tb.SubmitBatch(BuildConfirm(postId, refundId, id, m.x, m.y), at);
      if err != Success {
        return ErrResolve(err);
      }
      bmp := bmp[Index(m.x, m.y, g) := m.color % 16 + 1];
      ValidKept(db0, tb.db, t0, created, g);
      VacatedBacked(tb.db, t0, id, m.At(), g);
      VacateClaim(id, m.At());
      return Resolved;
    }

    /** Voids a player's claim early. */
    method Cancel(player: Player, id: Id, legId: Id, at: nat) returns (res: ResolveResult)
      requires Valid() && Fresh(tb.db, legId)
      modifies this, tb
      ensures Valid() && bmp == old(bmp)
      ensures res == ErrUnknownClaim <==> !(id in old(claims) && old(claims)[id].player == player)
      ensures res == Resolved <==> id in old(claims) && old(claims)[id].player == player && !Timed(old(tb.db), id)
      ensures res == Resolved ==> T() == Vacate(old(T()), id, old(claims)[id].At()) && !Unresolved(tb.db, id)
      ensures res != Resolved ==> T() == old(T()) && tb.db == old(tb.db)
    {
      hide Sound, Fold, Create, AllBacked, Paired, LocksBacked, Keeps, AllProvisioned, Vacate, Backed, HoldsPixel, Fresh, IsClaim;
      if id !in claims || claims[id].player != player {
        return ErrUnknownClaim;
      }
      var m := claims[id];
      ghost var db0, t0 := tb.db, T();
      KnownClaim(db0, t0, id, g);
      VoidEffect(db0, legId, id, at, g);
      VacateKeeps(t0, id, m.At());
      var err := tb.Submit(BuildVoid(legId, id), at);
      if err != Success {
        return ErrResolve(err);
      }
      ValidKept(db0, tb.db, t0, created, g);
      VacatedBacked(tb.db, t0, id, m.At(), g);
      VacateClaim(id, m.At());
      return Resolved;
    }

    /** Drops every expired lock and the claim it stands for, and nothing else. */
    method ReapExpired(now: nat)
      requires Valid()
      modifies this`claims, this`byPlayer, this`locks
      ensures Valid()
      ensures T() == Without(old(T()), set k | k in old(locks) && old(locks)[k].expires < now)
    {
      hide Sound, Fold, AllBacked, AllProvisioned, Paired, LocksBacked, Without, ReapOne;
      ghost var t0, expired := T(), set k | k in locks && locks[k].expires < now;
      ghost var done: set<Registry.Cell> := {};
      WithoutNothing(t0);
      var todo := locks.Keys;
      while todo != {}
        invariant Valid() && todo <= t0.locks.Keys && done == expired - todo
        invariant T() == Without(t0, done)
        decreases todo
      {
        var k :| k in todo;
        WithoutLocks(t0, done);
        if now > locks[k].expires {
          ReapOneMore(t0, done, k);
          ReapOneKeeps(T(), k);
          ReapedBacked(tb.db, T(), k, g);
          ReapLock(k);
          done := done + {k};
        }
        todo := todo - {k};
      }
      assert done == expired;
    }

    method ReapLock(k: Registry.Cell)
      requires k in locks
      modifies this`claims, this`byPlayer, this`locks
      ensures T() == ReapOne(old(T()), k)
    {
      var p := locks[k].player;
      if p in byPlayer {
        var id := byPlayer[p];
        if id in claims && claims[id].At() == k {
          VacateClaim(id, k);
        }
      }
      locks := locks - {k};
    }

    /** The ledger times a claim out on its own; the server's state stays true. */
    method LedgerTimesOut(id: Id)
      requires Valid()
      modifies tb
      ensures Valid() && tb.db == Expire(old(tb.db), id)
    {
      hide Sound, Fold, AllBacked, AllProvisioned, Paired, LocksBacked, Expire;
      ghost var db0 := tb.db;
      ExpireKeeps(db0, id);
      ExpireEffect(db0, id);
      ExpireAccounts(db0, id);
      tb.db := Expire(tb.db, id);
      ValidKept(db0, tb.db, T(), created, g);
    }
  }

  /** The ledger has timed the claim out. */
  predicate Timed(db: Db, id: Id) {
    id in db.fate && db.fate[id] == Expired
  }

  lemma ExpireAccounts(db: Db, id: nat)
    ensures db.accounts.Keys == Expire(db, id).accounts.Keys
  {}

  lemma KnownClaim(db: Db, r: Table, id: Id, g: Size)
    requires AllBacked(db, r, g) && id in r.claims
    ensures var m := r.claims[id];
            Backed(db, id, m) && IsClaim(db.transfers[id]) && id in db.transfers && m.color <= MAX_COLOR && g.Contains(m.x, m.y)
  {}

  lemma VacatedBacked(db: Db, r: Table, id: Id, key: Registry.Cell, g: Size)
    requires AllBacked(db, r, g)
    ensures AllBacked(db, Vacate(r, id, key), g)
  {}

  lemma ReapedBacked(db: Db, r: Table, k: Registry.Cell, g: Size)
    requires AllBacked(db, r, g) && k in r.locks
    ensures AllBacked(db, ReapOne(r, k), g)
  {}

  lemma WithoutNothing(r: Table)
    ensures Without(r, {}) == r
  {
    assert Without(r, {}).claims == r.claims;
    assert Without(r, {}).byPlayer == r.byPlayer;
    assert Without(r, {}).locks == r.locks;
  }

  lemma WithoutLocks(r: Table, ks: set<Registry.Cell>)
    ensures Without(r, ks).locks == r.locks - ks
  {}

  /** A confirm of a registered claim succeeds exactly when the ledger holds it open; a refusal
      leaves the ledger untouched, and reports expiry as such. */
  lemma ConfirmOutcome(db: Db, id: Id, m: Meta, postId: Id, refundId: Id, at: nat, g: Size)
    requires Sound(db) && Backed(db, id, m) && m.color <= MAX_COLOR && g.Contains(m.x, m.y)
    requires Fresh(db, postId) && Fresh(db, refundId) && postId != refundId
    ensures var (r, sts) := CreateTransfers(db, BuildConfirm(postId, refundId, id, m.x, m.y), at);
            && Sound(r)
            && (Unresolved(db, id) ==>
                  && OutcomeOf(sts) == Success && Keeps(db, r) && db.accounts.Keys <= r.accounts.Keys
                  && Fold(Blank(g), r.log, g) == Fold(Blank(g), db.log, g)[Index(m.x, m.y, g) := m.color + 1])
            && (!Unresolved(db, id) ==> r == db && OutcomeOf(sts) != Success)
            && (Timed(db, id) ==> OutcomeOf(sts) == ErrClaimExpired)
  {
    hide Create, CreateTransfers, Sound, Fold, Keeps;
    var ts := BuildConfirm(postId, refundId, id, m.x, m.y);
    var (r, sts) := CreateTransfers(db, ts, at);
    ConfirmKeeps(db, id, m.x, m.y, postId, refundId, at);
    ConfirmChain(db, postId, refundId, id, m.x, m.y, at);
    PostStatus(db, ts[0], at);
    OutcomeOfTwo(sts);
    if Unresolved(db, id) {
      ConfirmPaints(db, id, m, postId, refundId, at, g);
    }
  }

  lemma OutcomeOfTwo(sts: seq<Status>)
    requires |sts| == 2
    ensures OutcomeOf(sts) == if IdempotentSuccess(sts[0]) then OutcomeOf([sts[1]]) else OutcomeOf([sts[0]])
  {
    assert sts[1..] == [sts[1]];
  }

  lemma PostStatus(db: Db, t: Transfer, at: nat)
    requires Sound(db) && t.id !in db.transfers && t.flags.post && t.pendingId in db.transfers
    requires IsClaim(db.transfers[t.pendingId])
    ensures t.pendingId in db.fate
    ensures Create(db, t, at).1
            == match db.fate[t.pendingId] case Open => Created case Posted => AlreadyPosted case Voided => AlreadyVoided
               case Expired => PendingExpired
  {}

  /** Claims, index and every unexpired lock are as before, and no lock is new. */
  ghost predicate Undone(before: Table, after: Table, now: nat) {
    && after.claims == before.claims && after.byPlayer == before.byPlayer
    && (forall k :: k in before.locks && now < before.locks[k].expires ==> k in after.locks)
    && (forall k :: k in after.locks ==> k in before.locks && after.locks[k] == before.locks[k])
  }

  lemma RefusedIsUndone(r: Table, id: Id, m: Meta, expires: nat, now: nat)
    requires Paired(r) && LocksBacked(r) && id !in r.claims && !LockedByOther(r, m.At(), m.player, now)
    ensures var back := Rollback(Begin(r, id, m, expires), id, m, Supersedes(r, m.player));
            Undone(r, back, now) && Paired(back) && LocksBacked(back)
  {
    RefusedClaimRestores(r, id, m, expires, now);
    BackedClaimRestores(r, id, m, expires, now);
  }

  lemma UndoneBacked(db: Db, before: Table, after: Table, now: nat, g: Size)
    requires Undone(before, after, now) && AllBacked(db, before, g)
    ensures AllBacked(db, after, g)
  {}

  lemma FreshIsUnclaimed(db: Db, r: Table, id: Id, g: Size)
    requires Fresh(db, id) && AllBacked(db, r, g)
    ensures id !in r.claims
  {}

  lemma SupersededKnown(db: Db, r: Table, player: Player, g: Size)
    requires AllBacked(db, r, g) && Supersedes(r, player).Some?
    ensures var id := Supersedes(r, player).value.id;
            id in r.claims && id in db.transfers && IsClaim(db.transfers[id])
  {}

  lemma BegunBacked(db: Db, r: Table, id: Id, m: Meta, expires: nat, g: Size)
    requires AllBacked(db, r, g) && Backed(db, id, m) && m.color <= MAX_COLOR && g.Contains(m.x, m.y)
    ensures AllBacked(db, Begin(r, id, m, expires), g)
  {}

  predicate Unresolved(db: Db, id: Id) {
    id in db.fate && db.fate[id] == Open
  }
}
