/** The ledger as the game uses it: accounts with the debit rule, two-phase transfers that resolve
    once, linked chains, and a history in timestamp order. */
module TigerBeetle {
  import opened Canvas

  /** `capped` is the flag debits_must_not_exceed_credits. */
  datatype Account = Account(debitsPending: int, debitsPosted: int, creditsPending: int, creditsPosted: int, capped: bool)

  datatype Fate = Open | Posted | Voided | Expired

  datatype Status = Created | Exists | ExistsDifferent | LinkedEventFailed | LinkedChainOpen | AccountNotFound | AccountsMustDiffer
                  | ExceedsCredits | PendingNotFound | PendingNotPending | AlreadyPosted | AlreadyVoided | PendingExpired

  datatype Db = Db(accounts: map<nat, Account>, transfers: map<nat, Transfer>, fate: map<nat, Fate>, log: seq<Transfer>, clock: nat)

  const EMPTY_DB := Db(map[], map[], map[], [], 0)

  function Stamp(db: Db, at: nat): (s: nat)
    ensures db.clock < s
  {
    if db.clock < at then at else db.clock + 1
  }

  function SameRequest(t: Transfer, u: Transfer): bool {
    t.(timestamp := 0) == u.(timestamp := 0)
  }

  function Store(db: Db, t: Transfer): Db {
    db.(transfers := db.transfers[t.id := t], log := db.log + [t], clock := t.timestamp)
  }

  /** Moves the amount of a transfer between its two accounts. */
  function Move(db: Db, debit: nat, credit: nat, pending: int, posted: int): Db
    requires debit in db.accounts && credit in db.accounts
  {
    var d := db.accounts[debit];
    var a := db.accounts[debit := d.(debitsPending := d.debitsPending + pending, debitsPosted := d.debitsPosted + posted)];
    var c := a[credit];
    db.(accounts := a[credit := c.(creditsPending := c.creditsPending + pending, creditsPosted := c.creditsPosted + posted)])
  }

  /** A transfer that is not a resolution: reserves if pending, moves at once otherwise. */
  function CreatePlain(db: Db, t: Transfer, at: nat): (Db, Status) {
    if t.debit !in db.accounts || t.credit !in db.accounts then (db, AccountNotFound)
    else if t.debit == t.credit then (db, AccountsMustDiffer)
    else
      var d := db.accounts[t.debit];
      if d.capped && d.debitsPending + d.debitsPosted + t.amount > d.creditsPosted then (db, ExceedsCredits)
      else
        var moved := Move(db, t.debit, t.credit, if t.flags.pending then t.amount else 0, if t.flags.pending then 0 else t.amount);
        var stored := Store(moved, t.(timestamp := Stamp(db, at)));
        (if t.flags.pending then stored.(fate := stored.fate[t.id := Open]) else stored, Created)
  }

  /** A post or void leg: releases the reservation, posts it if asked, copies the pending's fields. */
  function Resolve(db: Db, t: Transfer, at: nat): (Db, Status) {
    if t.pendingId !in db.transfers then (db, PendingNotFound)
    else
      var p := db.transfers[t.pendingId];
      if !p.flags.pending || p.id !in db.fate || p.debit !in db.accounts || p.credit !in db.accounts then (db, PendingNotPending)
      else
        match db.fate[p.id]
        case Posted => (db, AlreadyPosted)
        case Voided => (db, AlreadyVoided)
        case Expired => (db, PendingExpired)
        case Open =>
          var moved := Move(db, p.debit, p.credit, 0 - p.amount, if t.flags.post then p.amount else 0);
          var leg := t.(debit := p.debit, credit := p.credit, amount := p.amount, code := p.code, ledger := p.ledger,
                        player := p.player, timestamp := Stamp(db, at));
          (Store(moved, leg).(fate := db.fate[p.id := if t.flags.post then Posted else Voided]), Created)
  }

  function Create(db: Db, t: Transfer, at: nat): (Db, Status) {
    if t.id in db.transfers then (db, if SameRequest(t, db.transfers[t.id]) then Exists else ExistsDifferent)
    else if t.flags.post || t.flags.void then Resolve(db, t, at)
    else CreatePlain(db, t, at)
  }

  /** The timeout of a pending transfer, at some moment after it was made. */
  function Expire(db: Db, id: nat): Db {
    if id !in db.transfers || id !in db.fate || db.fate[id] != Open then db
    else
      var p := db.transfers[id];
      if p.debit !in db.accounts || p.credit !in db.accounts then db
      else Move(db, p.debit, p.credit, 0 - p.amount, 0).(fate := db.fate[id := Expired])
  }

  /** A chain: applied event by event, and only if every one of them is created. */
  function RunChain(db: Db, chain: seq<Transfer>, at: nat): (Db, seq<Status>)
    ensures |RunChain(db, chain, at).1| == |chain|
    decreases |chain|
  {
    if chain == [] then (db, [])
    else
      var (next, st) := Create(db, chain[0], at);
      if st != Created then (next, [st] + seq(|chain| - 1, _ => LinkedEventFailed))
      else
        var (last, rest) := RunChain(next, chain[1..], at);
        (last, [st] + rest)
  }

  function ChainLength(ts: seq<Transfer>): (n: nat)
    requires ts != []
    ensures 0 < n <= |ts|
    decreases |ts|
  {
    if ts[0].flags.linked && |ts| > 1 then 1 + ChainLength(ts[1..]) else 1
  }

  function Chain(db: Db, chain: seq<Transfer>, at: nat): (Db, seq<Status>)
    requires chain != []
    ensures |Chain(db, chain, at).1| == |chain|
  {
    if chain[|chain| - 1].flags.linked then (db, seq(|chain| - 1, _ => LinkedEventFailed) + [LinkedChainOpen])
    else
      var (done, sts) := RunChain(db, chain, at);
      if forall i :: 0 <= i < |sts| ==> sts[i] == Created then (done, sts)
      else (db, seq(|sts|, i requires 0 <= i < |sts| => if sts[i] == Created then LinkedEventFailed else sts[i]))
  }

  /** One request: its chains in order, each all or nothing, one status per event. */
  function CreateTransfers(db: Db, ts: seq<Transfer>, at: nat): (Db, seq<Status>)
    ensures |CreateTransfers(db, ts, at).1| == |ts|
    decreases |ts|
  {
    if ts == [] then (db, [])
    else
      var n := ChainLength(ts);
      var (next, sts) := Chain(db, ts[..n], at);
      var (last, rest) := CreateTransfers(next, ts[n..], at);
      (last, sts + rest)
  }

  datatype AccountStatus = AccountCreated | AccountExists | AccountDiffers

  function CreateAccount(db: Db, id: nat, capped: bool): (Db, AccountStatus) {
    if id in db.accounts then (db, if db.accounts[id].capped == capped then AccountExists else AccountDiffers)
    else (db.(accounts := db.accounts[id := Account(0, 0, 0, 0, capped)]), AccountCreated)
  }

  function Shifted(a: Account, debitsPending: int, debitsPosted: int, creditsPending: int, creditsPosted: int): Account {
    Account(a.debitsPending + debitsPending, a.debitsPosted + debitsPosted, a.creditsPending + creditsPending,
            a.creditsPosted + creditsPosted, a.capped)
  }

  /** The accounts after a move between two different ones. */
  ghost predicate Moved(a: map<nat, Account>, b: map<nat, Account>, debit: nat, credit: nat, pending: int, posted: int) {
    && a.Keys == b.Keys && debit in a && credit in a
    && b[debit] == Shifted(a[debit], pending, posted, 0, 0)
    && b[credit] == Shifted(a[credit], 0, 0, pending, posted)
    && forall q :: q in a && q != debit && q != credit ==> b[q] == a[q]
  }

  lemma MoveMoves(db: Db, debit: nat, credit: nat, pending: int, posted: int)
    requires debit in db.accounts && credit in db.accounts && debit != credit
    ensures Moved(db.accounts, Move(db, debit, credit, pending, posted).accounts, debit, credit, pending, posted)
  {}

  /** The debit would take a capped account's pending and posted debits past its posted credits. */
  predicate Exceeds(db: Db, t: Transfer)
    requires t.debit in db.accounts
  {
    var d := db.accounts[t.debit];
    d.capped && d.debitsPending + d.debitsPosted + t.amount > d.creditsPosted
  }

  lemma CreatePlainEffect(db: Db, t: Transfer, at: nat)
    requires t.id !in db.transfers && !t.flags.post && !t.flags.void
    ensures var (r, st) := Create(db, t, at);
            var stored := t.(timestamp := Stamp(db, at));
            && (st != Created ==> r == db)
            && (st == Created <==> t.debit in db.accounts && t.credit in db.accounts && t.debit != t.credit && !Exceeds(db, t))
            && (st == ExceedsCredits <==> t.debit in db.accounts && t.credit in db.accounts && t.debit != t.credit && Exceeds(db, t))
            && (st == Created ==>
                  && r.transfers == db.transfers[t.id := stored] && r.log == db.log + [stored] && r.clock == stored.timestamp
                  && r.fate == (if t.flags.pending then db.fate[t.id := Open] else db.fate)
                  && Moved(db.accounts, r.accounts, t.debit, t.credit, if t.flags.pending then t.amount else 0,
                           if t.flags.pending then 0 else t.amount))
  {
    if t.debit in db.accounts && t.credit in db.accounts && t.debit != t.credit {
      MoveMoves(db, t.debit, t.credit, if t.flags.pending then t.amount else 0, if t.flags.pending then 0 else t.amount);
    }
  }

  /** A pending transfer nothing has resolved. */
  predicate Resolvable(db: Db, p: Transfer) {
    p.flags.pending && p.id in db.fate && db.fate[p.id] == Open && p.debit in db.accounts && p.credit in db.accounts
  }

  /** A leg of an open pending releases it, and posts it if the leg is a post. */
  lemma ResolveEffect(db: Db, t: Transfer, at: nat)
    requires t.id !in db.transfers && (t.flags.post || t.flags.void)
    ensures var (r, st) := Create(db, t, at);
            && (st != Created ==> r == db)
            && (st == Created <==> t.pendingId in db.transfers && Resolvable(db, db.transfers[t.pendingId]))
            && (st == Created ==>
                  var p := db.transfers[t.pendingId];
                     var leg := t.(debit := p.debit, credit := p.credit, amount := p.amount, code := p.code, ledger := p.ledger,
                                   player := p.player, timestamp := Stamp(db, at));
                     && r.transfers == db.transfers[t.id := leg] && r.log == db.log + [leg] && r.clock == leg.timestamp
                     && r.fate == db.fate[p.id := if t.flags.post then Posted else Voided]
                     && (p.debit != p.credit ==> Moved(db.accounts, r.accounts, p.debit, p.credit, 0 - p.amount,
                                                       if t.flags.post then p.amount else 0)))
  {
    var (r, st) := Create(db, t, at);
    if st == Created {
      var p := db.transfers[t.pendingId];
      if p.debit != p.credit {
        MoveMoves(db, p.debit, p.credit, 0 - p.amount, if t.flags.post then p.amount else 0);
      }
    }
  }

  lemma ExpireEffect(db: Db, id: nat)
    ensures var r := Expire(db, id);
            && r.transfers == db.transfers && r.log == db.log && r.clock == db.clock
            && (r != db <==>
                  && id in db.transfers && id in db.fate && db.fate[id] == Open
                  && db.transfers[id].debit in db.accounts && db.transfers[id].credit in db.accounts)
            && (r != db ==>
                  && r.fate == db.fate[id := Expired]
                  && var p := db.transfers[id];
                     p.debit != p.credit ==> Moved(db.accounts, r.accounts, p.debit, p.credit, 0 - p.amount, 0))
  {
    var r := Expire(db, id);
    assert id in r.fate && r.fate[id] == Expired && (id !in db.fate || db.fate[id] != Expired) ==> r != db;
    if r != db {
      var p := db.transfers[id];
      if p.debit != p.credit {
        MoveMoves(db, p.debit, p.credit, 0 - p.amount, 0);
      }
    }
  }
}
