/** The server's in-memory claim registry and lock table: each region the server runs under its
    mutex is one function, and whole interleavings of them keep the registry consistent. */
module Registry {
  import opened Bytes
  import opened Canvas

  type Cell = (u32, u32)
  type Player = nat
  type Id = nat

  datatype Lock = Lock(player: Player, expires: nat)
  datatype Meta = Meta(x: u32, y: u32, color: byte, player: Player) {
    function At(): Cell { (x, y) }
  }

  datatype Table = Table(claims: map<Id, Meta>, byPlayer: map<Player, Id>, locks: map<Cell, Lock>)

  const EMPTY_TABLE := Table(map[], map[], map[])

  /** The claim a call superseded, with the lock its cell had, kept for a rollback. */
  datatype Superseded = Superseded(id: Id, meta: Meta, hadLock: Option<Lock>)

  predicate LockedByOther(r: Table, key: Cell, player: Player, now: nat) {
    key in r.locks && now < r.locks[key].expires && r.locks[key].player != player
  }

  function Vacate(r: Table, id: Id, key: Cell): Table {
    if id !in r.claims then r
    else
      var m := r.claims[id];
      Table(r.claims - {id},
            if m.player in r.byPlayer && r.byPlayer[m.player] == id then r.byPlayer - {m.player} else r.byPlayer,
            if key in r.locks && r.locks[key].player == m.player then r.locks - {key} else r.locks)
  }

  function Supersedes(r: Table, player: Player): Option<Superseded> {
    if player in r.byPlayer && r.byPlayer[player] in r.claims then
      var id := r.byPlayer[player];
      var m := r.claims[id];
      Some(Superseded(id, m, if m.At() in r.locks then Some(r.locks[m.At()]) else None))
    else None
  }

  /** Claim, first region: vacate the player's claim, register and lock the new one. */
  function Begin(r: Table, id: Id, m: Meta, expires: nat): Table {
    var v := match Supersedes(r, m.player) case None => r case Some(s) => Vacate(r, s.id, s.meta.At());
    Table(v.claims[id := m], v.byPlayer[m.player := id], v.locks[m.At() := Lock(m.player, expires)])
  }

  /** Claim, second region, after the ledger refused: undo, restoring the superseded claim. */
  function Rollback(r: Table, id: Id, m: Meta, prev: Option<Superseded>): Table {
    var claims, locks := r.claims - {id}, r.locks - {m.At()};
    match prev
    case None => Table(claims, r.byPlayer - {m.player}, locks)
    case Some(s) => Table(claims[s.id := s.meta], r.byPlayer[m.player := s.id],
                          if s.hadLock.Some? then locks[s.meta.At() := s.hadLock.value] else locks)
  }

  /** The reaper's body for one expired lock. */
  function ReapOne(r: Table, key: Cell): Table
    requires key in r.locks
  {
    var p := r.locks[key].player;
    var v := if p in r.byPlayer && r.byPlayer[p] in r.claims && r.claims[r.byPlayer[p]].At() == key
             then Vacate(r, r.byPlayer[p], key) else r;
    v.(locks := v.locks - {key})
  }

  // ---- Invariants ----

  /** The claim registry and the player index are inverse to each other. */
  ghost predicate Paired(r: Table) {
    && (forall id :: id in r.claims ==> r.claims[id].player in r.byPlayer && r.byPlayer[r.claims[id].player] == id)
    && (forall p :: p in r.byPlayer ==> r.byPlayer[p] in r.claims && r.claims[r.byPlayer[p]].player == p)
  }

  /** Every lock belongs to its player's registered claim of that very cell. */
  ghost predicate LocksBacked(r: Table) {
    forall k :: k in r.locks ==>
      var p := r.locks[k].player;
      p in r.byPlayer && r.byPlayer[p] in r.claims && r.claims[r.byPlayer[p]].At() == k
  }

  lemma VacateKeeps(r: Table, id: Id, key: Cell)
    requires Paired(r)
    ensures Paired(Vacate(r, id, key))
    ensures LocksBacked(r) && (id in r.claims ==> r.claims[id].At() == key) ==> LocksBacked(Vacate(r, id, key))
  {}

  lemma BeginKeeps(r: Table, id: Id, m: Meta, expires: nat)
    requires Paired(r) && id !in r.claims
    ensures Paired(Begin(r, id, m, expires))
    ensures LocksBacked(r) ==> LocksBacked(Begin(r, id, m, expires))
  {
    match Supersedes(r, m.player)
    case None =>
    case Some(s) => VacateKeeps(r, s.id, s.meta.At());
  }

  /** The player's earlier claim and its lock are gone, the new claim is registered and its cell locked for the
      player; everyone else's claims and locks are as before, but for one on that cell. */
  ghost predicate Took(before: Table, after: Table, id: Id, m: Meta, expires: nat) {
    && (forall i :: i in after.claims <==> i == id || (i in before.claims && before.claims[i].player != m.player))
    && (forall i :: i in after.claims ==> after.claims[i] == if i == id then m else before.claims[i])
    && after.byPlayer == before.byPlayer[m.player := id]
    && (forall k :: k in after.locks <==> k == (m.x, m.y) || (k in before.locks && before.locks[k].player != m.player))
    && (forall k :: k in after.locks ==>
          after.locks[k] == if k == (m.x, m.y) then Lock(m.player, expires) else before.locks[k])
  }

  lemma BeginTakes(r: Table, id: Id, m: Meta, expires: nat)
    requires Paired(r) && LocksBacked(r) && id !in r.claims
    ensures Took(r, Begin(r, id, m, expires), id, m, expires)
    ensures if m.player in r.byPlayer then Supersedes(r, m.player).Some? && Supersedes(r, m.player).value.id == r.byPlayer[m.player]
            else Supersedes(r, m.player).None?
  {
    match Supersedes(r, m.player)
    case None =>
    case Some(s) =>
      assert (r.byPlayer - {m.player})[m.player := id] == r.byPlayer[m.player := id];
  }

  lemma ReapOneKeeps(r: Table, key: Cell)
    requires Paired(r) && key in r.locks
    ensures Paired(ReapOne(r, key))
    ensures LocksBacked(r) ==> LocksBacked(ReapOne(r, key))
  {
    var p := r.locks[key].player;
    if p in r.byPlayer && r.claims[r.byPlayer[p]].At() == key {
      VacateKeeps(r, r.byPlayer[p], key);
    }
  }

  /** The player has no claim of the cell already. */
  predicate Elsewhere(r: Table, m: Meta) {
    m.player in r.byPlayer && r.byPlayer[m.player] in r.claims ==> r.claims[r.byPlayer[m.player]].At() != m.At()
  }

  /** The cell holds an unexpired lock of the player, who has no claim of it: what is left when a refused
      call put back a lock it remembered and that lock's own call has been refused meanwhile. */
  predicate OrphanAt(r: Table, m: Meta, now: nat) {
    m.At() in r.locks && now < r.locks[m.At()].expires && r.locks[m.At()].player == m.player && Elsewhere(r, m)
  }

  ghost predicate UnexpiredSurvive(r: Table, back: Table, now: nat) {
    forall k :: k in r.locks && now < r.locks[k].expires ==> k in back.locks && back.locks[k] == r.locks[k]
  }

  /** A claim the ledger refuses leaves claims and index exactly as they were, makes up no lock, and leaves
      every unexpired lock as it was if and only if the cell holds no orphan of the player's. */
  lemma RefusedClaimRestores(r: Table, id: Id, m: Meta, expires: nat, now: nat)
    requires Paired(r) && id !in r.claims
    requires !LockedByOther(r, m.At(), m.player, now)
    ensures var back := Rollback(Begin(r, id, m, expires), id, m, Supersedes(r, m.player));
            && back.claims == r.claims && back.byPlayer == r.byPlayer
            && (forall k :: k in back.locks ==> k in r.locks && back.locks[k] == r.locks[k])
            && (UnexpiredSurvive(r, back, now) <==> !OrphanAt(r, m, now))
  {
    RestoresMaps(r, id, m, expires);
    RestoresAllBut(r, id, m, expires);
  }

  lemma RestoresMaps(r: Table, id: Id, m: Meta, expires: nat)
    requires Paired(r) && id !in r.claims
    ensures var back := Rollback(Begin(r, id, m, expires), id, m, Supersedes(r, m.player));
            back.claims == r.claims && back.byPlayer == r.byPlayer
  {
    var back := Rollback(Begin(r, id, m, expires), id, m, Supersedes(r, m.player));
    match Supersedes(r, m.player)
    case None =>
      assert back.claims == r.claims;
      assert back.byPlayer == r.byPlayer;
    case Some(s) =>
      var v := Vacate(r, s.id, s.meta.At());
      assert back.claims == v.claims[s.id := s.meta] == r.claims;
      assert back.byPlayer == r.byPlayer;
  }

  /** The one lock a refused claim may cost is its own cell's. */
  lemma RestoresAllBut(r: Table, id: Id, m: Meta, expires: nat)
    requires Paired(r) && id !in r.claims
    ensures var back := Rollback(Begin(r, id, m, expires), id, m, Supersedes(r, m.player));
            && (forall k :: k in back.locks <==> k in r.locks && (k == m.At() ==> !Elsewhere(r, m)))
            && (forall k :: k in back.locks ==> back.locks[k] == r.locks[k])
  {
    match Supersedes(r, m.player)
    case None =>
    case Some(s) =>
  }

  /** Where every lock is backed by its player's claim, as on a server whose calls do not overlap, there is
      no orphan, and the locks come back whole but for an expired lock of another player on the cell. */
  lemma BackedClaimRestores(r: Table, id: Id, m: Meta, expires: nat, now: nat)
    requires Paired(r) && LocksBacked(r) && id !in r.claims
    requires !LockedByOther(r, m.At(), m.player, now)
    ensures !OrphanAt(r, m, now)
    ensures var back := Rollback(Begin(r, id, m, expires), id, m, Supersedes(r, m.player));
            back.locks == if m.At() in r.locks && r.locks[m.At()].player != m.player && Elsewhere(r, m) then r.locks - {m.At()}
                          else r.locks
  {
    RestoresAllBut(r, id, m, expires);
  }

  // ---- Reaping ----

  /** The claim is backed by one of the given locks. */
  predicate BackedIn(r: Table, id: Id, ks: set<Cell>) {
    id in r.claims && r.claims[id].At() in ks && r.claims[id].At() in r.locks
    && r.locks[r.claims[id].At()].player == r.claims[id].player
  }

  /** Everything the given locks stand for is gone, nothing else. */
  function Without(r: Table, ks: set<Cell>): Table {
    Table(map id | id in r.claims && !BackedIn(r, id, ks) :: r.claims[id],
          map p | p in r.byPlayer && !BackedIn(r, r.byPlayer[p], ks) :: r.byPlayer[p],
          r.locks - ks)
  }

  /** Reaping lock by lock, in any order, removes exactly what the reaped locks stand for. */
  lemma ReapOneMore(r: Table, ks: set<Cell>, key: Cell)
    requires Paired(r) && LocksBacked(r) && key in r.locks && key !in ks
    ensures ReapOne(Without(r, ks), key) == Without(r, ks + {key})
  {
    var w := Without(r, ks);
    var p := r.locks[key].player;
    var id := r.byPlayer[p];
    assert w.locks[key] == r.locks[key];
    assert id in w.claims && w.byPlayer[p] == id;
    var one, all := ReapOne(w, key), Without(r, ks + {key});
    assert forall i :: i in r.claims && BackedIn(r, i, {key}) ==> i == id;
    assert one.claims == all.claims;
    assert one.byPlayer == all.byPlayer;
    assert one.locks == all.locks;
  }

  // ---- Interleavings ----

  /** A call between its first region and its last. */
  datatype Call = Claiming(id: Id, meta: Meta, prev: Option<Superseded>) | Resolving(id: Id)

  datatype Server = Server(table: Table, calls: map<Player, Call>, used: map<Id, Player>)

  /** Each step is one region, or the moment a submit comes back. */
  datatype Step =
    | ClaimBegins(id: Id, meta: Meta, now: nat, expires: nat)
    | ClaimRefused(player: Player)
    | ClaimLands(player: Player)
    | ResolveBegins(player: Player, id: Id)
    | ResolveFails(player: Player)
    | ResolveLands(player: Player)
    | Reaps(key: Cell, now: nat)

  /** Fresh claim ids, and at most one call in flight per player. */
  predicate Enabled(s: Server, step: Step) {
    match step
    case ClaimBegins(id, m, _, _) => id !in s.used && m.player !in s.calls
    case ClaimRefused(p) => p in s.calls && s.calls[p].Claiming?
    case ClaimLands(p) => p in s.calls && s.calls[p].Claiming?
    case ResolveBegins(p, _) => p !in s.calls
    case ResolveFails(p) => p in s.calls && s.calls[p].Resolving?
    case ResolveLands(p) => p in s.calls && s.calls[p].Resolving?
    case Reaps(key, now) => key in s.table.locks && s.table.locks[key].expires < now
  }

  function Take(s: Server, step: Step): Server
    requires Enabled(s, step)
  {
    match step
    case ClaimBegins(id, m, now, expires) =>
      if LockedByOther(s.table, m.At(), m.player, now) then s
      else Server(Begin(s.table, id, m, expires), s.calls[m.player := Claiming(id, m, Supersedes(s.table, m.player))], s.used[id := m.player])
    case ClaimRefused(p) =>
      var c := s.calls[p];
      s.(table := Rollback(s.table, c.id, c.meta, c.prev), calls := s.calls - {p})
    case ClaimLands(p) => s.(calls := s.calls - {p})
    case ResolveBegins(p, id) =>
      if id in s.table.claims && s.table.claims[id].player == p then s.(calls := s.calls[p := Resolving(id)]) else s
    case ResolveFails(p) => s.(calls := s.calls - {p})
    case ResolveLands(p) =>
      var id := s.calls[p].id;
      s.(table := if id in s.table.claims then Vacate(s.table, id, s.table.claims[id].At()) else s.table, calls := s.calls - {p})
    case Reaps(key, _) => s.(table := ReapOne(s.table, key))
  }

  /** A player whose claim is in flight has that claim or none; what it superseded is out of the registry. */
  ghost predicate InFlight(s: Server) {
    && (forall id :: id in s.table.claims ==> id in s.used && s.used[id] == s.table.claims[id].player)
    && (forall p :: p in s.calls && s.calls[p].Claiming? ==>
          var c := s.calls[p];
          && c.meta.player == p && c.id in s.used && s.used[c.id] == p
          && (p in s.table.byPlayer ==> s.table.byPlayer[p] == c.id)
          && (c.prev.Some? ==> c.prev.value.meta.player == p && c.prev.value.id !in s.table.claims && c.prev.value.id in s.used && s.used[c.prev.value.id] == p))
  }

  lemma BeginsInFlight(s: Server, id: Id, m: Meta, now: nat, expires: nat)
    requires Paired(s.table) && InFlight(s) && Enabled(s, ClaimBegins(id, m, now, expires))
    ensures InFlight(Take(s, ClaimBegins(id, m, now, expires)))
  {}

  lemma RefusedKeeps(s: Server, p: Player)
    requires Paired(s.table) && InFlight(s) && Enabled(s, ClaimRefused(p))
    ensures Paired(Take(s, ClaimRefused(p)).table) && InFlight(Take(s, ClaimRefused(p)))
  {}

  lemma VacateInFlight(s: Server, id: Id, key: Cell)
    requires Paired(s.table) && InFlight(s)
    ensures InFlight(s.(table := Vacate(s.table, id, key)))
  {}

  lemma CallEnds(s: Server, p: Player)
    requires InFlight(s)
    ensures InFlight(s.(calls := s.calls - {p}))
  {}

  lemma StepKeeps(s: Server, step: Step)
    requires Paired(s.table) && InFlight(s) && Enabled(s, step)
    ensures Paired(Take(s, step).table) && InFlight(Take(s, step))
  {
    hide Paired, InFlight, Begin, Rollback, Vacate;
    match step
    case ClaimBegins(id, m, now, expires) =>
      NotUsedNotClaimed(s, id);
      BeginKeeps(s.table, id, m, expires);
      BeginsInFlight(s, id, m, now, expires);
    case ClaimRefused(p) => RefusedKeeps(s, p);
    case ClaimLands(p) => CallEnds(s, p);
    case ResolveBegins(p, id) => ResolvingInFlight(s, p, id);
    case ResolveFails(p) => CallEnds(s, p);
    case ResolveLands(p) =>
      var id := s.calls[p].id;
      if id in s.table.claims {
        VacateKeeps(s.table, id, s.table.claims[id].At());
        VacateInFlight(s, id, s.table.claims[id].At());
        CallEnds(s.(table := Vacate(s.table, id, s.table.claims[id].At())), p);
      } else {
        CallEnds(s, p);
      }
    case Reaps(key, _) =>
      ReapOneKeeps(s.table, key);
      ReapInFlight(s, key);
  }

  lemma NotUsedNotClaimed(s: Server, id: Id)
    requires InFlight(s) && id !in s.used
    ensures id !in s.table.claims
  {}

  lemma ResolvingInFlight(s: Server, p: Player, id: Id)
    requires InFlight(s) && p !in s.calls
    ensures InFlight(s.(calls := s.calls[p := Resolving(id)]))
  {}

  lemma ReapInFlight(s: Server, key: Cell)
    requires Paired(s.table) && InFlight(s) && key in s.table.locks
    ensures InFlight(s.(table := ReapOne(s.table, key)))
  {
    var p := s.table.locks[key].player;
    if p in s.table.byPlayer {
      VacateInFlight(s, s.table.byPlayer[p], key);
    }
  }

  predicate Runs(s: Server, steps: seq<Step>)
    decreases |steps|
  {
    steps == [] || (Enabled(s, steps[0]) && Runs(Take(s, steps[0]), steps[1..]))
  }

  function After(s: Server, steps: seq<Step>): Server
    requires Runs(s, steps)
    decreases |steps|
  {
    if steps == [] then s else After(Take(s, steps[0]), steps[1..])
  }

  /** At every point of every interleaving of calls and reaper, registry and index are inverse. */
  lemma {:induction false} InterleavingsPaired(s: Server, steps: seq<Step>)
    requires Paired(s.table) && InFlight(s) && Runs(s, steps)
    ensures Paired(After(s, steps).table) && InFlight(After(s, steps))
    decreases |steps|
  {
    if steps != [] {
      StepKeeps(s, steps[0]);
      InterleavingsPaired(Take(s, steps[0]), steps[1..]);
    }
  }

  /** A life that leaves an orphan: A claims a cell and its lock runs out; B claims the cell; A claims
      elsewhere and remembers B's lock as its own old one; both are refused, B first, and A's refusal puts
      B's lock back. */
  function OrphanStep(k: nat): Step {
    match k
    case 0 => ClaimBegins(10, Meta(0, 0, 0, 1), 0, 3)
    case 1 => ClaimLands(1)
    case 2 => ClaimBegins(20, Meta(0, 0, 0, 2), 4, 7)
    case 3 => ClaimBegins(11, Meta(1, 0, 0, 1), 4, 7)
    case 4 => ClaimRefused(2)
    case _ => ClaimRefused(1)
  }

  /** The server before each of those steps, and after the last. */
  function OrphanState(k: nat): Server {
    var a, b, c := Meta(0, 0, 0, 1), Meta(0, 0, 0, 2), Meta(1, 0, 0, 1);
    var late: Lock := Lock(2, 7);
    var took := Claiming(11, c, Some(Superseded(10, a, Some(late))));
    match k
    case 0 => Server(EMPTY_TABLE, map[], map[])
    case 1 => Server(Table(map[10 := a], map[1 := 10], map[(0, 0) := Lock(1, 3)]), map[1 := Claiming(10, a, None)], map[10 := 1])
    case 2 => Server(Table(map[10 := a], map[1 := 10], map[(0, 0) := Lock(1, 3)]), map[], map[10 := 1])
    case 3 => Server(Table(map[10 := a, 20 := b], map[1 := 10, 2 := 20], map[(0, 0) := late]), map[2 := Claiming(20, b, None)],
                     map[10 := 1, 20 := 2])
    case 4 => Server(Table(map[11 := c, 20 := b], map[1 := 11, 2 := 20], map[(0, 0) := late, (1, 0) := Lock(1, 7)]),
                     map[1 := took, 2 := Claiming(20, b, None)], map[10 := 1, 11 := 1, 20 := 2])
    case 5 => Server(Table(map[11 := c], map[1 := 11], map[(1, 0) := Lock(1, 7)]), map[1 := took], map[10 := 1, 11 := 1, 20 := 2])
    case _ => Server(Table(map[10 := a], map[1 := 10], map[(0, 0) := late]), map[], map[10 := 1, 11 := 1, 20 := 2])
  }

  lemma OrphanBegins()
    ensures Enabled(OrphanState(0), OrphanStep(0)) && Take(OrphanState(0), OrphanStep(0)) == OrphanState(1)
    ensures Enabled(OrphanState(1), OrphanStep(1)) && Take(OrphanState(1), OrphanStep(1)) == OrphanState(2)
  {}

  lemma OrphanLocks()
    ensures Enabled(OrphanState(2), OrphanStep(2)) && Take(OrphanState(2), OrphanStep(2)) == OrphanState(3)
  {}

  lemma OrphanVacates()
    ensures Supersedes(OrphanState(3).table, 1) == Some(Superseded(10, Meta(0, 0, 0, 1), Some(Lock(2, 7))))
    ensures Vacate(OrphanState(3).table, 10, (0, 0))
            == Table(map[20 := Meta(0, 0, 0, 2)], map[2 := 20], map[(0, 0) := Lock(2, 7)])
  {
    var v := Vacate(OrphanState(3).table, 10, (0, 0));
    assert v.claims == map[20 := Meta(0, 0, 0, 2)];
    assert v.byPlayer == map[2 := 20];
  }

  lemma OrphanMovesTable()
    ensures Begin(OrphanState(3).table, 11, Meta(1, 0, 0, 1), 7) == OrphanState(4).table
  {
    hide Vacate, Supersedes;
    OrphanVacates();
    var t := Begin(OrphanState(3).table, 11, Meta(1, 0, 0, 1), 7);
    assert t.claims == OrphanState(4).table.claims;
    assert t.byPlayer == OrphanState(4).table.byPlayer;
    assert t.locks == OrphanState(4).table.locks;
  }

  lemma OrphanMovesCalls()
    ensures var prev := Supersedes(OrphanState(3).table, 1);
            && OrphanState(3).calls[1 := Claiming(11, Meta(1, 0, 0, 1), prev)] == OrphanState(4).calls
            && OrphanState(3).used[11 := 1] == OrphanState(4).used
  {
    hide Supersedes, Vacate;
    OrphanVacates();
    InsertAfter(2, Claiming(20, Meta(0, 0, 0, 2), None),
                1, Claiming(11, Meta(1, 0, 0, 1), Supersedes(OrphanState(3).table, 1)));
    assert map[10 := 1, 20 := 2][11 := 1] == map[10 := 1, 11 := 1, 20 := 2];
  }

  lemma InsertAfter<K, V>(k: K, v: V, l: K, w: V)
    requires k != l
    ensures map[k := v][l := w] == map[l := w, k := v]
  {}

  lemma TakeBegins(s: Server, id: Id, m: Meta, now: nat, expires: nat)
    requires Enabled(s, ClaimBegins(id, m, now, expires)) && !LockedByOther(s.table, m.At(), m.player, now)
    ensures Take(s, ClaimBegins(id, m, now, expires))
            == Server(Begin(s.table, id, m, expires), s.calls[m.player := Claiming(id, m, Supersedes(s.table, m.player))],
                      s.used[id := m.player])
  {
    hide Begin, Supersedes;
  }

  lemma OrphanMoves()
    ensures Enabled(OrphanState(3), OrphanStep(3)) && Take(OrphanState(3), OrphanStep(3)) == OrphanState(4)
  {
    hide Begin, Supersedes, Vacate, Take;
    OrphanMovesTable();
    OrphanMovesCalls();
    TakeBegins(OrphanState(3), 11, Meta(1, 0, 0, 1), 4, 7);
  }

  lemma OrphanLosesClaim()
    ensures Enabled(OrphanState(4), OrphanStep(4)) && Take(OrphanState(4), OrphanStep(4)) == OrphanState(5)
  {
    var s := OrphanState(4);
    var t := Rollback(s.table, 20, Meta(0, 0, 0, 2), None);
    assert t.claims == OrphanState(5).table.claims;
    assert t.byPlayer == OrphanState(5).table.byPlayer;
    assert t.locks == OrphanState(5).table.locks;
    assert s.calls - {2} == OrphanState(5).calls;
  }

  lemma OrphanPutBack()
    ensures Enabled(OrphanState(5), OrphanStep(5)) && Take(OrphanState(5), OrphanStep(5)) == OrphanState(6)
  {
    var s := OrphanState(5);
    var t := Rollback(s.table, 11, Meta(1, 0, 0, 1), s.calls[1].prev);
    assert t.claims == OrphanState(6).table.claims;
    assert t.byPlayer == OrphanState(6).table.byPlayer;
    assert t.locks == OrphanState(6).table.locks;
    assert s.calls - {1} == OrphanState(6).calls;
  }

  /** So orphans are reached even with one call in flight for each player, and nothing is in flight then;
      B's next claim of the cell, alone and refused, costs B an unexpired lock. */
  lemma OrphanReached()
    ensures var idle := Server(EMPTY_TABLE, map[], map[]);
            var steps := [OrphanStep(0), OrphanStep(1), OrphanStep(2), OrphanStep(3), OrphanStep(4), OrphanStep(5)];
            var b := Meta(0, 0, 0, 2);
            && Runs(idle, steps)
            && var r := After(idle, steps);
               && r.calls == map[] && Paired(r.table)
               && !LockedByOther(r.table, b.At(), 2, 5) && OrphanAt(r.table, b, 5)
               && !UnexpiredSurvive(r.table, Rollback(Begin(r.table, 21, b, 8), 21, b, Supersedes(r.table, 2)), 5)
  {
    hide Runs, After, Take, Enabled, OrphanStep, Begin, Rollback, Supersedes;
    OrphanBegins();
    OrphanLocks();
    OrphanMoves();
    OrphanLosesClaim();
    OrphanPutBack();
    SixSteps(OrphanState(0), OrphanStep(0), OrphanStep(1), OrphanStep(2), OrphanStep(3), OrphanStep(4), OrphanStep(5));
    RefusedClaimRestores(OrphanState(6).table, 21, Meta(0, 0, 0, 2), 8, 5);
  }

  lemma SixSteps(s: Server, a: Step, b: Step, c: Step, d: Step, e: Step, f: Step)
    requires Enabled(s, a) && Enabled(Take(s, a), b) && Enabled(Take(Take(s, a), b), c)
    requires Enabled(Take(Take(Take(s, a), b), c), d) && Enabled(Take(Take(Take(Take(s, a), b), c), d), e)
    requires Enabled(Take(Take(Take(Take(Take(s, a), b), c), d), e), f)
    ensures Runs(s, [a, b, c, d, e, f])
    ensures After(s, [a, b, c, d, e, f]) == Take(Take(Take(Take(Take(Take(s, a), b), c), d), e), f)
  {
    hide Enabled, Take;
    RunsFirst(Take(Take(Take(Take(Take(s, a), b), c), d), e), f, []);
    RunsFirst(Take(Take(Take(Take(s, a), b), c), d), e, [f]);
    RunsFirst(Take(Take(Take(s, a), b), c), d, [e, f]);
    RunsFirst(Take(Take(s, a), b), c, [d, e, f]);
    RunsFirst(Take(s, a), b, [c, d, e, f]);
    RunsFirst(s, a, [b, c, d, e, f]);
  }

  lemma RunsFirst(s: Server, a: Step, rest: seq<Step>)
    requires Enabled(s, a) && Runs(Take(s, a), rest)
    ensures Runs(s, [a] + rest) && After(s, [a] + rest) == After(Take(s, a), rest)
  {
    assert ([a] + rest)[1..] == rest;
  }

  /** Without the one-call rule the pairing is always lost: a player's refused claim erases the index entry
      of the claim they made meanwhile. */
  lemma OverlapUnpairs(r: Table, first: Id, m: Meta, e: nat, second: Id, n: Meta, f: nat)
    requires Paired(r) && first !in r.claims && second !in r.claims && first != second && m.player == n.player
    ensures var both := Begin(Begin(r, first, m, e), second, n, f);
            !Paired(Rollback(both, first, m, Supersedes(r, m.player)))
  {
    var back := Rollback(Begin(Begin(r, first, m, e), second, n, f), first, m, Supersedes(r, m.player));
    assert second in back.claims && back.claims[second].player == m.player;
    assert m.player !in back.byPlayer || back.byPlayer[m.player] != second;
  }
}
