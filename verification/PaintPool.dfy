/** The paint worker pool as a state machine over its channel operations and atomic counters, for runs
    that are not cancelled. Placements are numbered; a job is a placement with its failures so far. */
module PaintPool {

  const MAX_PAINT_RETRIES := 3

  datatype Job = Job(id: nat, attempts: nat)

  datatype Worker =
    | Idle                 // at the select
    | Claiming(job: Job)   // claim and confirm in flight
    | Painted(job: Job)    // counted as painted, `remaining` not yet decremented
    | Closing              // took `remaining` to zero, about to close doneCh
    | Stopped

  /** A retry goroutine: before or after its back-off timer. */
  datatype Retry = Retry(job: Job, fired: bool)

  /** How a placement was finished: painted or given up, and after how many failures before the last claim. */
  datatype End = End(id: nat, gaveUp: bool, attempts: nat)

  datatype State = State(
    total: nat, queue: seq<Job>, workers: seq<Worker>, retries: seq<Retry>,
    remaining: int, painted: nat, gaveUp: nat, claims: nat,
    onceDone: bool, closes: nat,
    ended: seq<End>, tries: map<nat, nat>)

  datatype Action =
    | Take(w: nat) | Succeed(w: nat) | Decrement(w: nat) | Fail(w: nat) | Close(w: nat) | Leave(w: nat)
    | Fire(k: nat) | Push(k: nat) | Drop(k: nat)

  predicate Closed(s: State) {
    s.closes > 0
  }

  predicate Enabled(s: State, a: Action) {
    match a
    case Take(w) => w < |s.workers| && s.workers[w].Idle? && s.queue != []
    case Succeed(w) => w < |s.workers| && s.workers[w].Claiming?
    case Decrement(w) => w < |s.workers| && s.workers[w].Painted?
    case Fail(w) => w < |s.workers| && s.workers[w].Claiming?
    case Close(w) => w < |s.workers| && s.workers[w].Closing?
    case Leave(w) => w < |s.workers| && s.workers[w].Idle? && Closed(s)
    case Fire(k) => k < |s.retries| && !s.retries[k].fired
    case Push(k) => k < |s.retries| && s.retries[k].fired && |s.queue| < s.total
    case Drop(k) => k < |s.retries| && Closed(s)
  }

  function Tries(s: State, id: nat): nat {
    if id in s.tries then s.tries[id] else 0
  }

  /** The atomic decrement that ends a placement; the worker that reaches zero goes on to close. */
  function Finish(s: State, w: nat, e: End): State
    requires w < |s.workers|
  {
    s.(workers := s.workers[w := if s.remaining - 1 == 0 then Closing else Idle],
       remaining := s.remaining - 1, ended := s.ended + [e])
  }

  function Without(rs: seq<Retry>, k: nat): seq<Retry>
    requires k < |rs|
  {
    rs[..k] + rs[k + 1..]
  }

  function Next(s: State, a: Action): State
    requires Enabled(s, a)
  {
    match a
    case Take(w) =>
      var j := s.queue[0];
      s.(queue := s.queue[1..], workers := s.workers[w := Claiming(j)], claims := s.claims + 1,
         tries := s.tries[j.id := Tries(s, j.id) + 1])
    case Succeed(w) =>
      s.(workers := s.workers[w := Painted(s.workers[w].job)], painted := s.painted + 1)
    case Decrement(w) => Finish(s, w, End(s.workers[w].job.id, false, s.workers[w].job.attempts))
    case Fail(w) =>
      var j := s.workers[w].job;
      if j.attempts < MAX_PAINT_RETRIES then
        s.(workers := s.workers[w := Idle], retries := s.retries + [Retry(j.(attempts := j.attempts + 1), false)])
      else
        Finish(s, w, End(j.id, true, j.attempts)).(gaveUp := s.gaveUp + 1)
    case Close(w) =>
      s.(workers := s.workers[w := Idle], onceDone := true, closes := s.closes + if s.onceDone then 0 else 1)
    case Leave(w) => s.(workers := s.workers[w := Stopped])
    case Fire(k) => s.(retries := s.retries[k := Retry(s.retries[k].job, true)])
    case Push(k) => s.(queue := s.queue + [s.retries[k].job], retries := Without(s.retries, k))
    case Drop(k) => s.(retries := Without(s.retries, k))
  }

  function Seed(n: nat): seq<Job> {
    seq(n, (i: nat) => Job(i, 0))
  }

  /** The seeded queue; the pool is started only for a blueprint with placements. */
  function Start(total: nat, workers: nat): State {
    State(total, Seed(total), seq(workers, _ => Idle), [], total, 0, 0, 0, false, 0, [], map[])
  }

  predicate Schedule(s: State, run: seq<Action>)
    decreases |run|
  {
    run == [] || (Enabled(s, run[0]) && Schedule(Next(s, run[0]), run[1..]))
  }

  function After(s: State, run: seq<Action>): State
    requires Schedule(s, run)
    decreases |run|
  {
    if run == [] then s else After(Next(s, run[0]), run[1..])
  }

  // ---- Weights: every invariant below is a conserved or falling sum over the same places ----

  datatype Weights = Weights(
    queued: Job -> int, claiming: Job -> int, painted: Job -> int, backoff: Job -> int, ready: Job -> int,
    idle: int, closing: int, stopped: int)

  function Sum<T>(xs: seq<T>, f: T -> int): int {
    if xs == [] then 0 else Sum(xs[..|xs| - 1], f) + f(xs[|xs| - 1])
  }

  function OfWorker(m: Weights): Worker -> int {
    (w: Worker) =>
      match w
      case Idle => m.idle
      case Claiming(j) => m.claiming(j)
      case Painted(j) => m.painted(j)
      case Closing => m.closing
      case Stopped => m.stopped
  }

  function OfRetry(m: Weights): Retry -> int {
    (r: Retry) => if r.fired then m.ready(r.job) else m.backoff(r.job)
  }

  function Weigh(s: State, m: Weights): int {
    Sum(s.queue, m.queued) + Sum(s.workers, OfWorker(m)) + Sum(s.retries, OfRetry(m))
  }

  lemma {:induction false} SumUpdate<T>(xs: seq<T>, f: T -> int, i: nat, x: T)
    requires i < |xs|
    ensures Sum(xs[i := x], f) == Sum(xs, f) - f(xs[i]) + f(x)
  {
    var n := |xs| - 1;
    if i == n {
      assert xs[i := x][..n] == xs[..n];
    } else {
      assert xs[i := x][..n] == xs[..n][i := x];
      SumUpdate(xs[..n], f, i, x);
    }
  }

  lemma {:induction false} SumConcat<T>(xs: seq<T>, ys: seq<T>, f: T -> int)
    ensures Sum(xs + ys, f) == Sum(xs, f) + Sum(ys, f)
  {
    if ys == [] {
      assert xs + ys == xs;
    } else {
      var n := |ys| - 1;
      assert (xs + ys)[..|xs| + n] == xs + ys[..n];
      SumConcat(xs, ys[..n], f);
    }
  }

  lemma SumOne<T>(x: T, f: T -> int)
    ensures Sum([x], f) == f(x)
  {
    assert [x][..0] == [];
  }

  lemma SumHead<T>(xs: seq<T>, f: T -> int)
    requires xs != []
    ensures Sum(xs, f) == f(xs[0]) + Sum(xs[1..], f)
  {
    hide Sum;
    assert xs == [xs[0]] + xs[1..];
    SumConcat([xs[0]], xs[1..], f);
    SumOne(xs[0], f);
  }

  lemma SumPush<T>(xs: seq<T>, x: T, f: T -> int)
    ensures Sum(xs + [x], f) == Sum(xs, f) + f(x)
  {
    SumConcat(xs, [x], f);
    SumOne(x, f);
  }

  lemma SumWithout(rs: seq<Retry>, k: nat, f: Retry -> int)
    requires k < |rs|
    ensures Sum(Without(rs, k), f) == Sum(rs, f) - f(rs[k])
  {
    hide Sum;
    var tail := rs[k..];
    assert rs == rs[..k] + tail && tail[1..] == rs[k + 1..];
    SumConcat(rs[..k], tail, f);
    SumHead(tail, f);
    SumConcat(rs[..k], rs[k + 1..], f);
  }

  /** What the worker that ends a placement weighs next. */
  function Ended(s: State, m: Weights): int {
    if s.remaining - 1 == 0 then m.closing else m.idle
  }

  /** How a step changes any weight. */
  function Change(s: State, a: Action, m: Weights): int
    requires Enabled(s, a)
  {
    match a
    case Take(_) => m.claiming(s.queue[0]) - m.queued(s.queue[0]) - m.idle
    case Succeed(w) => m.painted(s.workers[w].job) - m.claiming(s.workers[w].job)
    case Decrement(w) => Ended(s, m) - m.painted(s.workers[w].job)
    case Fail(w) =>
      var j := s.workers[w].job;
      (if j.attempts < MAX_PAINT_RETRIES then m.idle + m.backoff(j.(attempts := j.attempts + 1)) else Ended(s, m))
      - m.claiming(j)
    case Close(_) => m.idle - m.closing
    case Leave(_) => m.stopped - m.idle
    case Fire(k) => m.ready(s.retries[k].job) - m.backoff(s.retries[k].job)
    case Push(k) => m.queued(s.retries[k].job) - m.ready(s.retries[k].job)
    case Drop(k) => 0 - (if s.retries[k].fired then m.ready(s.retries[k].job) else m.backoff(s.retries[k].job))
  }

  lemma StepWeight(s: State, a: Action, m: Weights)
    requires Enabled(s, a)
    ensures Weigh(Next(s, a), m) == Weigh(s, m) + Change(s, a, m)
  {
    hide Sum, Without;
    var f, g := OfWorker(m), OfRetry(m);
    match a {
      case Take(w) =>
        SumHead(s.queue, m.queued);
        SumUpdate(s.workers, f, w, Claiming(s.queue[0]));
      case Succeed(w) => SumUpdate(s.workers, f, w, Painted(s.workers[w].job));
      case Decrement(w) => SumUpdate(s.workers, f, w, if s.remaining - 1 == 0 then Closing else Idle);
      case Fail(w) =>
        var j := s.workers[w].job;
        SumUpdate(s.workers, f, w, Idle);
        SumUpdate(s.workers, f, w, if s.remaining - 1 == 0 then Closing else Idle);
        SumPush(s.retries, Retry(j.(attempts := j.attempts + 1), false), g);
      case Close(w) => SumUpdate(s.workers, f, w, Idle);
      case Leave(w) => SumUpdate(s.workers, f, w, Stopped);
      case Fire(k) => SumUpdate(s.retries, g, k, Retry(s.retries[k].job, true));
      case Push(k) =>
        SumPush(s.queue, s.retries[k].job, m.queued);
        SumWithout(s.retries, k, g);
      case Drop(k) => SumWithout(s.retries, k, g);
    }
  }

  // ---- The invariant ----

  /** Placements not yet ended. */
  const LIVE := Weights(_ => 1, _ => 1, _ => 1, _ => 1, _ => 1, 0, 0, 0)

  /** Placements painted but not yet decremented. */
  const UNCOUNTED := Weights(_ => 0, _ => 0, _ => 1, _ => 0, _ => 0, 0, 0, 0)

  /** Workers about to close doneCh. */
  const ABOUT_TO_CLOSE := Weights(_ => 0, _ => 0, _ => 0, _ => 0, _ => 0, 0, 1, 0)

  /** Places that hold placement `id`. */
  function Holding(id: nat): Weights {
    var here := (j: Job) => if j.id == id then 1 else 0;
    Weights(here, here, here, here, here, 0, 0, 0)
  }

  /** Claims a job may still start. */
  function Left(j: Job): int {
    1 + MAX_PAINT_RETRIES - j.attempts
  }

  const BUDGET :=
    Weights((j: Job) => Left(j), (j: Job) => Left(j) - 1, (j: Job) => Left(j) - 1, (j: Job) => Left(j), (j: Job) => Left(j),
            0, 0, 0)

  /** The same for one placement. */
  function BudgetOf(id: nat): Weights {
    var waiting := (j: Job) => if j.id == id then Left(j) else 0;
    var started := (j: Job) => if j.id == id then Left(j) - 1 else 0;
    Weights(waiting, started, started, waiting, waiting, 0, 0, 0)
  }

  /** The claims a finished placement did not need. */
  function Spare(e: End): int {
    3 - e.attempts
  }

  function SpareOf(id: nat): End -> int {
    (e: End) => if e.id == id then Spare(e) else 0
  }

  function EndOf(id: nat): End -> int {
    (e: End) => if e.id == id then 1 else 0
  }

  function Abandoned(e: End): int {
    if e.gaveUp then 1 else 0
  }

  /** Steps still possible, at most: eight for each claim a job may still start. */
  const STEPS :=
    Weights((j: Job) => 8 * Left(j), (j: Job) => 8 * Left(j) - 1, (j: Job) => 8 * Left(j) - 2,
            (j: Job) => 8 * Left(j) + 2, (j: Job) => 8 * Left(j) + 1, 1, 2, 0)

  predicate Tame(s: State) {
    && (forall i :: 0 <= i < |s.queue| ==> s.queue[i].attempts <= MAX_PAINT_RETRIES)
    && (forall i :: 0 <= i < |s.retries| ==> s.retries[i].job.attempts <= MAX_PAINT_RETRIES)
    && (forall i :: 0 <= i < |s.workers| ==> s.workers[i].Claiming? || s.workers[i].Painted? ==>
                                               s.workers[i].job.attempts <= MAX_PAINT_RETRIES)
  }

  function OneIf(b: bool): nat {
    if b then 1 else 0
  }

  /** Each placement is in exactly one place: the queue, a worker, a retry, or finished. */
  ghost predicate Placed(s: State) {
    forall id: nat :: Weigh(s, Holding(id)) + Sum(s.ended, EndOf(id)) == OneIf(id < s.total)
  }

  /** Claims made, claims a live placement may still start, and claims a finished one did not need: four for
      each placement. */
  ghost predicate Budgeted(s: State) {
    && s.claims + Weigh(s, BUDGET) + Sum(s.ended, Spare) == 4 * s.total
    && forall id: nat :: Tries(s, id) + Weigh(s, BudgetOf(id)) + Sum(s.ended, SpareOf(id)) == 4 * OneIf(id < s.total)
  }

  /** A placement is given up after three failures, not before; and how many were. */
  ghost predicate Persistent(s: State) {
    && (forall i :: 0 <= i < |s.ended| ==> s.ended[i].attempts <= 3 && (s.ended[i].gaveUp ==> s.ended[i].attempts == 3))
    && s.gaveUp == Sum(s.ended, Abandoned)
  }

  ghost predicate Counted(s: State) {
    && s.remaining == Weigh(s, LIVE) && s.remaining <= s.total
    && s.remaining + s.painted + s.gaveUp == s.total + Weigh(s, UNCOUNTED)
    && s.remaining + |s.ended| == s.total
    && Weigh(s, ABOUT_TO_CLOSE) + s.closes == OneIf(s.remaining == 0)
    && (s.onceDone <==> s.closes > 0)
    && (forall i :: 0 <= i < |s.workers| && s.workers[i].Stopped? ==> Closed(s))
  }

  ghost predicate Sound(s: State) {
    Tame(s) && Placed(s) && Budgeted(s) && Persistent(s) && Counted(s)
  }

  // ---- Every step keeps it ----

  lemma {:induction false} SumAtLeast<T>(xs: seq<T>, f: T -> int, i: int)
    requires forall k :: 0 <= k < |xs| ==> f(xs[k]) >= 0
    ensures Sum(xs, f) >= 0
    ensures 0 <= i < |xs| ==> Sum(xs, f) >= f(xs[i])
  {
    if xs != [] {
      var n := |xs| - 1;
      assert forall k :: 0 <= k < n ==> xs[..n][k] == xs[k];
      SumAtLeast(xs[..n], f, i);
    }
  }

  lemma {:induction false} SumSame<T>(xs: seq<T>, f: T -> int, c: int)
    requires forall k :: 0 <= k < |xs| ==> f(xs[k]) == c
    ensures Sum(xs, f) == c * |xs|
  {
    if xs != [] {
      SumSame(xs[..|xs| - 1], f, c);
    }
  }

  ghost predicate NonNegative(s: State, m: Weights) {
    && (forall k :: 0 <= k < |s.queue| ==> m.queued(s.queue[k]) >= 0)
    && (forall k :: 0 <= k < |s.workers| ==> OfWorker(m)(s.workers[k]) >= 0)
    && (forall k :: 0 <= k < |s.retries| ==> OfRetry(m)(s.retries[k]) >= 0)
  }

  /** A weight is at least what the queue's i-th job, the w-th worker and the k-th retry weigh. */
  lemma WeighAtLeast(s: State, m: Weights, i: int, w: int, k: int)
    requires NonNegative(s, m)
    ensures Weigh(s, m) >= (if 0 <= i < |s.queue| then m.queued(s.queue[i]) else 0)
                           + (if 0 <= w < |s.workers| then OfWorker(m)(s.workers[w]) else 0)
                           + (if 0 <= k < |s.retries| then OfRetry(m)(s.retries[k]) else 0)
    ensures Weigh(s, m) >= 0
  {
    SumAtLeast(s.queue, m.queued, i);
    SumAtLeast(s.workers, OfWorker(m), w);
    SumAtLeast(s.retries, OfRetry(m), k);
  }

  /** The queue and the retries together never hold more than `remaining` placements. */
  lemma RoomInQueue(s: State)
    requires Counted(s)
    ensures |s.queue| + |s.retries| <= s.remaining
  {
    SumSame(s.queue, LIVE.queued, 1);
    SumSame(s.retries, OfRetry(LIVE), 1);
    SumAtLeast(s.workers, OfWorker(LIVE), -1);
  }

  /** A placement in a worker's hands is still live. */
  lemma HeldIsLive(s: State, w: nat)
    requires Counted(s) && w < |s.workers|
    ensures s.workers[w].Claiming? || s.workers[w].Painted? ==> s.remaining >= 1
    ensures s.remaining >= 0
  {
    WeighAtLeast(s, LIVE, -1, w, -1);
  }

  lemma AboutToClose(s: State, w: int)
    ensures Weigh(s, ABOUT_TO_CLOSE) >= if 0 <= w < |s.workers| && s.workers[w].Closing? then 1 else 0
  {
    WeighAtLeast(s, ABOUT_TO_CLOSE, -1, w, -1);
  }

  /** Once doneCh is closed nothing is queued, held or waiting, so no retry is ever dropped. */
  lemma ClosedMeansDone(s: State)
    requires Counted(s) && Closed(s)
    ensures s.remaining == 0 && s.closes == 1 && s.queue == [] && s.retries == []
    ensures forall w :: 0 <= w < |s.workers| ==> s.workers[w].Idle? || s.workers[w].Stopped?
  {
    AboutToClose(s, -1);
    RoomInQueue(s);
    forall w | 0 <= w < |s.workers|
      ensures s.workers[w].Idle? || s.workers[w].Stopped?
    {
      HeldIsLive(s, w);
      AboutToClose(s, w);
    }
  }

  lemma NeverDropped(s: State, a: Action)
    requires Counted(s) && Enabled(s, a)
    ensures !a.Drop?
  {
    if Closed(s) {
      ClosedMeansDone(s);
    }
  }

  lemma StepTame(s: State, a: Action)
    requires Tame(s) && Enabled(s, a)
    ensures Tame(Next(s, a))
  {}

  /** The record a step ends a placement with, if it does. */
  function EndedBy(s: State, a: Action): seq<End>
    requires Enabled(s, a)
  {
    match a
    case Decrement(w) => [End(s.workers[w].job.id, false, s.workers[w].job.attempts)]
    case Fail(w) => if s.workers[w].job.attempts < 3 then [] else [End(s.workers[w].job.id, true, s.workers[w].job.attempts)]
    case _ => []
  }

  lemma StepEnds(s: State, a: Action, f: End -> int)
    requires Enabled(s, a)
    ensures Next(s, a).ended == s.ended + EndedBy(s, a)
    ensures Sum(Next(s, a).ended, f) == Sum(s.ended, f) + if EndedBy(s, a) == [] then 0 else f(EndedBy(s, a)[0])
  {
    hide Sum, Without;
    if EndedBy(s, a) == [] {
      assert s.ended + [] == s.ended;
    } else {
      SumPush(s.ended, EndedBy(s, a)[0], f);
    }
  }

  lemma StepPlaced(s: State, a: Action)
    requires Placed(s) && Enabled(s, a) && !a.Drop?
    ensures Placed(Next(s, a))
  {
    hide Weigh, Without, Sum;
    var t := Next(s, a);
    forall id: nat
      ensures Weigh(t, Holding(id)) + Sum(t.ended, EndOf(id)) == OneIf(id < t.total)
    {
      StepWeight(s, a, Holding(id));
      StepEnds(s, a, EndOf(id));
    }
  }

  lemma StepBudgeted(s: State, a: Action)
    requires Tame(s) && Budgeted(s) && Enabled(s, a) && !a.Drop?
    ensures Budgeted(Next(s, a))
  {
    hide Weigh, Without, Sum;
    var t := Next(s, a);
    StepWeight(s, a, BUDGET);
    StepEnds(s, a, Spare);
    forall id: nat
      ensures Tries(t, id) + Weigh(t, BudgetOf(id)) + Sum(t.ended, SpareOf(id)) == 4 * OneIf(id < t.total)
    {
      StepWeight(s, a, BudgetOf(id));
      StepEnds(s, a, SpareOf(id));
    }
  }

  lemma StepPersistent(s: State, a: Action)
    requires Tame(s) && Persistent(s) && Enabled(s, a)
    ensures Persistent(Next(s, a))
  {
    hide Without, Sum;
    StepEnds(s, a, Abandoned);
  }

  lemma StepCounted(s: State, a: Action)
    requires Counted(s) && Enabled(s, a) && !a.Drop?
    ensures Counted(Next(s, a))
  {
    hide Weigh, Without;
    StepWeight(s, a, LIVE);
    StepWeight(s, a, UNCOUNTED);
    StepWeight(s, a, ABOUT_TO_CLOSE);
    match a {
      case Decrement(w) => HeldIsLive(s, w);
      case Fail(w) => HeldIsLive(s, w);
      case Close(w) => AboutToClose(s, w);
      case _ =>
    }
  }

  /** Every operation keeps: each placement in one place, at most four claims for each, the counters in
      step with the places, and doneCh closed at most once and only at the end. */
  lemma StepKeeps(s: State, a: Action)
    requires Sound(s) && Enabled(s, a)
    ensures Sound(Next(s, a))
  {
    hide Tame, Placed, Budgeted, Persistent, Counted, Next;
    NeverDropped(s, a);
    StepTame(s, a);
    StepPlaced(s, a);
    StepBudgeted(s, a);
    StepPersistent(s, a);
    StepCounted(s, a);
  }

  lemma {:induction false} SeedSum(n: nat, f: Job -> int, id: nat)
    requires forall i: nat :: i != id ==> f(Job(i, 0)) == 0
    ensures Sum(Seed(n), f) == if id < n then f(Job(id, 0)) else 0
  {
    if n > 0 {
      assert Seed(n)[..n - 1] == Seed(n - 1);
      SeedSum(n - 1, f, id);
    }
  }

  lemma StartWeight(total: nat, workers: nat, m: Weights, c: int)
    requires m.idle == c
    ensures Weigh(Start(total, workers), m) == Sum(Start(total, workers).queue, m.queued) + c * workers
  {
    SumSame(Start(total, workers).workers, OfWorker(m), c);
  }

  lemma StartSound(total: nat, workers: nat)
    requires total > 0
    ensures Sound(Start(total, workers))
    ensures Weigh(Start(total, workers), STEPS) == 32 * total + workers
  {
    hide Weigh;
    var s := Start(total, workers);
    forall id: nat
      ensures Weigh(s, Holding(id)) == OneIf(id < total)
      ensures Weigh(s, BudgetOf(id)) == 4 * OneIf(id < total)
    {
      StartWeight(total, workers, Holding(id), 0);
      StartWeight(total, workers, BudgetOf(id), 0);
      SeedSum(total, Holding(id).queued, id);
      SeedSum(total, BudgetOf(id).queued, id);
    }
    StartWeight(total, workers, BUDGET, 0);
    StartWeight(total, workers, LIVE, 0);
    StartWeight(total, workers, UNCOUNTED, 0);
    StartWeight(total, workers, ABOUT_TO_CLOSE, 0);
    StartWeight(total, workers, STEPS, 1);
    SumSame(s.queue, BUDGET.queued, 4);
    SumSame(s.queue, LIVE.queued, 1);
    SumSame(s.queue, UNCOUNTED.queued, 0);
    SumSame(s.queue, ABOUT_TO_CLOSE.queued, 0);
    SumSame(s.queue, STEPS.queued, 32);
  }

  // ---- Whole runs ----

  lemma {:induction false} RunKeeps(s: State, run: seq<Action>)
    requires Sound(s) && Schedule(s, run)
    ensures Sound(After(s, run))
    ensures After(s, run).total == s.total && |After(s, run).workers| == |s.workers|
    decreases |run|
  {
    hide Sound;
    if run != [] {
      StepKeeps(s, run[0]);
      RunKeeps(Next(s, run[0]), run[1..]);
    }
  }

  /** Every step uses up at least one of the steps left. */
  lemma StepFalls(s: State, a: Action)
    requires Tame(s) && Enabled(s, a) && !a.Drop?
    ensures Weigh(Next(s, a), STEPS) < Weigh(s, STEPS)
  {
    hide Weigh, Next;
    StepWeight(s, a, STEPS);
  }

  lemma {:induction false} RunFalls(s: State, run: seq<Action>)
    requires Sound(s) && Schedule(s, run)
    ensures |run| <= Weigh(s, STEPS)
    decreases |run|
  {
    hide Sound, Weigh;
    if run == [] {
      StepsLeft(s);
    } else {
      NeverDroppedSound(s, run[0]);
      StepFalls(s, run[0]);
      StepKeeps(s, run[0]);
      RunFalls(Next(s, run[0]), run[1..]);
    }
  }

  lemma NeverDroppedSound(s: State, a: Action)
    requires Sound(s) && Enabled(s, a)
    ensures Tame(s) && !a.Drop?
  {
    NeverDropped(s, a);
  }

  lemma StepsLeft(s: State)
    requires Sound(s)
    ensures Weigh(s, STEPS) >= 0
  {
    WeighAtLeast(s, STEPS, -1, -1, -1);
  }

  /** While a worker has not stopped, some step is possible. */
  lemma NeverStuck(s: State)
    requires Sound(s) && s.total > 0
    requires exists w :: 0 <= w < |s.workers| && !s.workers[w].Stopped?
    ensures exists a :: Enabled(s, a)
  {
    if w: nat :| w < |s.workers| && s.workers[w].Claiming? {
      assert Enabled(s, Succeed(w));
    } else if w: nat :| w < |s.workers| && s.workers[w].Painted? {
      assert Enabled(s, Decrement(w));
    } else if w: nat :| w < |s.workers| && s.workers[w].Closing? {
      assert Enabled(s, Close(w));
    } else {
      var w: nat :| w < |s.workers| && s.workers[w].Idle?;
      if s.queue != [] {
        assert Enabled(s, Take(w));
      } else if Closed(s) {
        assert Enabled(s, Leave(w));
      } else {
        SumSame(s.workers, OfWorker(ABOUT_TO_CLOSE), 0);
        SumSame(s.workers, OfWorker(LIVE), 0);
        SumSame(s.retries, OfRetry(ABOUT_TO_CLOSE), 0);
        assert s.retries != [];
        assert Enabled(s, if s.retries[0].fired then Push(0) else Fire(0));
      }
    }
  }

  /** Every placement ended exactly once, after at most four claims, and the workers are gone. */
  ghost predicate AllEnded(s: State) {
    && s.queue == [] && s.retries == [] && s.remaining == 0
    && s.painted + s.gaveUp == s.total
    && s.closes == 1
    && |s.ended| == s.total && s.gaveUp == Sum(s.ended, Abandoned)
    && (forall i :: 0 <= i < s.total ==> EndedAfter(s, s.ended[i]))
    && (forall i, j :: 0 <= i < j < s.total ==> s.ended[i].id != s.ended[j].id)
  }

  /** A placement was claimed once more than it failed before its last claim, which is three times if it was
      given up and at most three if it was painted. */
  predicate EndedAfter(s: State, e: End) {
    e.id < s.total && Tries(s, e.id) == e.attempts + 1 && (if e.gaveUp then e.attempts == 3 else e.attempts <= 3)
  }

  /** When the workers have stopped, the pool has done its work. */
  lemma StoppedMeansEnded(s: State)
    requires Sound(s) && s.workers != []
    requires forall w :: 0 <= w < |s.workers| ==> s.workers[w].Stopped?
    ensures AllEnded(s)
  {
    hide Weigh, Sum;
    assert s.workers[0].Stopped?;
    ClosedMeansDone(s);
    NothingWeighs(s, UNCOUNTED);
    forall i | 0 <= i < |s.ended|
      ensures EndedAfter(s, s.ended[i])
      ensures forall j :: 0 <= j < |s.ended| && j != i ==> s.ended[j].id != s.ended[i].id
    {
      var id := s.ended[i].id;
      NothingWeighs(s, Holding(id));
      NothingWeighs(s, BudgetOf(id));
      SumAtLeast(s.ended, EndOf(id), i);
      OnlyEnd(s.ended, id, i);
    }
  }

  /** A placement that ended once has one record, and its spare claims are that record's. */
  lemma OnlyEnd(es: seq<End>, id: nat, i: nat)
    requires i < |es| && es[i].id == id && Sum(es, EndOf(id)) <= 1
    ensures forall j :: 0 <= j < |es| && j != i ==> es[j].id != id
    ensures Sum(es, SpareOf(id)) == Spare(es[i])
  {
    hide Sum;
    var front, back := es[..i], es[i..];
    assert es == front + back;
    SumConcat(front, back, EndOf(id));
    SumConcat(front, back, SpareOf(id));
    SumHead(back, EndOf(id));
    SumHead(back, SpareOf(id));
    NoEnd(front, id);
    NoEnd(back[1..], id);
    assert forall j :: i < j < |es| ==> back[1..][j - i - 1] == es[j];
    assert forall j :: 0 <= j < i ==> front[j] == es[j];
  }

  lemma {:induction false} NoEnd(es: seq<End>, id: nat)
    ensures Sum(es, EndOf(id)) >= 0
    ensures Sum(es, EndOf(id)) == 0 ==> (forall j :: 0 <= j < |es| ==> es[j].id != id) && Sum(es, SpareOf(id)) == 0
  {
    if es != [] {
      NoEnd(es[..|es| - 1], id);
      assert forall j :: 0 <= j < |es| - 1 ==> es[..|es| - 1][j] == es[j];
    }
  }

  lemma NothingWeighs(s: State, m: Weights)
    requires s.queue == [] && s.retries == [] && m.stopped == 0
    requires forall w :: 0 <= w < |s.workers| ==> s.workers[w].Stopped?
    ensures Weigh(s, m) == 0
  {
    SumSame(s.workers, OfWorker(m), 0);
  }

  /** Every schedule of the pool is finite, no retry ever waits for room in the queue, and a schedule that
      cannot be continued has ended every placement. */
  lemma EveryScheduleEnds(total: nat, workers: nat, run: seq<Action>)
    requires total > 0 && workers > 0 && Schedule(Start(total, workers), run)
    ensures |run| <= 32 * total + workers
    ensures var s := After(Start(total, workers), run);
            && |s.queue| + |s.retries| <= s.remaining <= total
            && s.closes <= 1
            && ((exists a :: Enabled(s, a)) || AllEnded(s))
  {
    hide Weigh, Budgeted, Placed, Tame, Enabled, AllEnded, STEPS;
    StartSound(total, workers);
    RunFalls(Start(total, workers), run);
    RunKeeps(Start(total, workers), run);
    var s := After(Start(total, workers), run);
    RoomInQueue(s);
    AboutToClose(s, -1);
    if forall w :: 0 <= w < |s.workers| ==> s.workers[w].Stopped? {
      StoppedMeansEnded(s);
    } else {
      NeverStuck(s);
    }
  }
}
