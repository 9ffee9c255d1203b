/** The scheduler of internal/scheduler: the per-tick distributed lock shared by any number of
    instances, and the overlap guard inside one instance. Times are nanoseconds. */
module Scheduler {
  import opened Common
  import opened Retry

  const SECOND := 1_000_000_000
  const FIVE_MINUTES := 300 * SECOND

  datatype Schedule = Schedule(id: string, timeout: Int64, locked: bool, lockTtl: Int64)

  // ---------------------------------------------------------------------------
  // Keys

  function Digits(n: nat): string {
    (if n < 10 then "" else Digits(n / 10)) + ["0123456789"[n % 10]]
  }

  function Decimal(n: int): string {
    if n < 0 then "-" + Digits(-n) else Digits(n)
  }

  /** `scheduleLockKey`. */
  function LockKey(id: string, fire: int): string {
    "noda:schedule:" + id + ":" + Decimal(fire / SECOND)
  }

  function DigitValue(c: char): nat {
    if '0' <= c <= '9' then (c - '0') as nat else 0
  }

  function Value(s: string): nat {
    if s == "" then 0 else 10 * Value(s[..|s|-1]) + DigitValue(s[|s|-1])
  }

  lemma {:induction false} DigitsRead(n: nat)
    ensures Value(Digits(n)) == n
    ensures Digits(n) != "" && forall i :: 0 <= i < |Digits(n)| ==> '0' <= Digits(n)[i] <= '9'
  {
    var s := Digits(n);
    assert s[|s|-1] == "0123456789"[n % 10];
    if n < 10 {
      assert s[..|s|-1] == "";
    } else {
      DigitsRead(n / 10);
      assert s[..|s|-1] == Digits(n / 10);
    }
  }

  lemma DecimalInjective(m: int, n: int)
    requires Decimal(m) == Decimal(n)
    ensures m == n
  {
    DigitsRead(if m < 0 then -m else m);
    DigitsRead(if n < 0 then -n else n);
    assert Decimal(m)[0] == Decimal(n)[0];
    if m < 0 {
      assert Decimal(m)[1..] == Digits(-m) && Decimal(n)[1..] == Digits(-n);
    }
  }

  lemma DecimalHasNoColon(n: int)
    ensures ':' !in Decimal(n)
  {
    DigitsRead(if n < 0 then -n else n);
    forall i | 0 <= i < |Decimal(n)| ensures Decimal(n)[i] != ':' {
      assert n < 0 && i > 0 ==> Decimal(n)[i] == Digits(-n)[i-1];
    }
  }

  /** The text after the last colon and the text before it. */
  lemma LastColonSplits(a: string, x: string, b: string, y: string)
    requires a + ":" + x == b + ":" + y && ':' !in x && ':' !in y
    ensures a == b && x == y
  {
    var s, s' := a + ":" + x, b + ":" + y;
    assert s[|a|] == ':' && s'[|b|] == ':';
    assert forall k :: |a| < k < |s| ==> s[k] == x[k - |a| - 1];
    assert forall k :: |b| < k < |s'| ==> s'[k] == y[k - |b| - 1];
    assert |a| == |b|;
    assert a == s[..|a|] && b == s'[..|b|];
    assert x == s[|a|+1..] && y == s'[|b|+1..];
  }

  /** Two fires share a key exactly when they are fires of one schedule in one second, whatever
      characters the ids hold. */
  lemma KeyExact(id: string, fire: int, id': string, fire': int)
    ensures LockKey(id, fire) == LockKey(id', fire') <==> id == id' && fire / SECOND == fire' / SECOND
  {
    var prefix := "noda:schedule:";
    if LockKey(id, fire) == LockKey(id', fire') {
      DecimalHasNoColon(fire / SECOND);
      DecimalHasNoColon(fire' / SECOND);
      LastColonSplits(prefix + id, Decimal(fire / SECOND), prefix + id', Decimal(fire' / SECOND));
      assert (prefix + id)[|prefix|..] == id && (prefix + id')[|prefix|..] == id';
      DecimalInjective(fire / SECOND, fire' / SECOND);
    }
  }

  // ---------------------------------------------------------------------------
  // Time limits

  function Timeout(sc: Schedule): Int64 {
    if sc.timeout == 0 then FIVE_MINUTES else sc.timeout
  }

  /** The time to live that a job asks for: a configured one is raised above the job's timeout. */
  function AskedTtl(sc: Schedule): Int64 {
    var least := Wrap(Timeout(sc) + 30 * SECOND);
    if 0 < sc.lockTtl < least then least else sc.lockTtl
  }

  /** The time to live that it gets: five minutes when none is configured. */
  function Ttl(sc: Schedule): Int64 {
    if AskedTtl(sc) == 0 then FIVE_MINUTES else AskedTtl(sc)
  }

  // ---------------------------------------------------------------------------
  // The store

  datatype Lock = Lock(token: nat, expiry: Option<int>)

  /** A key set with a time to live that is not positive never expires. */
  function Expiry(now: int, ttl: int): Option<int> {
    if ttl > 0 then Some(now + ttl) else None
  }

  predicate Free(store: map<string, Lock>, key: string, now: int) {
    key !in store || (store[key].expiry.Some? && store[key].expiry.value <= now)
  }

  function SetIfAbsent(store: map<string, Lock>, key: string, now: int, ttl: int, token: nat): map<string, Lock> {
    if Free(store, key, now) then store[key := Lock(token, Expiry(now, ttl))] else store
  }

  // ---------------------------------------------------------------------------
  // Runs of jobs on all instances

  datatype Phase =
    | Guarded                   // passed the overlap guard
    | Waiting                   // deadline set, lock not yet tried
    | Working
    | Ended

  datatype Job = Job(
    instance: nat, schedule: Schedule, fire: int, key: string, phase: Phase,
    deadline: Option<int>, acquired: Option<int>)

  datatype State = State(now: int, jobs: seq<Job>, guards: set<(nat, string)>, store: map<string, Lock>)

  function Init(now: int): State {
    State(now, [], {}, map[])
  }

  datatype Event =
    | Tick(d: nat)
    | Fire(instance: nat, schedule: Schedule, fire: int)
    | SetDeadline(j: nat)
    | Proceed(j: nat)           // no lock configured
    | TryLock(j: nat)
    | Return(j: nat)            // finished, failed or panicked: the deferred guard release

  function Guard(job: Job): (nat, string) {
    (job.instance, job.schedule.id)
  }

  predicate Active(job: Job) {
    !job.phase.Ended?
  }

  ghost predicate Enabled(s: State, e: Event) {
    match e
    case Tick(_) => true
    case Fire(_, _, _) => true
    case SetDeadline(j) => j < |s.jobs| && s.jobs[j].phase.Guarded?
    case Proceed(j) => j < |s.jobs| && s.jobs[j].phase.Waiting? && !s.jobs[j].schedule.locked
    case TryLock(j) => j < |s.jobs| && s.jobs[j].phase.Waiting? && s.jobs[j].schedule.locked
    case Return(j) => j < |s.jobs| && Active(s.jobs[j])
  }

  function End(s: State, j: nat): State
    requires j < |s.jobs|
  {
    s.(jobs := s.jobs[j := s.jobs[j].(phase := Ended)], guards := s.guards - {Guard(s.jobs[j])})
  }

  /** A job that finds its tick's lock taken is skipped; one that gets it never releases it. */
  function Locking(s: State, j: nat): State
    requires j < |s.jobs|
  {
    var job := s.jobs[j];
    if Free(s.store, job.key, s.now) then
      s.(jobs := s.jobs[j := job.(phase := Working, acquired := Some(s.now))],
         store := SetIfAbsent(s.store, job.key, s.now, Ttl(job.schedule), j))
    else End(s, j)
  }

  ghost function Apply(s: State, e: Event): State
    requires Enabled(s, e)
  {
    match e
    case Tick(d) => s.(now := s.now + d)
    case Fire(i, sc, t) =>
      if (i, sc.id) in s.guards then s
      else s.(jobs := s.jobs + [Job(i, sc, t, LockKey(sc.id, t), Guarded, None, None)], guards := s.guards + {(i, sc.id)})
    case SetDeadline(j) =>
      s.(jobs := s.jobs[j := s.jobs[j].(phase := Waiting, deadline := Some(s.now + Timeout(s.jobs[j].schedule)))])
    case Proceed(j) => s.(jobs := s.jobs[j := s.jobs[j].(phase := Working)])
    case TryLock(j) => Locking(s, j)
    case Return(j) => End(s, j)
  }

  ghost predicate Possible(t0: int, es: seq<Event>)
    decreases |es|, 0
  {
    es == [] || (Possible(t0, es[..|es|-1]) && Enabled(After(t0, es[..|es|-1]), es[|es|-1]))
  }

  ghost function After(t0: int, es: seq<Event>): State
    requires Possible(t0, es)
    decreases |es|, 1
  {
    if es == [] then Init(t0) else Apply(After(t0, es[..|es|-1]), es[|es|-1])
  }

  lemma Extend(t0: int, es: seq<Event>, e: Event)
    requires Possible(t0, es) && Enabled(After(t0, es), e)
    ensures Possible(t0, es + [e]) && After(t0, es + [e]) == Apply(After(t0, es), e)
  {
    assert (es + [e])[..|es + [e]|-1] == es;
  }

  // ---------------------------------------------------------------------------
  // Acquiring the lock

  class Store {
    var held: map<string, Lock>

    /** `tryAcquireLock`, called by job `j`: what it does to the shared store, and whether it succeeds,
        is what the step `TryLock` of that job does. */
    method TryAcquire(key: string, now: int, ttl: Int64, token: nat, ghost s: State) returns (acquired: bool)
      requires Enabled(s, TryLock(token)) && held == s.store && now == s.now
      requires key == s.jobs[token].key && ttl == AskedTtl(s.jobs[token].schedule)
      modifies this
      ensures held == Apply(s, TryLock(token)).store
      ensures acquired <==> Apply(s, TryLock(token)).jobs[token].phase.Working?
      ensures acquired ==> key in held && held[key] == Lock(token, Expiry(now, Ttl(s.jobs[token].schedule)))
      ensures !acquired ==> held == old(held)
    {
      var limit: int := ttl;
      if limit == 0 { limit := FIVE_MINUTES; }
      if key in held {
        var lock := held[key];
        match lock.expiry
        case None => return false;
        case Some(end) => if now < end { return false; }
      }
      held := held[key := Lock(token, if limit > 0 then Some(now + limit) else None)];
      acquired := true;
    }
  }

  // ---------------------------------------------------------------------------
  // The overlap guard

  /** A guard is taken exactly while a job of its instance and schedule is active. */
  ghost predicate GuardsExact(s: State) {
    && (forall j :: 0 <= j < |s.jobs| && Active(s.jobs[j]) ==> Guard(s.jobs[j]) in s.guards)
    && (forall g :: g in s.guards ==> HasActive(s, g))
    && (forall i, j :: 0 <= i < j < |s.jobs| && Active(s.jobs[i]) && Active(s.jobs[j]) ==>
          Guard(s.jobs[i]) != Guard(s.jobs[j]))
  }

  ghost predicate HasActive(s: State, g: (nat, string)) {
    exists j :: 0 <= j < |s.jobs| && Active(s.jobs[j]) && Guard(s.jobs[j]) == g
  }

  lemma KeepsGuards(s: State, s': State)
    requires GuardsExact(s) && s'.guards == s.guards && |s'.jobs| == |s.jobs|
    requires forall j :: 0 <= j < |s.jobs| ==> Guard(s'.jobs[j]) == Guard(s.jobs[j]) && Active(s'.jobs[j]) == Active(s.jobs[j])
    ensures GuardsExact(s')
  {
    forall g | g in s'.guards ensures HasActive(s', g) {
      assert HasActive(s, g);
      var j :| 0 <= j < |s.jobs| && Active(s.jobs[j]) && Guard(s.jobs[j]) == g;
      assert Active(s'.jobs[j]);
    }
  }

  lemma EndKeepsGuards(s: State, j: nat)
    requires GuardsExact(s) && j < |s.jobs| && Active(s.jobs[j])
    ensures GuardsExact(End(s, j))
  {
    var s' := End(s, j);
    forall g | g in s'.guards ensures HasActive(s', g) {
      assert HasActive(s, g);
      var i :| 0 <= i < |s.jobs| && Active(s.jobs[i]) && Guard(s.jobs[i]) == g;
      assert i != j && s'.jobs[i] == s.jobs[i];
    }
  }

  lemma FireKeepsGuards(s: State, i: nat, sc: Schedule, t: int)
    requires GuardsExact(s)
    ensures GuardsExact(Apply(s, Fire(i, sc, t)))
  {
    var s' := Apply(s, Fire(i, sc, t));
    if (i, sc.id) !in s.guards {
      forall g | g in s'.guards ensures HasActive(s', g) {
        if g == (i, sc.id) {
          assert Active(s'.jobs[|s.jobs|]) && Guard(s'.jobs[|s.jobs|]) == g;
        } else {
          assert HasActive(s, g);
          var j :| 0 <= j < |s.jobs| && Active(s.jobs[j]) && Guard(s.jobs[j]) == g;
          assert s'.jobs[j] == s.jobs[j];
        }
      }
    }
  }

  lemma StepGuards(s: State, e: Event)
    requires GuardsExact(s) && Enabled(s, e)
    ensures GuardsExact(Apply(s, e))
  {
    match e
    case Tick(_) => KeepsGuards(s, Apply(s, e));
    case Fire(i, sc, t) => FireKeepsGuards(s, i, sc, t);
    case SetDeadline(_) => KeepsGuards(s, Apply(s, e));
    case Proceed(_) => KeepsGuards(s, Apply(s, e));
    case TryLock(j) =>
      if Free(s.store, s.jobs[j].key, s.now) { KeepsGuards(s, Apply(s, e)); } else { EndKeepsGuards(s, j); }
    case Return(j) => EndKeepsGuards(s, j);
  }

  lemma {:induction false} RunGuards(t0: int, es: seq<Event>)
    requires Possible(t0, es)
    ensures GuardsExact(After(t0, es))
  {
    if es != [] {
      RunGuards(t0, es[..|es|-1]);
      StepGuards(After(t0, es[..|es|-1]), es[|es|-1]);
    }
  }

  /** In every run at most one job per schedule id is past the guard of an instance, and the guard
      is free again once that job has returned. */
  lemma OneJobPerSchedule(t0: int, es: seq<Event>, a: nat, b: nat)
    requires Possible(t0, es) && a < |After(t0, es).jobs| && b < |After(t0, es).jobs| && a != b
    requires After(t0, es).jobs[a].instance == After(t0, es).jobs[b].instance
    requires After(t0, es).jobs[a].schedule.id == After(t0, es).jobs[b].schedule.id
    ensures !Active(After(t0, es).jobs[a]) || !Active(After(t0, es).jobs[b])
    ensures Guard(After(t0, es).jobs[a]) in After(t0, es).guards <==> HasActive(After(t0, es), Guard(After(t0, es).jobs[a]))
  {
    RunGuards(t0, es);
  }

  // ---------------------------------------------------------------------------
  // The lock

  ghost predicate Acquired(s: State, j: nat) {
    j < |s.jobs| && s.jobs[j].acquired.Some?
  }

  ghost function ExpiryOf(s: State, j: nat): Option<int>
    requires Acquired(s, j)
  {
    Expiry(s.jobs[j].acquired.value, Ttl(s.jobs[j].schedule))
  }

  /** Job `i`'s lock had run out when job `j` took the key. */
  ghost predicate Before(s: State, i: nat, j: nat)
    requires Acquired(s, i) && Acquired(s, j)
  {
    ExpiryOf(s, i).Some? && ExpiryOf(s, i).value <= s.jobs[j].acquired.value
  }

  /** Deadlines are set before the lock is tried. */
  ghost predicate Timed(s: State, j: nat)
    requires j < |s.jobs|
  {
    var job := s.jobs[j];
    && (job.deadline.Some? ==> job.deadline.value <= s.now + Timeout(job.schedule))
    && (job.phase.Waiting? ==> job.deadline.Some?)
    && (job.acquired.Some? ==>
          && job.schedule.locked && (job.phase.Working? || job.phase.Ended?)
          && job.acquired.value <= s.now
          && job.deadline.Some? && job.deadline.value <= job.acquired.value + Timeout(job.schedule))
  }

  /** A job that took a key still holds it, or the key's present holder took it later. */
  ghost predicate Accounted(s: State, j: nat)
    requires Acquired(s, j)
  {
    && s.jobs[j].key in s.store
    && var lock := s.store[s.jobs[j].key];
       && Acquired(s, lock.token)
       && s.jobs[lock.token].key == s.jobs[j].key
       && lock.expiry == ExpiryOf(s, lock.token)
       && (lock.token == j || Before(s, j, lock.token))
  }

  ghost predicate Apart(s: State) {
    forall i: nat, j: nat :: i != j && Acquired(s, i) && Acquired(s, j) && s.jobs[i].key == s.jobs[j].key ==>
      Before(s, i, j) || Before(s, j, i)
  }

  ghost predicate AllTimed(s: State) {
    forall j: nat :: j < |s.jobs| ==> Timed(s, j)
  }

  ghost predicate AllAccounted(s: State) {
    forall j: nat :: Acquired(s, j) ==> Accounted(s, j)
  }

  ghost predicate LockInv(s: State) {
    AllTimed(s) && AllAccounted(s) && Apart(s)
  }

  /** A step that leaves a job's lock as it was. */
  ghost predicate SameLock(job: Job, job': Job) {
    job'.schedule == job.schedule && job'.key == job.key && job'.acquired == job.acquired
  }

  /** Steps that leave keys, holders and the store alone. */
  lemma KeepsLocks(s: State, s': State)
    requires AllAccounted(s) && Apart(s)
    requires s'.store == s.store && |s.jobs| <= |s'.jobs|
    requires forall j :: 0 <= j < |s.jobs| ==> SameLock(s.jobs[j], s'.jobs[j])
    requires forall j :: |s.jobs| <= j < |s'.jobs| ==> s'.jobs[j].acquired.None?
    ensures AllAccounted(s') && Apart(s')
  {
    forall j: nat | Acquired(s', j) ensures Acquired(s, j) && SameLock(s.jobs[j], s'.jobs[j]) && Accounted(s', j) {
      assert j < |s.jobs| && SameLock(s.jobs[j], s'.jobs[j]);
      assert Acquired(s, j) && Accounted(s, j);
      var holder := s.store[s.jobs[j].key].token;
      assert Acquired(s, holder) && SameLock(s.jobs[holder], s'.jobs[holder]);
    }
  }

  lemma StepTimed(s: State, e: Event)
    requires AllTimed(s) && Enabled(s, e)
    ensures AllTimed(Apply(s, e))
  {
    var s' := Apply(s, e);
    forall j: nat | j < |s'.jobs| ensures Timed(s', j) {
      if j < |s.jobs| { assert Timed(s, j); }
    }
  }

  /** What one earlier holder sees of a new acquisition. */
  lemma TakeAfter(s: State, j: nat, i: nat)
    requires LockInv(s) && j < |s.jobs| && s.jobs[j].phase.Waiting? && s.jobs[j].schedule.locked
    requires Free(s.store, s.jobs[j].key, s.now)
    requires i != j && Acquired(Locking(s, j), i)
    ensures Acquired(s, i) && Accounted(Locking(s, j), i)
    ensures s.jobs[i].key == s.jobs[j].key ==> Before(Locking(s, j), i, j)
  {
    var s' := Locking(s, j);
    assert s'.jobs[i] == s.jobs[i] && Acquired(s, i) && Accounted(s, i);
    var holder := s.store[s.jobs[i].key].token;
    assert Timed(s, holder) && Timed(s, j);
    assert holder != j && s'.jobs[holder] == s.jobs[holder];
  }

  lemma TakeKeepsAccounts(s: State, j: nat)
    requires LockInv(s) && j < |s.jobs| && s.jobs[j].phase.Waiting? && s.jobs[j].schedule.locked
    requires Free(s.store, s.jobs[j].key, s.now)
    ensures AllAccounted(Locking(s, j))
  {
    forall i: nat | Acquired(Locking(s, j), i) ensures Accounted(Locking(s, j), i) {
      if i != j { TakeAfter(s, j, i); }
    }
  }

  lemma TakeKeepsApart(s: State, j: nat)
    requires LockInv(s) && j < |s.jobs| && s.jobs[j].phase.Waiting? && s.jobs[j].schedule.locked
    requires Free(s.store, s.jobs[j].key, s.now)
    ensures Apart(Locking(s, j))
  {
    var s' := Locking(s, j);
    forall i: nat, k: nat | i != k && Acquired(s', i) && Acquired(s', k) && s'.jobs[i].key == s'.jobs[k].key
      ensures Before(s', i, k) || Before(s', k, i)
    {
      if i != j { TakeAfter(s, j, i); }
      if k != j { TakeAfter(s, j, k); }
      if i != j && k != j { assert Before(s, i, k) || Before(s, k, i); }
    }
  }

  lemma StepLocks(s: State, e: Event)
    requires LockInv(s) && Enabled(s, e)
    ensures LockInv(Apply(s, e))
  {
    StepTimed(s, e);
    if e.TryLock? && Free(s.store, s.jobs[e.j].key, s.now) {
      TakeKeepsAccounts(s, e.j);
      TakeKeepsApart(s, e.j);
    } else {
      KeepsLocks(s, Apply(s, e));
    }
  }

  lemma {:induction false} RunLocks(t0: int, es: seq<Event>)
    requires Possible(t0, es)
    ensures LockInv(After(t0, es))
  {
    if es != [] {
      RunLocks(t0, es[..|es|-1]);
      StepLocks(After(t0, es[..|es|-1]), es[|es|-1]);
    }
  }

  ghost predicate KeyedJob(job: Job) {
    job.key == LockKey(job.schedule.id, job.fire)
  }

  ghost predicate Keyed(s: State) {
    forall j :: 0 <= j < |s.jobs| ==> KeyedJob(s.jobs[j])
  }

  lemma StepKeys(s: State, e: Event)
    requires Keyed(s) && Enabled(s, e)
    ensures Keyed(Apply(s, e))
  {
    var s' := Apply(s, e);
    forall j | 0 <= j < |s'.jobs| ensures KeyedJob(s'.jobs[j]) {
      if j < |s.jobs| { assert KeyedJob(s.jobs[j]); }
    }
  }

  lemma {:induction false} RunKeys(t0: int, es: seq<Event>)
    requires Possible(t0, es)
    ensures Keyed(After(t0, es))
  {
    if es != [] {
      RunKeys(t0, es[..|es|-1]);
      StepKeys(After(t0, es[..|es|-1]), es[|es|-1]);
    }
  }

  /** Two jobs took the lock of one tick, the first no later than the second. */
  ghost predicate TookBoth(s: State, a: nat, b: nat) {
    && a != b && Acquired(s, a) && Acquired(s, b)
    && s.jobs[a].schedule.id == s.jobs[b].schedule.id
    && s.jobs[a].fire / SECOND == s.jobs[b].fire / SECOND
    && s.jobs[a].acquired.value <= s.jobs[b].acquired.value
  }

  /** Across all instances, acquisitions for one tick are at least the first one's time to live
      apart; a lock without one is never taken again. */
  lemma AcquisitionsApart(t0: int, es: seq<Event>, a: nat, b: nat)
    requires Possible(t0, es) && TookBoth(After(t0, es), a, b)
    ensures Ttl(After(t0, es).jobs[a].schedule) > 0
    ensures After(t0, es).jobs[a].acquired.value + Ttl(After(t0, es).jobs[a].schedule) <= After(t0, es).jobs[b].acquired.value
  {
    RunLocks(t0, es);
    RunKeys(t0, es);
    var s := After(t0, es);
    KeyExact(s.jobs[a].schedule.id, s.jobs[a].fire, s.jobs[b].schedule.id, s.jobs[b].fire);
    assert KeyedJob(s.jobs[a]) && KeyedJob(s.jobs[b]);
    assert Before(s, a, b) || Before(s, b, a);
  }

  // ---------------------------------------------------------------------------
  // Holding the lock until the deadline

  /** The holder's deadline has passed whenever somebody else takes the same tick's lock. */
  ghost predicate Protected(s: State, a: nat, b: nat) {
    TookBoth(s, a, b) ==> s.jobs[a].deadline.Some? && s.jobs[a].deadline.value <= s.jobs[b].acquired.value
  }

  /** Every job of the schedule is protected in every run. */
  ghost predicate AlwaysProtected(sc: Schedule) {
    forall t0: int, es: seq<Event>, a: nat, b: nat ::
      Possible(t0, es) && a < |After(t0, es).jobs| && After(t0, es).jobs[a].schedule == sc ==>
        Protected(After(t0, es), a, b)
  }

  predicate OutlivesJob(sc: Schedule) {
    !sc.locked || Ttl(sc) <= 0 || Timeout(sc) <= Ttl(sc)
  }

  lemma OutlivingProtects(t0: int, es: seq<Event>, a: nat, b: nat)
    requires Possible(t0, es) && TookBoth(After(t0, es), a, b)
    requires OutlivesJob(After(t0, es).jobs[a].schedule)
    ensures Protected(After(t0, es), a, b)
  {
    AcquisitionsApart(t0, es, a, b);
    RunLocks(t0, es);
    assert Timed(After(t0, es), a);
  }

  /** One job takes the lock at time zero; a job of a second instance takes it when it expires. */
  ghost function FirstTakes(sc: Schedule): seq<Event> {
    [Fire(0, sc, 0), SetDeadline(0), TryLock(0)]
  }

  ghost function Taken(sc: Schedule): State {
    State(0, [Job(0, sc, 0, LockKey(sc.id, 0), Working, Some(Timeout(sc) as int), Some(0))], {(0, sc.id)},
          map[LockKey(sc.id, 0) := Lock(0, Expiry(0, Ttl(sc)))])
  }

  lemma FirstTakesIt(sc: Schedule)
    requires sc.locked
    ensures Possible(0, FirstTakes(sc)) && After(0, FirstTakes(sc)) == Taken(sc)
  {
    var e0, e1, e2 := Fire(0, sc, 0), SetDeadline(0), TryLock(0);
    Extend(0, [], e0);
    assert [] + [e0] == [e0];
    Extend(0, [e0], e1);
    assert [e0] + [e1] == [e0, e1];
    Extend(0, [e0, e1], e2);
    assert [e0, e1] + [e2] == FirstTakes(sc);
  }

  lemma SecondTakesIt(sc: Schedule) returns (es: seq<Event>)
    requires sc.locked && Ttl(sc) > 0
    ensures Possible(0, es)
    ensures |After(0, es).jobs| == 2 && After(0, es).jobs[0] == Taken(sc).jobs[0]
    ensures After(0, es).jobs[1].schedule == sc && After(0, es).jobs[1].fire == 0
    ensures After(0, es).jobs[1].acquired == Some(Ttl(sc) as int)
  {
    FirstTakesIt(sc);
    es := FirstTakes(sc);
    Extend(0, es, Tick(Ttl(sc)));
    es := es + [Tick(Ttl(sc))];
    Extend(0, es, Fire(1, sc, 0));
    es := es + [Fire(1, sc, 0)];
    Extend(0, es, SetDeadline(1));
    es := es + [SetDeadline(1)];
    Extend(0, es, TryLock(1));
    es := es + [TryLock(1)];
  }

  /** Holders are protected until their deadline exactly when the lock outlives the job. */
  lemma ProtectedIff(sc: Schedule)
    ensures AlwaysProtected(sc) <==> OutlivesJob(sc)
  {
    if OutlivesJob(sc) {
      forall t0: int, es: seq<Event>, a: nat, b: nat |
        Possible(t0, es) && a < |After(t0, es).jobs| && After(t0, es).jobs[a].schedule == sc
        ensures Protected(After(t0, es), a, b)
      {
        if TookBoth(After(t0, es), a, b) { OutlivingProtects(t0, es, a, b); }
      }
    } else {
      var es := SecondTakesIt(sc);
      assert TookBoth(After(0, es), 0, 1);
      assert !Protected(After(0, es), 0, 1);
    }
  }

  /** Any configured time to live is enough, as long as the timeout leaves room for the buffer in a
      64-bit duration. */
  lemma ConfiguredTtlProtects(sc: Schedule)
    requires sc.lockTtl > 0 && Timeout(sc) + 30 * SECOND < TWO63
    ensures AlwaysProtected(sc)
  {
    ProtectedIff(sc);
  }

  /** Without a configured time to live the lock lasts five minutes, whatever the job's timeout. */
  lemma DefaultTtlProtectsIff(sc: Schedule)
    requires sc.locked && sc.lockTtl == 0
    ensures AlwaysProtected(sc) <==> sc.timeout <= FIVE_MINUTES
  {
    ProtectedIff(sc);
  }

  // ---------------------------------------------------------------------------
  // History

  const MAX_HISTORY := 1000

  function Latest<T>(s: seq<T>): seq<T> {
    if |s| > MAX_HISTORY then s[|s| - MAX_HISTORY..] else s
  }

  /** Keeping the latest entries of what was kept keeps the latest of all. */
  lemma LatestOfLatest<T>(all: seq<T>, run: T)
    ensures Latest(Latest(all) + [run]) == Latest(all + [run])
  {
  }

  class History<T> {
    var runs: seq<T>
    ghost var all: seq<T>       // everything ever recorded

    /** The history holds exactly the latest thousand of all recorded runs. */
    ghost predicate Valid()
      reads this
    {
      runs == Latest(all)
    }

    constructor ()
      ensures Valid() && all == []
    {
      runs, all := [], [];
    }

    /** `recordRun`. */
    method Record(run: T)
      requires Valid()
      modifies this
      ensures Valid() && all == old(all) + [run]
    {
      LatestOfLatest(all, run);
      all := all + [run];
      runs := runs + [run];
      if |runs| > MAX_HISTORY { runs := runs[|runs| - MAX_HISTORY..]; }
    }
  }
}
