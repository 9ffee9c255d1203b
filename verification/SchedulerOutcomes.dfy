/** When a scheduled job runs (internal/scheduler/runtime.go, internal/scheduler/lock.go): exactly when its guard
    and its tick's lock let it, and no tick is worked on twice at a time. */
module SchedulerOutcomes {
  import opened Common
  import opened Scheduler

  // ---------------------------------------------------------------------------
  // What working and the store rest on

  /** A job that works took its lock if its schedule has one, and only then. */
  ghost predicate Entitled(job: Job) {
    job.phase.Working? ==> (job.schedule.locked <==> job.acquired.Some?)
  }

  ghost predicate AllEntitled(s: State) {
    forall j :: 0 <= j < |s.jobs| ==> Entitled(s.jobs[j])
  }

  /** Every stored lock was taken by the job that it names, for that job's key. */
  ghost predicate StoreExact(s: State) {
    forall key :: key in s.store ==>
      && Acquired(s, s.store[key].token) && s.jobs[s.store[key].token].key == key
      && s.store[key].expiry == ExpiryOf(s, s.store[key].token)
  }

  lemma StepEntitled(s: State, e: Event)
    requires AllEntitled(s) && AllTimed(s) && Enabled(s, e)
    ensures AllEntitled(Apply(s, e))
  {
    var s' := Apply(s, e);
    forall j | 0 <= j < |s'.jobs| ensures Entitled(s'.jobs[j]) {
      if j < |s.jobs| { assert Entitled(s.jobs[j]) && Timed(s, j); }
    }
  }

  lemma StepStore(s: State, e: Event)
    requires StoreExact(s) && AllTimed(s) && Enabled(s, e)
    ensures StoreExact(Apply(s, e))
  {
    if e.TryLock? { assert Timed(s, e.j); }
  }

  lemma {:induction false} RunExact(t0: int, es: seq<Event>)
    requires Possible(t0, es)
    ensures LockInv(After(t0, es)) && AllEntitled(After(t0, es)) && StoreExact(After(t0, es))
    decreases |es|
  {
    RunLocks(t0, es);
    if es != [] {
      var s, e := After(t0, es[..|es|-1]), es[|es|-1];
      RunExact(t0, es[..|es|-1]);
      StepEntitled(s, e);
      StepStore(s, e);
    }
  }

  // ---------------------------------------------------------------------------
  // Who gets the lock

  /** Job `i` took the lock of the same tick and it still lasts. */
  ghost predicate Blocks(s: State, i: nat, j: nat)
    requires j < |s.jobs|
  {
    && Acquired(s, i) && s.jobs[i].key == s.jobs[j].key
    && (ExpiryOf(s, i).Some? ==> s.now < ExpiryOf(s, i).value)
  }

  /** A job gets its tick's lock, and works, if and only if no job of any instance has taken the same lock
      and still has it; otherwise it is skipped. */
  lemma LockedOutIff(t0: int, es: seq<Event>, j: nat, s: State, s': State)
    requires Possible(t0, es) && s == After(t0, es) && Enabled(s, TryLock(j)) && s' == Apply(s, TryLock(j))
    ensures s'.jobs[j].phase.Working? <==> forall i: nat :: !Blocks(s, i, j)
    ensures s'.jobs[j].phase.Working? ==> s'.jobs[j].acquired == Some(s.now)
    ensures !s'.jobs[j].phase.Working? ==> s'.jobs[j].phase.Ended? && s'.store == s.store
  {
    RunExact(t0, es);
    var key := s.jobs[j].key;
    if Free(s.store, key, s.now) {
      forall i: nat ensures !Blocks(s, i, j) { FreeMeansExpired(s, i, j); }
    } else {
      assert Blocks(s, s.store[key].token, j);
    }
  }

  lemma FreeMeansExpired(s: State, i: nat, j: nat)
    requires LockInv(s) && j < |s.jobs| && Free(s.store, s.jobs[j].key, s.now)
    ensures !Blocks(s, i, j)
  {
    if Acquired(s, i) && s.jobs[i].key == s.jobs[j].key {
      assert Accounted(s, i);
      var token := s.store[s.jobs[i].key].token;
      assert Timed(s, token);
    }
  }

  // ---------------------------------------------------------------------------
  // No tick is worked on twice at a time

  /** Two jobs of one tick work on a schedule with a lock. */
  ghost predicate BothWork(s: State, a: nat, b: nat) {
    && a != b && a < |s.jobs| && b < |s.jobs|
    && s.jobs[a].phase.Working? && s.jobs[b].phase.Working?
    && s.jobs[a].schedule.locked && s.jobs[b].schedule.locked
    && s.jobs[a].schedule.id == s.jobs[b].schedule.id && s.jobs[a].fire / SECOND == s.jobs[b].fire / SECOND
  }

  ghost predicate Overdue(s: State, j: nat)
    requires j < |s.jobs|
  {
    s.jobs[j].deadline.Some? && s.jobs[j].deadline.value <= s.now
  }

  /** Across all instances: when two jobs of one tick both work, one of them is past its deadline, provided
      their locks outlive them. */
  lemma OneWorkerPerTick(t0: int, es: seq<Event>, a: nat, b: nat)
    requires Possible(t0, es) && BothWork(After(t0, es), a, b)
    requires OutlivesJob(After(t0, es).jobs[a].schedule) && OutlivesJob(After(t0, es).jobs[b].schedule)
    ensures Overdue(After(t0, es), a) || Overdue(After(t0, es), b)
  {
    RunExact(t0, es);
    var s := After(t0, es);
    assert Entitled(s.jobs[a]) && Entitled(s.jobs[b]) && Timed(s, a) && Timed(s, b);
    if s.jobs[a].acquired.value <= s.jobs[b].acquired.value {
      OutlivingProtects(t0, es, a, b);
    } else {
      OutlivingProtects(t0, es, b, a);
    }
  }

  // ---------------------------------------------------------------------------
  // Jobs run and end

  lemma Then(t0: int, es: seq<Event>, e: Event) returns (next: seq<Event>)
    requires Possible(t0, es) && Enabled(After(t0, es), e)
    ensures next == es + [e] && Possible(t0, next) && After(t0, next) == Apply(After(t0, es), e)
  {
    next := es + [e];
    Extend(t0, es, e);
  }

  /** A tick that fires while no job of its schedule is active on the instance, and whose lock, if it has
      one, is free, can be worked on. */
  lemma TickCanBeWorkedOn(t0: int, es: seq<Event>, i: nat, sc: Schedule, t: int) returns (es': seq<Event>, j: nat)
    requires Possible(t0, es) && (i, sc.id) !in After(t0, es).guards
    requires sc.locked ==> Free(After(t0, es).store, LockKey(sc.id, t), After(t0, es).now)
    ensures es + [Fire(i, sc, t)] <= es' && Possible(t0, es') && j == |After(t0, es).jobs| < |After(t0, es').jobs|
    ensures var job := After(t0, es').jobs[j];
      job.phase.Working? && job.instance == i && job.schedule == sc && job.fire == t
  {
    j := |After(t0, es).jobs|;
    es' := Then(t0, es, Fire(i, sc, t));
    es' := Then(t0, es', SetDeadline(j));
    es' := Then(t0, es', if sc.locked then TryLock(j) else Proceed(j));
  }

  ghost predicate AllEnded(s: State) {
    forall j :: 0 <= j < |s.jobs| ==> s.jobs[j].phase.Ended?
  }

  ghost function IsActive(): Job -> bool {
    (job: Job) => Active(job)
  }

  /** Every run extends to one in which all jobs have ended and every guard is free again. */
  lemma {:induction false} AllJobsEnd(t0: int, es: seq<Event>) returns (es': seq<Event>)
    requires Possible(t0, es)
    ensures es <= es' && Possible(t0, es') && AllEnded(After(t0, es')) && After(t0, es').guards == {}
    decreases Tally(IsActive(), After(t0, es).jobs)
  {
    var s := After(t0, es);
    if j: nat :| j < |s.jobs| && Active(s.jobs[j]) {
      es' := Then(t0, es, Return(j));
      TallyUpdate(IsActive(), s.jobs, j, After(t0, es').jobs[j]);
      es' := AllJobsEnd(t0, es');
    } else {
      es' := es;
      RunGuards(t0, es);
      NoneActiveNoGuards(s);
    }
  }

  lemma NoneActiveNoGuards(s: State)
    requires GuardsExact(s) && forall j: nat :: j < |s.jobs| ==> !Active(s.jobs[j])
    ensures s.guards == {}
  {
    assert forall g :: !HasActive(s, g);
  }
}
