/** What holds in every reachable state of the scheduler. */
module SchedInv {
  import opened Entities
  import opened Seqs
  import opened Fixed
  import opened FairModel
  import opened SchedModel
  import opened Wrappers

  /** Only the running task can carry the resched flag, and if it does another entity waits. */
  ghost predicate Flagged(s: Sys)
    requires WellFormed(s)
  {
    forall e :: e in s.q.ents && s.q.ents[e].needResched ==> e == s.current && s.q.line != []
  }

  /** A waiting task holds preemption off at least once, until it is switched to. */
  ghost predicate HeldOff(s: Sys)
    requires WellFormed(s)
  {
    s.q.ents[s.current].preemptCount >= 0 && forall e :: e in s.q.line ==> s.q.ents[e].preemptCount >= 1
  }

  ghost predicate Inv(s: Sys) {
    && WellFormed(s) && Accounted(s.q) && Running(s.q) && s.q.curr == s.current
    && Flagged(s) && HeldOff(s) && |s.q.ents| <= MAX_TASKS
  }

  /** `sched_init`: one task, on the queue and running; `clock` is the reading of the timer. */
  function Init(init: SchedEntity, load: LoadWeight, clock: u64): Sys {
    var q := Rq(map[init := Ent(load, false, clock, 0, 0, 0, false, 0)], [], LoadWeight(0, 0), 0, 0, clock, init);
    Sys(EnqueueEntity(PlaceEntity(q, init), init, 0), init)
  }

  lemma {:induction false} InitInv(init: SchedEntity, load: LoadWeight, clock: u64)
    ensures Inv(Init(init, load, clock))
  {
    var q := Rq(map[init := Ent(load, false, clock, 0, 0, 0, false, 0)], [], LoadWeight(0, 0), 0, 0, clock, init);
    assert Accounted(q);
    SameAccounted(q, PlaceEntity(q, init));
    EnqueueAccounts(PlaceEntity(q, init), init, 0);
    assert |q.ents| == 1;
    assert Init(init, load, clock).q.ents.Keys == q.ents.Keys;
  }

  /** The flag and the counter of every task but `e` are as before. */
  ghost predicate SameTasks(q: Rq, q': Rq) {
    && q'.ents.Keys == q.ents.Keys && q'.line == q.line
    && forall x :: x in q.ents ==>
         q'.ents[x].needResched == q.ents[x].needResched && q'.ents[x].preemptCount == q.ents[x].preemptCount
  }

  lemma {:induction false} SameInv(s: Sys, s': Sys)
    requires Inv(s) && s'.current == s.current && SameAccounts(s.q, s'.q) && SameTasks(s.q, s'.q)
    ensures Inv(s')
  {
    SameAccounted(s.q, s'.q);
  }

  /** As many entities as the line and the running one, so the 32-bit count does not wrap around. */
  lemma {:induction false} FewRunnable(s: Sys)
    requires Inv(s)
    ensures Count(s.q) <= MAX_TASKS && s.q.nr == Count(s.q)
  {
    var l := s.q.line + [s.current];
    assert NoDup(l) by { NoDupSplit(s.q.line, s.current, []); assert s.q.line + [s.current] + [] == l; }
    NoDupCard(l, s.q.ents.Keys);
  }

  lemma {:induction false} CountIsSmall(q: Rq)
    requires Accounted(q) && |q.ents| <= MAX_TASKS && q.line != []
    ensures q.nr != 0
  {
    NoDupCard(q.line, q.ents.Keys);
  }

  lemma {:induction false} BumpAccounts(s: Sys)
    requires WellFormed(s) && Accounted(s.q) && s.q.curr == s.current
    ensures var s' := Bump(s);
            WellFormed(s') && Accounted(s'.q) && s'.q.line == s.q.line && s'.q.ents.Keys == s.q.ents.Keys
  {
    SameAccounted(s.q, Bump(s).q);
  }

  // ----- switching -----

  lemma {:induction false} PickTasks(q: Rq, prev: SchedEntity, i: nat)
    requires Closed(q) && prev in q.ents && i <= |q.line|
    ensures PickNextTask(q, prev, i).Some? ==>
              var m := PickNextTask(q, prev, i).value.0.ents;
              && m.Keys == q.ents.Keys
              && forall x :: x in m ==>
                   m[x].needResched == q.ents[x].needResched && m[x].preemptCount == q.ents[x].preemptCount
  {
  }

  lemma {:induction false} ScheduleParts(s: Sys, s': Sys, i: nat) returns (q1: Rq)
    requires WellFormed(s) && i <= |s.q.line| && Schedule(s, i) == Some(s')
    ensures PickNextTask(Preempt(s.q, s.current, 1), s.current, i) == Some((q1, s'.current))
    ensures s.current in q1.ents && s'.current in q1.ents
            && s' == Sys(Preempt(ClearResched(q1, s.current), s'.current, -1), s'.current)
  {
    PickKeeps(Preempt(s.q, s.current, 1), s.current, i);
    q1 := PickNextTask(Preempt(s.q, s.current, 1), s.current, i).value.0;
  }

  lemma {:induction false} PickHeldOff(s: Sys, q: Rq, q1: Rq)
    requires WellFormed(s) && HeldOff(s) && q == Preempt(s.q, s.current, 1) && Closed(q1) && q1.ents.Keys == q.ents.Keys
    requires forall x :: x in q1.line ==> x in s.q.line || x == s.current
    requires forall x :: x in q1.ents ==> q1.ents[x].preemptCount == q.ents[x].preemptCount
    ensures forall x :: x in q1.line ==> q1.ents[x].preemptCount >= 1
    ensures forall x :: x in s.q.line && x != s.current ==> x in q1.ents && q1.ents[x].preemptCount >= 1
  {
  }

  /** `_schedule` keeps the invariant, also when the running task has just left the queue, and hands the processor to
      the entity that was leftmost. */
  lemma {:induction false} ScheduleInv(s: Sys, s': Sys, i: nat)
    requires WellFormed(s) && Accounted(s.q) && s.q.curr == s.current && |s.q.ents| <= MAX_TASKS
    requires HeldOff(s) && forall e :: e in s.q.ents && s.q.ents[e].needResched ==> e == s.current
    requires i <= |s.q.line| && Schedule(s, i) == Some(s')
    ensures Inv(s') && s.q.line != [] && s'.current == s.q.line[0]
  {
    var q := Preempt(s.q, s.current, 1);
    SameAccounted(s.q, q);
    PickAccounts(q, i);
    PickTasks(q, s.current, i);
    var q1 := ScheduleParts(s, s', i);
    PickHeldOff(s, q, q1);
    SwitchTail(q1, s.current, s'.current);
  }

  /** What `_schedule` does after picking. */
  lemma {:induction false} SwitchTail(q: Rq, prev: SchedEntity, next: SchedEntity)
    requires Accounted(q) && Running(q) && q.curr == next && prev in q.ents && |q.ents| <= MAX_TASKS
    requires forall x :: x in q.ents && q.ents[x].needResched ==> x == prev
    requires forall x :: x in q.line ==> q.ents[x].preemptCount >= 1
    requires q.ents[next].preemptCount >= 1 && prev != next
    ensures Inv(Sys(Preempt(ClearResched(q, prev), next, -1), next))
  {
    SameAccounted(q, Preempt(ClearResched(q, prev), next, -1));
  }

  lemma {:induction false} ScheduleFaults(s: Sys, i: nat)
    requires WellFormed(s) && Accounted(s.q) && s.q.curr == s.current && i <= |s.q.line|
    ensures Schedule(s, i).None? <==> s.q.line == [] || Count(s.q) % TWO_32 == 0
  {
    var q := Preempt(s.q, s.current, 1);
    SameAccounted(s.q, q);
    PickAccounts(q, i);
  }

  // ----- the events -----

  lemma {:induction false} TickChargeInv(s: Sys, now: u64)
    requires Inv(s)
    ensures TickCharge(s, now).Some? && Inv(TickCharge(s, now).value) && TickCharge(s, now).value.current == s.current
    ensures TickCharge(s, now).value.q.line == s.q.line
  {
    var q := s.q.(clock := now);
    var s1 := s.(q := UpdateCurr(q));
    assert Inv(s1) by {
      ChargeSame(q);
      SameInv(s, s1);
    }
    FewRunnable(s1);
    if s1.q.nr > 1 { CheckInv(s1); }
  }

  lemma {:induction false} CheckInv(s: Sys)
    requires Inv(s) && s.q.line != []
    ensures CheckPreemptTick(s.q, s.current).Some?
    ensures var q := CheckPreemptTick(s.q, s.current).value; Inv(s.(q := q)) && q.line == s.q.line
  {
    var q := AfterSlice(s.q, s.current);
    SameInv(s, s.(q := q));
    SameAccounted(q, Resched(q, s.current));
  }

  lemma {:induction false} ExitReady(s: Sys)
    requires Inv(s)
    ensures var s' := ExitDequeue(s);
            && WellFormed(s') && Accounted(s'.q) && !Running(s'.q) && s'.q.curr == s'.current == s.current
            && s'.q.line == s.q.line && s'.q.ents.Keys == s.q.ents.Keys
            && |s'.q.ents| <= MAX_TASKS
  {
    var q := Preempt(s.q, s.current, 1);
    SameAccounted(s.q, q);
    DequeueAccounts(q);
    SameAccounted(DequeueEntity(q, s.current), ExitDequeue(s).q);
    assert ExitDequeue(s).q.ents.Keys == s.q.ents.Keys;
  }

  lemma {:induction false} ExitTasks(s: Sys)
    requires Inv(s) && WellFormed(ExitDequeue(s)) && ExitDequeue(s).q.line == s.q.line
             && ExitDequeue(s).q.ents.Keys == s.q.ents.Keys
    ensures HeldOff(ExitDequeue(s))
    ensures forall e :: e in s.q.ents ==> ExitDequeue(s).q.ents[e].needResched == s.q.ents[e].needResched
  {
  }

  lemma {:induction false} ExitAccounts(s: Sys)
    requires Inv(s)
    ensures var s' := Bump(ExitDequeue(s));
            && WellFormed(ExitDequeue(s)) && WellFormed(s') && Accounted(s'.q) && !Running(s'.q)
            && s'.q.curr == s'.current == s.current
            && s'.q.ents.Keys == s.q.ents.Keys && s'.q.line == s.q.line && HeldOff(s')
            && forall e :: e in s'.q.ents && s'.q.ents[e].needResched ==> e == s.current
  {
    ExitReady(s);
    ExitTasks(s);
    BumpAccounts(ExitDequeue(s));
  }

  lemma {:induction false} ExitStep(s: Sys, s': Sys)
    requires Inv(s) && WellFormed(ExitDequeue(s)) && Switches(Bump(ExitDequeue(s)), s')
    ensures Step(s, Exit, s') && Inv(s')
  {
    StepInv(s, Exit, s');
  }

  lemma {:induction false} NewTaskAccounts(s: Sys, child: SchedEntity)
    requires Inv(s) && child !in s.q.ents
    ensures var q := NewTask(s, child);
            && Accounted(q) && Running(q) && q.curr == s.current && q.line == s.q.line && child !in q.line
            && child in q.ents && |q.ents| == |s.q.ents| + 1
            && !q.ents[child].onRq && q.ents[child].preemptCount == 1 && q.ents[s.current].preemptCount >= 1
            && (forall e :: e in q.ents && q.ents[e].needResched ==> e == s.current)
            && (forall e :: e in q.line ==> q.ents[e].preemptCount >= 1)
  {
    var q := NewTask(s, child);
    assert q.ents.Keys == s.q.ents.Keys + {child};
    SumSame(s.q.ents, q.ents, s.q.line);
  }

  /** `task_fork_fair` and the end of `copy_process`, from an accounted queue that already knows the child. */
  lemma {:induction false} ForkInv(s: Sys, q: Rq, child: SchedEntity, childFirst: bool, i: nat)
    requires Accounted(q) && Running(q) && q.curr == s.current && child in q.ents && !q.ents[child].onRq
             && |q.ents| <= MAX_TASKS
    requires forall e :: e in q.ents && q.ents[e].needResched ==> e == s.current
    requires forall e :: e in q.line ==> q.ents[e].preemptCount >= 1
    requires q.ents[child].preemptCount >= 1 && q.ents[s.current].preemptCount >= 1 && i <= |q.line|
    ensures Inv(ForkDone(s, q, child, childFirst, i))
  {
    EnqueueAccounts(q, child, i);
    var q1 := EnqueueEntity(q, child, i);
    ForkEnqueueSame(q, child, childFirst, i);
    ForkTail(s, q1, ForkEnqueue(q, child, childFirst, i), child);
  }

  lemma {:induction false} ForkEnqueueSame(q: Rq, e: SchedEntity, childFirst: bool, i: nat)
    requires Closed(q) && e in q.ents && i <= |q.line|
    ensures var (q1, q2) := (EnqueueEntity(q, e, i), ForkEnqueue(q, e, childFirst, i));
            && SameAccounts(q1, q2)
            && forall x :: x in q.ents ==>
                 q2.ents[x].preemptCount == q.ents[x].preemptCount
                 && (q2.ents[x].needResched ==> q.ents[x].needResched || x == q.curr)
  {
  }

  lemma {:induction false} ForkTail(s: Sys, q1: Rq, q: Rq, child: SchedEntity)
    requires Accounted(q1) && SameAccounts(q1, q) && Running(q1) && q.curr == s.current && child in q.line
             && |q.ents| <= MAX_TASKS
    requires forall e :: e in q.ents && q.ents[e].needResched ==> e == s.current
    requires forall e :: e in q.line ==> q.ents[e].preemptCount >= 1
    requires q.ents[s.current].preemptCount >= 1
    ensures Inv(s.(q := Preempt(q, s.current, -1)))
  {
    SameAccounted(q1, Preempt(q, s.current, -1));
  }

  lemma {:induction false} ForkPlaceSame(q: Rq, e: SchedEntity, now: u64)
    requires Closed(q) && e in q.ents
    ensures SameAccounts(q, ForkPlace(q, e, now)) && SameTasks(q, ForkPlace(q, e, now))
  {
    var q0 := q.(clock := now);
    var q1 := UpdateCurr(q0);
    ChargeSame(q0);
    assert SameTasks(q, q1);
    PlaceSame(if q.curr != null then q1.(ents := q1.ents[e := q1.ents[e].(vruntime := q1.ents[q.curr].vruntime)])
        else q1, e);
  }

  lemma {:induction false} PlaceSame(q: Rq, e: SchedEntity)
    requires e in q.ents
    ensures SameAccounts(q, PlaceEntity(q, e)) && SameTasks(q, PlaceEntity(q, e))
  {
  }

  lemma {:induction false} TickInv(s: Sys, now: u64, s': Sys)
    requires Inv(s) && Step(s, Tick(now), s')
    ensures Inv(s')
  {
    if s.q.ents[s.current].preemptCount <= 0 {
      TickChargeInv(s, now);
      var s1 := TickCharge(s, now).value;
      if s1.q.ents[s.current].needResched { SwitchInv(s1, s'); }
    }
  }

  lemma {:induction false} BumpInv(s: Sys)
    requires Inv(s)
    ensures Inv(Bump(s))
  {
    SameInv(s, Bump(s));
  }

  /** Every event keeps the invariant. */
  lemma {:induction false} StepInv(s: Sys, l: Label, s': Sys)
    requires Inv(s) && Step(s, l, s')
    ensures Inv(s')
  {
    match l
    case Tick(now) => TickInv(s, now, s');
    case Yield =>
      BumpInv(s);
      SwitchInv(Bump(s), s');
    case Exit =>
      ExitAccounts(s);
      SwitchInv(Bump(ExitDequeue(s)), s');
    case Fork(child, now, childFirst) =>
      var q := ForkPlace(NewTask(s, child), child, now);
      var i: nat :| Gap(q, q.ents[child].vruntime, i) && s' == ForkDone(s, q, child, childFirst, i);
      ForkStepInv(s, child, now, childFirst, i);
    case ForkFails =>
      SameAccounted(s.q, s'.q);
  }

  lemma {:induction false} ForkStepInv(s: Sys, child: SchedEntity, now: u64, childFirst: bool, i: nat)
    requires Inv(s) && child !in s.q.ents && |s.q.ents| < MAX_TASKS
    requires var q := ForkPlace(NewTask(s, child), child, now);
             Closed(q) && i <= |q.line|
    ensures Inv(ForkDone(s, ForkPlace(NewTask(s, child), child, now), child, childFirst, i))
  {
    var q0 := NewTask(s, child);
    var q := ForkPlace(q0, child, now);
    NewTaskAccounts(s, child);
    ForkPlaceSame(q0, child, now);
    SameAccounted(q0, q);
    assert |q.ents.Keys| == |q0.ents.Keys|;
    ForkInv(s, q, child, childFirst, i);
  }

  lemma {:induction false} ForkStep(s: Sys, child: SchedEntity, now: u64, childFirst: bool, i: nat, s': Sys)
    requires Inv(s) && child !in s.q.ents && |s.q.ents| < MAX_TASKS
    requires var q := ForkPlace(NewTask(s, child), child, now);
             Closed(q) && Gap(q, q.ents[child].vruntime, i) && s' == ForkDone(s, q, child, childFirst, i)
    ensures Step(s, Fork(child, now, childFirst), s') && Inv(s')
  {
    ForkStepInv(s, child, now, childFirst, i);
  }

  lemma {:induction false} SwitchInv(s: Sys, s': Sys)
    requires WellFormed(s) && Accounted(s.q) && s.q.curr == s.current && |s.q.ents| <= MAX_TASKS
    requires HeldOff(s) && forall e :: e in s.q.ents && s.q.ents[e].needResched ==> e == s.current
    requires Switches(s, s')
    ensures Inv(s') && s.q.line != [] && s'.current == s.q.line[0]
  {
    var i: nat :| MayLand(s, i) && Schedule(s, i) == Some(s');
    ScheduleInv(s, s', i);
  }

  /** A tick never dereferences a null entity, neither for preemption nor in the switch it asks for. */
  lemma {:induction false} TickNeverFaults(s: Sys, now: u64)
    requires Inv(s)
    ensures TickCharge(s, now).Some?
    ensures var s1 := TickCharge(s, now).value;
            s1.q.ents[s.current].needResched ==> forall i: nat :: i <= |s1.q.line| ==> Schedule(s1, i).Some?
  {
    TickChargeInv(s, now);
    var s1 := TickCharge(s, now).value;
    if s1.q.ents[s.current].needResched {
      FewRunnable(s1);
      forall i: nat | i <= |s1.q.line| ensures Schedule(s1, i).Some? { ScheduleFaults(s1, i); }
    }
  }

  /** A voluntary `schedule` and an exit switch to a null task exactly when no other task is runnable. */
  lemma {:induction false} YieldFaultsIff(s: Sys, i: nat)
    requires Inv(s) && i <= |s.q.line|
    ensures Schedule(Bump(s), i).None? <==> s.q.line == []
    ensures var s1 := ExitDequeue(s);
            WellFormed(s1) && s1.q.line == s.q.line && (Schedule(Bump(s1), i).None? <==> s.q.line == [])
  {
    SameInv(s, Bump(s));
    FewRunnable(Bump(s));
    ScheduleFaults(Bump(s), i);
    ExitAccounts(s);
    FewRunnable(s);
    ScheduleFaults(Bump(ExitDequeue(s)), i);
  }

  // ----- runs -----

  /** Event `i` leads from state `i` to the next. */
  ghost predicate StepAt(states: seq<Sys>, events: seq<Label>, i: nat)
    requires i < |events| && |states| == |events| + 1
  {
    WellFormed(states[i]) && Step(states[i], events[i], states[i + 1])
  }

  /** The states a run goes through, and the events between them. */
  ghost predicate Run(states: seq<Sys>, events: seq<Label>) {
    |states| == |events| + 1 && forall i :: 0 <= i < |events| ==> StepAt(states, events, i)
  }

  lemma {:induction false} RunInv(states: seq<Sys>, events: seq<Label>, i: nat)
    requires Run(states, events) && Inv(states[0]) && i < |states|
    ensures Inv(states[i])
  {
    if i > 0 {
      RunInv(states, events, i - 1);
      assert StepAt(states, events, i - 1);
      StepInv(states[i - 1], events[i - 1], states[i]);
    }
  }

  /** In every state that a run from `sched_init` reaches, the counters and the tree agree with the entities, only the
      running task is flagged, and a tick does not fault. */
  lemma {:induction false} Reachable(states: seq<Sys>, events: seq<Label>, init: SchedEntity, load: LoadWeight,
                                     clock: u64, i: nat, now: u64)
    requires Run(states, events) && states[0] == Init(init, load, clock) && i < |states|
    ensures Inv(states[i]) && TickCharge(states[i], now).Some?
  {
    InitInv(init, load, clock);
    RunInv(states, events, i);
    TickNeverFaults(states[i], now);
  }

  // ----- slices -----

  function Slices(q: Rq): map<SchedEntity, nat> { map e | e in q.ents :: Slice(q, e) }

  lemma {:induction false} SlicesByWeight(q: Rq, es: seq<SchedEntity>) returns (ws: seq<u64>)
    requires forall e :: e in es ==> e in q.ents && q.ents[e].onRq
    ensures Sum(ws) == SumWeights(q.ents, es) && TotalSlices(SchedPeriod(q.nr), ws, q.load) == Sums(Slices(q), es)
  {
    if es == [] {
      ws := [];
    } else {
      ws := SlicesByWeight(q, es[1..]);
      ws := [q.ents[es[0]].load.weight] + ws;
    }
  }

  /** The load of the queue is the weight of the runnable entities, and its reciprocal is exact if there is one. */
  lemma {:induction false} LoadIs(s: Sys, es: seq<SchedEntity>)
    requires Inv(s) && Total(s.q) < TWO_32 && es == [s.current] + s.q.line
    ensures forall e :: e in es ==> e in s.q.ents && s.q.ents[e].onRq
    ensures SumWeights(s.q.ents, es) == s.q.load.weight < TWO_32 && Cached(s.q.load)
  {
    assert es[1..] == s.q.line;
  }

  lemma {:induction false} SlicesOf(q: Rq, es: seq<SchedEntity>)
    requires forall e :: e in es ==> e in q.ents && q.ents[e].onRq
    requires SumWeights(q.ents, es) == q.load.weight < TWO_32 && Cached(q.load)
    ensures Sums(Slices(q), es) <= SchedPeriod(q.nr)
  {
    var ws := SlicesByWeight(q, es);
    SlicesFit(SchedPeriod(q.nr), ws, q.load);
  }

  /** The slices of all runnable entities fit into the scheduling period, if their weights add up to less than 2^32. */
  lemma {:induction false} SlicesShareThePeriod(s: Sys)
    requires Inv(s) && Total(s.q) < TWO_32
    ensures forall e :: e in s.q.line ==> e in s.q.ents
    ensures Sums(Slices(s.q), [s.current] + s.q.line) <= SchedPeriod(s.q.nr)
  {
    LoadIs(s, [s.current] + s.q.line);
    SlicesOf(s.q, [s.current] + s.q.line);
  }
}
