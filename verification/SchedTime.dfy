/** Where the time goes: in every run whose clock does not go backwards, all that passes is charged to the tasks, and
    none of it twice. */
module SchedTime {
  import opened Entities
  import opened Seqs
  import opened Fixed
  import opened Wrap
  import opened FairModel
  import opened FairLaws
  import opened SchedModel
  import opened SchedInv
  import opened SchedRuns
  import opened Wrappers

  /** How long each task has run. */
  function Times(q: Rq): map<SchedEntity, nat> { map e | e in q.ents :: q.ents[e].sumExec }

  /** `es` lists the tasks, each once. */
  ghost predicate Lists(q: Rq, es: seq<SchedEntity>) {
    NoDup(es) && (forall e :: e in es ==> e in q.ents) && forall e :: e in q.ents ==> e in es
  }

  /** The running task has been charged up to the clock. */
  ghost predicate InStep(s: Sys)
    requires WellFormed(s)
  {
    s.q.ents[s.current].execStart == s.q.clock
  }

  /** The clock does not go backwards. */
  predicate Forward(q: Rq, now: u64) { Sub64(now, q.clock) < HALF }

  ghost predicate GoesForward(s: Sys, l: Label)
    requires WellFormed(s)
  {
    match l
    case Tick(now) => s.q.ents[s.current].preemptCount <= 0 ==> Forward(s.q, now)
    case Fork(_, now, _) => Forward(s.q, now)
    case _ => true
  }

  /** The tasks have run for as long as before, and the running one has been charged up to the same time. */
  ghost predicate SameTimes(q: Rq, q': Rq) {
    && q'.ents.Keys == q.ents.Keys && q'.clock == q.clock
    && forall e :: e in q.ents ==>
         q'.ents[e].sumExec == q.ents[e].sumExec && q'.ents[e].execStart == q.ents[e].execStart
  }

  /** All the time that has passed on the clock has been charged to the task `e`. */
  ghost predicate Spent(q: Rq, q': Rq, e: SchedEntity) {
    && q'.ents.Keys == q.ents.Keys && e in q.ents
    && (forall x :: x in q.ents && x != e ==> q'.ents[x].sumExec == q.ents[x].sumExec)
    && Sub64(q'.ents[e].sumExec, q.ents[e].sumExec) == Sub64(q'.clock, q.clock)
  }

  // ----- one event -----

  lemma {:induction false} ChargeSpends(q: Rq, now: u64)
    requires Closed(q) && q.curr != null && q.ents[q.curr].execStart == q.clock && Forward(q, now)
    ensures var q' := UpdateCurr(q.(clock := now));
            Spent(q, q', q.curr) && q'.clock == q'.ents[q.curr].execStart == now
  {
    UpdateCurrCharges(q.(clock := now));
  }

  lemma {:induction false} PutPrevTimes(q: Rq, i: nat)
    requires Closed(q) && q.curr != null && q.ents[q.curr].execStart == q.clock && i <= |q.line|
    ensures SameTimes(q, PutPrevEntity(q, q.curr, i))
  {
    UpdateCurrCharges(q);
  }

  lemma {:induction false} SetNextTimes(q: Rq, next: SchedEntity)
    requires next in q.ents
    ensures var q' := SetNextEntity(q, next);
            && q'.ents.Keys == q.ents.Keys && q'.clock == q.clock && q'.ents[next].execStart == q.clock
            && forall e :: e in q.ents ==> q'.ents[e].sumExec == q.ents[e].sumExec
  {
  }

  lemma {:induction false} TailTimes(q: Rq, prev: SchedEntity, next: SchedEntity)
    requires prev in q.ents && next in q.ents
    ensures SameTimes(q, Preempt(ClearResched(q, prev), next, -1))
  {
  }

  lemma {:induction false} ScheduleTimes(s: Sys, s': Sys, i: nat) returns (q: Rq)
    requires WellFormed(s) && s.q.curr == s.current && InStep(s) && i <= |s.q.line| && Schedule(s, i) == Some(s')
    ensures SameTimes(s.q, q) && s'.current in q.ents && SameTimes(SetNextEntity(q, s'.current), s'.q)
  {
    var q0 := Preempt(s.q, s.current, 1);
    var q1 := ScheduleParts(s, s', i);
    var q2 := PickIs(q0, s.current, i);
    PutPrevTimes(q0, i);
    q := PutPrevEntity(q0, s.current, i);
    TailTimes(q2, s.current, s'.current);
  }

  /** With nothing to charge, a switch only starts the clock of the next task. */
  lemma {:induction false} SwitchTimes(s: Sys, s': Sys)
    requires WellFormed(s) && s.q.curr == s.current && InStep(s) && Switches(s, s')
    ensures s'.current in s'.q.ents && s'.q.ents[s'.current].execStart == s'.q.clock == s.q.clock
    ensures s'.q.ents.Keys == s.q.ents.Keys
    ensures forall e :: e in s.q.ents ==> s'.q.ents[e].sumExec == s.q.ents[e].sumExec
  {
    var i: nat :| MayLand(s, i) && Schedule(s, i) == Some(s');
    var q := ScheduleTimes(s, s', i);
    SetNextTimes(q, s'.current);
  }

  lemma {:induction false} CheckTimes(q: Rq, e: SchedEntity)
    requires Closed(q) && e in q.ents && CheckPreemptTick(q, e).Some?
    ensures SameTimes(q, CheckPreemptTick(q, e).value) && CheckPreemptTick(q, e).value.curr == q.curr
  {
  }

  lemma {:induction false} TickSpends(s: Sys, now: u64, s': Sys)
    requires Inv(s) && InStep(s) && Step(s, Tick(now), s') && GoesForward(s, Tick(now))
    ensures Inv(s') && InStep(s') && Spent(s.q, s'.q, s.current)
  {
    StepInv(s, Tick(now), s');
    if s.q.ents[s.current].preemptCount <= 0 {
      ChargeSpends(s.q, now);
      TickChargeInv(s, now);
      var q1, s1 := UpdateCurr(s.q.(clock := now)), TickCharge(s, now).value;
      if q1.nr > 1 && q1.ents[s.current].preemptCount <= 0 { CheckTimes(q1, s.current); }
      if s1.q.ents[s.current].needResched { SwitchTimes(s1, s'); }
    }
  }

  lemma {:induction false} YieldSpends(s: Sys, s': Sys)
    requires Inv(s) && InStep(s) && Step(s, Yield, s')
    ensures Inv(s') && InStep(s') && Spent(s.q, s'.q, s.current)
  {
    StepInv(s, Yield, s');
    SwitchTimes(Bump(s), s');
  }

  lemma {:induction false} LeaveTimes(s: Sys)
    requires Inv(s) && InStep(s)
    ensures var s1 := Bump(ExitDequeue(s));
            WellFormed(s1) && s1.q.curr == s1.current == s.current && InStep(s1) && SameTimes(s.q, s1.q)
  {
    ExitAccounts(s);
    DequeueTimes(Preempt(s.q, s.current, 1));
  }

  lemma {:induction false} DequeueTimes(q: Rq)
    requires Closed(q) && Running(q) && q.ents[q.curr].execStart == q.clock
    ensures SameTimes(q, DequeueEntity(q, q.curr))
  {
    DequeueCharges(q);
  }

  lemma {:induction false} ExitSpends(s: Sys, s': Sys)
    requires Inv(s) && InStep(s) && Step(s, Exit, s')
    ensures Inv(s') && InStep(s') && Spent(s.q, s'.q, s.current)
  {
    StepInv(s, Exit, s');
    LeaveTimes(s);
    SwitchTimes(Bump(ExitDequeue(s)), s');
  }

  lemma {:induction false} NewTaskTimes(s: Sys, child: SchedEntity)
    requires Inv(s) && child !in s.q.ents
    ensures var q := NewTask(s, child);
            && Closed(q) && q.curr == s.current && child in q.ents && child != s.current
            && q.ents.Keys == s.q.ents.Keys + {child} && q.clock == s.q.clock
            && q.ents[child].sumExec == 0 && q.ents[s.current].execStart == s.q.ents[s.current].execStart
            && forall e :: e in s.q.ents ==> q.ents[e].sumExec == s.q.ents[e].sumExec
  {
    NewTaskAccounts(s, child);
  }

  lemma {:induction false} OneMoreTask(q: Rq, q0: Rq, q1: Rq, q': Rq, child: SchedEntity, e: SchedEntity)
    requires child !in q.ents && e in q.ents && q0.ents.Keys == q.ents.Keys + {child} && q0.clock == q.clock
    requires forall x :: x in q.ents ==> q0.ents[x].sumExec == q.ents[x].sumExec
    requires Spent(q0, q1, e) && q1.ents[child].sumExec == 0 && SameTimes(q1, q')
    ensures q'.ents.Keys == q.ents.Keys + {child} && q'.ents[child].sumExec == 0
    ensures Spent(q, q'.(ents := q'.ents - {child}), e)
  {
    var q2 := q'.(ents := q'.ents - {child});
    assert q2.ents.Keys == q.ents.Keys;
  }

  /** The child starts with no time. */
  lemma {:induction false} ForkSpends(s: Sys, child: SchedEntity, now: u64, childFirst: bool, s': Sys)
    requires Inv(s) && InStep(s) && Step(s, Fork(child, now, childFirst), s') && Forward(s.q, now)
    ensures Inv(s') && InStep(s') && s'.q.ents.Keys == s.q.ents.Keys + {child} && child !in s.q.ents
    ensures s'.q.ents[child].sumExec == 0 && Spent(s.q, s'.q.(ents := s'.q.ents - {child}), s.current)
  {
    StepInv(s, Fork(child, now, childFirst), s');
    var q := ForkPlace(NewTask(s, child), child, now);
    var i: nat :| Gap(q, q.ents[child].vruntime, i) && s' == ForkDone(s, q, child, childFirst, i);
    NewTaskTimes(s, child);
    ForkTimes(NewTask(s, child), child, now);
    DoneTimes(s, q, child, childFirst, i);
    OneMoreTask(s.q, NewTask(s, child), q, s'.q, child, s.current);
  }

  lemma {:induction false} ForkTimes(q: Rq, child: SchedEntity, now: u64)
    requires Closed(q) && q.curr != null && child in q.ents && child != q.curr
             && q.ents[q.curr].execStart == q.clock && Forward(q, now)
    ensures var q' := ForkPlace(q, child, now);
            && Closed(q') && q'.curr == q.curr && q'.clock == q'.ents[q.curr].execStart == now && Spent(q, q', q.curr)
            && q'.ents[child].sumExec == q.ents[child].sumExec
  {
    ChargeSpends(q, now);
  }

  lemma {:induction false} DoneTimes(s: Sys, q: Rq, child: SchedEntity, childFirst: bool, i: nat)
    requires Closed(q) && child in q.ents && s.current in q.ents && i <= |q.line|
    ensures SameTimes(q, ForkDone(s, q, child, childFirst, i).q)
  {
  }

  // ----- runs -----

  lemma {:induction false} SumsShift(f: map<SchedEntity, nat>, f': map<SchedEntity, nat>, es: seq<SchedEntity>,
                                     e: SchedEntity)
    requires NoDup(es) && e in es && (forall x :: x in es ==> x in f && x in f' && (x != e ==> f'[x] == f[x]))
    ensures Sums(f', es) + f[e] == Sums(f, es) + f'[e]
  {
    if es[0] == e {
      assert e !in es[1..];
      SumsSame(f, f', es[1..]);
    } else {
      SumsShift(f, f', es[1..], e);
    }
  }

  /** The sum over all tasks grows as the clock does, but for the `k` times that the counters wrap around. */
  ghost predicate Adds(q: Rq, es: seq<SchedEntity>, q': Rq, es': seq<SchedEntity>, k: int) {
    && Lists(q, es) && Lists(q', es')
    && Sums(Times(q'), es') == Sums(Times(q), es) + Sub64(q'.clock, q.clock) - k * TWO_64
  }

  lemma {:induction false} SpentSum(q: Rq, q': Rq, e: SchedEntity, es: seq<SchedEntity>) returns (k: int)
    requires Spent(q, q', e) && Lists(q, es)
    ensures Adds(q, es, q', es, k)
  {
    SumsShift(Times(q), Times(q'), es, e);
    k := if q'.ents[e].sumExec >= q.ents[e].sumExec then 0 else 1;
  }

  lemma {:induction false} ForkSum(q: Rq, q': Rq, child: SchedEntity, e: SchedEntity, es': seq<SchedEntity>)
    returns (es: seq<SchedEntity>, k: int)
    requires q'.ents.Keys == q.ents.Keys + {child} && child !in q.ents && q'.ents[child].sumExec == 0
    requires Spent(q, q'.(ents := q'.ents - {child}), e) && Lists(q', es')
    ensures Adds(q, es, q', es', k)
  {
    es := Without(es', child);
    var q1 := q'.(ents := q'.ents - {child});
    UnlinkSums(Times(q'), es', child);
    assert Lists(q, es);
    SumsSame(Times(q'), Times(q1), es);
    k := SpentSum(q, q1, e, es);
  }

  /** Every event charges what passes on the clock, and to one task. */
  lemma {:induction false} StepSpends(s: Sys, l: Label, s': Sys, es': seq<SchedEntity>)
    returns (es: seq<SchedEntity>, k: int)
    requires Inv(s) && InStep(s) && Step(s, l, s') && GoesForward(s, l) && Lists(s'.q, es')
    ensures Inv(s') && InStep(s') && Adds(s.q, es, s'.q, es', k)
  {
    StepInStep(s, l, s');
    if l.Fork? {
      ForkSpends(s, l.child, l.now, l.childFirst, s');
      es, k := ForkSum(s.q, s'.q, l.child, s.current, es');
    } else {
      OneSpends(s, l, s');
      es := es';
      k := SpentSum(s.q, s'.q, s.current, es);
    }
  }

  lemma {:induction false} OneSpends(s: Sys, l: Label, s': Sys)
    requires Inv(s) && InStep(s) && Step(s, l, s') && GoesForward(s, l) && !l.Fork?
    ensures Spent(s.q, s'.q, s.current)
  {
    match l
    case Tick(now) => TickSpends(s, now, s');
    case Yield => YieldSpends(s, s');
    case Exit => ExitSpends(s, s');
    case ForkFails =>
  }

  lemma {:induction false} StepInStep(s: Sys, l: Label, s': Sys)
    requires Inv(s) && InStep(s) && Step(s, l, s') && GoesForward(s, l)
    ensures Inv(s') && InStep(s')
  {
    match l
    case Tick(now) => TickSpends(s, now, s');
    case Yield => YieldSpends(s, s');
    case Exit => ExitSpends(s, s');
    case Fork(child, now, childFirst) => ForkSpends(s, child, now, childFirst, s');
    case ForkFails => StepInv(s, l, s');
  }

  ghost predicate ForwardAt(states: seq<Sys>, events: seq<Label>, i: nat)
    requires i < |events| && |states| == |events| + 1
  {
    WellFormed(states[i]) && GoesForward(states[i], events[i])
  }

  ghost predicate AllForward(states: seq<Sys>, events: seq<Label>) {
    |states| == |events| + 1 && forall i :: 0 <= i < |events| ==> ForwardAt(states, events, i)
  }

  lemma {:induction false} RunInStep(states: seq<Sys>, events: seq<Label>, i: nat)
    requires Run(states, events) && AllForward(states, events) && Inv(states[0]) && InStep(states[0]) && i < |states|
    ensures Inv(states[i]) && InStep(states[i])
  {
    if i > 0 {
      RunInStep(states, events, i - 1);
      assert StepAt(states, events, i - 1) && ForwardAt(states, events, i - 1);
      StepInStep(states[i - 1], events[i - 1], states[i]);
    }
  }

  /** From the time `c0`, at which no task has run yet. */
  ghost predicate AddsUp(q: Rq, es: seq<SchedEntity>, c0: u64, k: int) {
    Lists(q, es) && Sums(Times(q), es) == Sub64(q.clock, c0) + k * TWO_64
  }

  lemma {:induction false} AddsMore(q: Rq, es: seq<SchedEntity>, q': Rq, es': seq<SchedEntity>, c0: u64, k: int, n: int)
    returns (m: int)
    requires AddsUp(q, es, c0, k) && Adds(q, es, q', es', n)
    ensures AddsUp(q', es', c0, m)
  {
    var wraps := if Sub64(q.clock, c0) + Sub64(q'.clock, q.clock) >= TWO_64 then 1 else 0;
    m := k - n + wraps;
  }

  lemma {:induction false} RunAdds(states: seq<Sys>, events: seq<Label>, c0: u64, i: nat, es: seq<SchedEntity>)
    returns (k: int)
    requires Run(states, events) && AllForward(states, events) && Inv(states[0]) && InStep(states[0]) && i < |states|
    requires states[0].q.clock == c0 && (forall e :: e in states[0].q.ents ==> states[0].q.ents[e].sumExec == 0)
    requires Lists(states[i].q, es)
    ensures AddsUp(states[i].q, es, c0, k)
  {
    if i == 0 {
      NoTimes(Times(states[0].q), es);
      k := 0;
    } else {
      RunInStep(states, events, i - 1);
      assert StepAt(states, events, i - 1) && ForwardAt(states, events, i - 1);
      var before, n := StepSpends(states[i - 1], events[i - 1], states[i], es);
      k := RunAdds(states, events, c0, i - 1, before);
      k := AddsMore(states[i - 1].q, before, states[i].q, es, c0, k, n);
    }
  }

  lemma {:induction false} NoTimes(f: map<SchedEntity, nat>, es: seq<SchedEntity>)
    requires forall e :: e in es ==> e in f && f[e] == 0
    ensures Sums(f, es) == 0
  {
    if es != [] { NoTimes(f, es[1..]); }
  }

  lemma {:induction false} InitTimes(init: SchedEntity, load: LoadWeight, clock: u64)
    ensures var s := Init(init, load, clock);
            && Inv(s) && InStep(s) && s.q.clock == clock
            && forall e :: e in s.q.ents ==> s.q.ents[e].sumExec == 0
  {
    InitInv(init, load, clock);
  }

  /** In every state of every run from `sched_init` whose clock does not go backwards, the running task has been charged
      up to the clock, and the times for which the tasks have run, those that have exited among them, add up to the time
      that has passed (modulo 2^64). */
  lemma {:induction false} TimeAddsUp(states: seq<Sys>, events: seq<Label>, init: SchedEntity, load: LoadWeight,
                                      clock: u64, i: nat, es: seq<SchedEntity>)
    requires Run(states, events) && states[0] == Init(init, load, clock) && AllForward(states, events) && i < |states|
    requires Lists(states[i].q, es)
    ensures Inv(states[i]) && InStep(states[i])
    ensures Sums(Times(states[i].q), es) % TWO_64 == Sub64(states[i].q.clock, clock)
  {
    InitTimes(init, load, clock);
    RunInStep(states, events, i);
    var k := RunAdds(states, events, clock, i, es);
    ModIs(Sums(Times(states[i].q), es), k, Sub64(states[i].q.clock, clock));
  }
}
