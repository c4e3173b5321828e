/** What the events of the scheduler amount to, in terms of times, keys and slices alone. */
module SchedLaws {
  import opened Entities
  import opened Seqs
  import opened Fixed
  import opened Wrap
  import opened FairModel
  import opened FairLaws
  import opened SchedModel
  import opened SchedInv
  import opened SchedOrder
  import opened SchedRuns
  import opened Wrappers

  // ----- min_vruntime after an event -----

  /** Whenever time is charged, min_vruntime is brought up to the least key on the queue. */
  lemma {:induction false} ChargeAttains(q: Rq, b: u64)
    requires Neat(q, b) && Running(q) && q.curr !in q.line && Room(q, b) && 0 < Elapsed(q) < HALF
    ensures Closed(UpdateCurr(q)) && Neat(UpdateCurr(q), b) && Attained(UpdateCurr(q), b)
  {
    var e := q.ents[q.curr];
    var q1 := q.(ents := q.ents[q.curr := Charge(e, q.clock)]);
    WindowAdd(b, e.vruntime, Gain(q));
    assert Neat(q1, b);
    MinIsLeast(q1, b);
  }

  /** `dequeue_entity`, of the running entity while others wait */
  lemma {:induction false} DequeueAttains(q: Rq, b: u64)
    requires Accounted(q) && Running(q) && Neat(q, b) && Room(q, b) && q.line != []
    ensures Closed(DequeueEntity(q, q.curr)) && Attained(DequeueEntity(q, q.curr), b)
  {
    var q1 := UpdateCurr(q);
    ChargeStaysNeat(q, b);
    var q2 := q1.(ents := q1.ents[q.curr := q1.ents[q.curr].(onRq := false)]);
    var q3 := q2.(load := LoadSub(q2.load, q2.ents[q.curr].load.weight), nr := Dec32(q2.nr));
    assert Neat(q3, b);
    MinIsLeast(q3, b);
  }

  /** The same entities are on the queue, with the same keys. */
  ghost predicate SameQueue(q: Rq, q': Rq, b: u64) {
    && Closed(q) && Closed(q') && q'.ents.Keys == q.ents.Keys && q'.minV == q.minV
    && forall e :: e in q.ents && (e in q.line || (Running(q) && e == q.curr)) ==>
         (e in q'.line || (Running(q') && e == q'.curr)) && Key(q', b, e) == Key(q, b, e)
  }

  lemma {:induction false} SameAttained(q: Rq, q': Rq, b: u64)
    requires SameQueue(q, q', b) && Attained(q, b)
    ensures Attained(q', b)
  {
    var e :| e in q.ents && (e in q.line || (Running(q) && e == q.curr)) && Key(q, b, e) == Off(b, q.minV);
    AttainedBy(q', b, e);
  }

  /** What `_schedule` does when the running task has left the queue. */
  lemma {:induction false} LeavingSwitch(s: Sys, s': Sys, b: u64)
    requires WellFormed(s) && Accounted(s.q) && s.q.curr == s.current && !Running(s.q) && Switches(s, s')
             && |s.q.ents| <= MAX_TASKS && HeldOff(s)
             && forall e :: e in s.q.ents && s.q.ents[e].needResched ==> e == s.current
    ensures Inv(s') && SameQueue(s.q, s'.q, b)
  {
    var i: nat :| MayLand(s, i) && Schedule(s, i) == Some(s');
    ScheduleInv(s, s', i);
    ScheduleView(s, s', i);
    var next := s'.current;
    assert s'.q.line == Without(s.q.line, next);
    forall e | e in s.q.line && e != next ensures e in s'.q.line { OthersStay(s.q.line, next, e); }
  }

  /** After an exit min_vruntime is the least key of those that are left. */
  lemma {:induction false} ExitAttains(s: Sys, s': Sys, b: u64)
    requires Inv(s) && Neat(s.q, b) && Room(s.q, b) && Step(s, Exit, s')
    ensures Inv(s') && Closed(s'.q) && Attained(s'.q, b)
  {
    var q, s1 := Preempt(s.q, s.current, 1), Bump(ExitDequeue(s));
    ExitReady(s);
    ExitAccounts(s);
    PreemptSame(s.q, s.current, 1, b);
    SameKeysNeat(s.q, q, b);
    SwitchesSome(s1, s');
    DequeueAttains(q, b);
    LeftAttains(s, DequeueEntity(q, s.current), b);
    LeavingSwitch(s1, s', b);
    SameAttained(s1.q, s'.q, b);
  }

  lemma {:induction false} SwitchesSome(s: Sys, s': Sys)
    requires Switches(s, s')
    ensures s.q.line != []
  {
  }

  /** Neither the count nor the addition in `schedule` matters to a task that has left the queue. */
  lemma {:induction false} LeftAttains(s: Sys, q: Rq, b: u64)
    requires Closed(q) && s.current in q.ents && q.curr == s.current && !Running(q) && Attained(q, b)
    requires s.current !in q.line
    ensures var s1 := Bump(s.(q := Preempt(q, s.current, -1))); Closed(s1.q) && Attained(s1.q, b)
  {
    SameAttained(q, Bump(s.(q := Preempt(q, s.current, -1))).q, b);
  }

  // ----- when a tick asks for a switch -----

  /** How long the running task has run since it was picked. */
  function Ran(s: Sys): u64
    requires s.current in s.q.ents
  {
    Sub64(s.q.ents[s.current].sumExec, s.q.ents[s.current].prevSum)
  }

  /** The key of `e` is more than `slice` ahead of that of an entity that waits. */
  ghost predicate Leads(q: Rq, b: u64, e: SchedEntity, slice: nat)
    requires Closed(q) && e in q.ents
  {
    exists x :: x in q.line && Key(q, b, x) + slice < Key(q, b, e)
  }

  lemma {:induction false} LeadsFirst(q: Rq, b: u64, e: SchedEntity, slice: nat)
    requires Neat(q, b) && e in q.ents && q.line != []
    ensures q.line[0] in q.ents && (Leads(q, b, e, slice) <==> Key(q, b, q.line[0]) + slice < Key(q, b, e))
  {
    assert q.line[0] in q.line;
    LeftmostIsLeast(q, b);
  }

  /** What `check_preempt_tick` decides, on an ordered timeline. */
  lemma {:induction false} CheckFlags(q: Rq, b: u64)
    requires Neat(q, b) && Running(q) && q.line != []
    ensures CheckPreemptTick(q, q.curr).Some?
    ensures var (e, slice, q') := (q.ents[q.curr], Slice(q, q.curr), CheckPreemptTick(q, q.curr).value);
            var ran := Sub64(e.sumExec, e.prevSum);
            && q'.ents.Keys == q.ents.Keys && q'.line == q.line && q'.curr == q.curr
            && q'.ents[q.curr] == e.(needResched := q'.ents[q.curr].needResched)
            && (q'.ents[q.curr].needResched <==>
                e.needResched || ran > slice || (ran >= MIN_GRANULARITY && Leads(q, b, q.curr, slice)))
  {
    var first := q.line[0];
    assert first in q.line;
    LeadsFirst(q, b, q.curr, Slice(q, q.curr));
    WindowDiff(b, q.ents[q.curr].vruntime, q.ents[first].vruntime);
  }

  /** A tick charges the running task, and looks at it if others wait. */
  lemma {:induction false} TickParts(s: Sys, now: u64) returns (q1: Rq)
    requires Inv(s) && s.q.ents[s.current].preemptCount <= 0
    ensures q1 == UpdateCurr(s.q.(clock := now)) && Inv(s.(q := q1)) && q1.line == s.q.line && q1.curr == s.current
    ensures TickCharge(s, now).Some? && WellFormed(TickCharge(s, now).value)
            && TickCharge(s, now).value.current == s.current
    ensures if s.q.line == [] then TickCharge(s, now).value.q == q1
            else CheckPreemptTick(q1, s.current) == Some(TickCharge(s, now).value.q)
  {
    var q := s.q.(clock := now);
    TickChargeInv(s, now);
    ChargeSame(q);
    q1 := UpdateCurr(q);
    SameInv(s, s.(q := q1));
    FewRunnable(s.(q := q1));
  }

  /** The flag of `e` in `q'` is what it was in `q`, or is set since `e` has run enough. */
  ghost predicate FlaggedBy(q: Rq, q': Rq, b: u64, e: SchedEntity, slice: nat)
    requires Closed(q') && e in q.ents && e in q'.ents
  {
    var ran := Sub64(q'.ents[e].sumExec, q'.ents[e].prevSum);
    q'.ents[e].needResched <==>
      || q.ents[e].needResched
      || (q'.line != [] && (ran > slice || (ran >= MIN_GRANULARITY && Leads(q', b, e, slice))))
  }

  lemma {:induction false} CheckedFlag(q: Rq, q1: Rq, q2: Rq, b: u64)
    requires Neat(q1, b) && Running(q1) && q1.curr in q.ents && q1.line != []
             && q1.ents[q1.curr].needResched == q.ents[q1.curr].needResched
    requires CheckPreemptTick(q1, q1.curr) == Some(q2)
    ensures Closed(q2) && q2.curr == q1.curr && Slice(q2, q1.curr) == Slice(q1, q1.curr)
            && FlaggedBy(q, q2, b, q1.curr, Slice(q1, q1.curr))
  {
    CheckFlags(q1, b);
    CheckSame(q1, q1.curr);
    InverseIs(q1.load);
    assert forall x :: x in q1.line ==> Key(q2, b, x) == Key(q1, b, x);
  }

  /** A tick flags the running task if and only if others wait and it has run longer than its slice, or has run for the
      minimum granularity and is more than a slice ahead of one that waits. It leaves a flag that is set. */
  lemma {:induction false} TickFlags(s: Sys, now: u64, b: u64)
    requires Inv(s) && Neat(s.q, b) && Room(s.q.(clock := now), b) && s.q.ents[s.current].preemptCount <= 0
    ensures TickCharge(s, now).Some?
    ensures var s1 := TickCharge(s, now).value;
            && Inv(s1) && s1.current == s.current && s1.q.line == s.q.line
            && FlaggedBy(s.q, s1.q, b, s.current, Slice(s1.q, s.current))
  {
    TickChargeInv(s, now);
    var q := s.q.(clock := now);
    var q1 := TickParts(s, now);
    SameKeysNeat(s.q, q, b);
    ChargeStaysNeat(q, b);
    UpdateCurrCharges(q);
    if s.q.line != [] { CheckedFlag(s.q, q1, TickCharge(s, now).value.q, b); }
  }

  // ----- what a fork exchanges -----

  lemma {:induction false} EnqueueExchanges(q: Rq, child: SchedEntity, childFirst: bool, i: nat, b: u64)
    requires Neat(q, b) && Running(q) && child in q.ents && child !in q.line && child != q.curr && i <= |q.line|
    requires In(b, q.ents[child].vruntime)
    ensures var (q', p, c) := (ForkEnqueue(q, child, childFirst, i), Key(q, b, q.curr), Key(q, b, child));
            var swap := childFirst && p < c;
            && Closed(q') && q'.ents.Keys == q.ents.Keys && child in q'.line && q'.curr == q.curr
            && Key(q', b, q.curr) == (if swap then c else p) && Key(q', b, child) == (if swap then p else c)
            && (q'.ents[q.curr].needResched <==> q.ents[q.curr].needResched || swap)
  {
    WindowOrder(b, q.ents[q.curr].vruntime, q.ents[child].vruntime);
    assert Link(q, child, i).line[i] == child;
  }

  /** The same, up to the end of `copy_process`. */
  lemma {:induction false} DoneExchanges(s: Sys, q: Rq, child: SchedEntity, childFirst: bool, i: nat, b: u64)
    requires Neat(q, b) && Running(q) && q.curr == s.current && s.current in s.q.ents && child in q.ents
             && child !in q.line && child != q.curr && i <= |q.line|
    requires In(b, q.ents[child].vruntime)
    ensures var (s', p, c) := (ForkDone(s, q, child, childFirst, i), Key(q, b, s.current), Key(q, b, child));
            Exchanges(s', child, childFirst, b, p, c, q.ents[s.current].needResched) && s'.current == s.current
  {
    EnqueueExchanges(q, child, childFirst, i, b);
  }

  /** Of the keys `p` and `c`, the parent has the greater one if the child runs first, and is then flagged. */
  ghost predicate Exchanges(s: Sys, child: SchedEntity, childFirst: bool, b: u64, p: nat, c: nat, flagged: bool) {
    var swap := childFirst && p < c;
    && WellFormed(s) && child in s.q.line
    && Key(s.q, b, s.current) == (if swap then c else p) && Key(s.q, b, child) == (if swap then p else c)
    && (s.q.ents[s.current].needResched <==> flagged || swap)
  }

  lemma {:induction false} ParentFlag(s: Sys, child: SchedEntity, now: u64)
    requires Inv(s) && child !in s.q.ents
    ensures var q := ForkPlace(NewTask(s, child), child, now);
            s.current in q.ents && q.ents[s.current].needResched == s.q.ents[s.current].needResched
  {
    NewTaskAccounts(s, child);
    ForkPlaceSame(NewTask(s, child), child, now);
  }

  /** A fork gives parent and child the two keys, the lesser to the child if it is to run first; the parent is then
      flagged. */
  lemma {:induction false} ForkExchanges(s: Sys, child: SchedEntity, now: u64, childFirst: bool, s': Sys, b: u64)
    requires Inv(s) && Neat(s.q, b) && Step(s, Fork(child, now, childFirst), s') && ForkFits(s, now, b)
    ensures s'.current == s.current
    ensures Exchanges(s', child, childFirst, b, ParentKey(s, now, b), ChildKey(s, now, b),
            s.q.ents[s.current].needResched)
  {
    var q := ForkPlace(NewTask(s, child), child, now);
    ForkKeys(s, child, now, b);
    ParentFlag(s, child, now);
    var i: nat :| Gap(q, q.ents[child].vruntime, i) && s' == ForkDone(s, q, child, childFirst, i);
    DoneExchanges(s, q, child, childFirst, i, b);
  }
}
