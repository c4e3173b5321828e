/** Runs driven by the timer alone: every task that is picked gains virtual time before the next switch. */
module TickRuns {
  import opened Entities
  import opened Fixed
  import opened Wrap
  import opened FairModel
  import opened SchedModel
  import opened SchedInv
  import opened SchedOrder
  import opened SchedRuns
  import opened Overtaking
  import opened Wrappers

  /** A load under which virtual time runs at least as fast as the clock. Every level from nice 0 up has one. */
  predicate Steady(lw: LoadWeight) { lw.weight == NICE_0_LOAD || Factor(NICE_0_LOAD, lw) >= TWO_32 }

  lemma {:induction false} SteadyAdvances(delta: u64, lw: LoadWeight)
    requires Steady(lw) && delta < TWO_32
    ensures DeltaFair(delta, lw) >= delta && Steady(FairLoad(lw))
  {
    if lw.weight != NICE_0_LOAD { CalcDeltaAdvances(delta, NICE_0_LOAD, lw); }
  }

  /** The loads are as before, or hold the reciprocal that `__calc_delta` has cached since. */
  ghost predicate LoadsKept(q: Rq, q': Rq) {
    q'.ents.Keys == q.ents.Keys && forall e :: e in q.ents ==>
                                     q'.ents[e].load == q.ents[e].load || q'.ents[e].load == FairLoad(q.ents[e].load)
  }

  ghost predicate AllSteady(q: Rq) { forall e :: e in q.ents ==> Steady(q.ents[e].load) }

  lemma {:induction false} KeptSteady(q: Rq, q': Rq)
    requires AllSteady(q) && LoadsKept(q, q')
    ensures AllSteady(q')
  {
    forall e | e in q'.ents ensures Steady(q'.ents[e].load) { SteadyAdvances(0, q.ents[e].load); }
  }

  /** The running entity is not flagged, and its virtual time has come at least as far since it was picked, at the key
      `picked`, as the time it has run. */
  ghost predicate Earned(s: Sys, b: u64, picked: int)
    requires WellFormed(s)
  {
    var e := s.q.ents[s.current];
    !e.needResched && picked + Sub64(e.sumExec, e.prevSum) <= Key(s.q, b, s.current)
  }

  lemma {:induction false} ChargeEarned(q: Rq, b: u64, picked: int)
    requires Closed(q) && q.curr != null && Running(q) && Room(q, b) && picked >= 0
    requires Steady(q.ents[q.curr].load) && Sub64(q.clock, q.ents[q.curr].execStart) < TWO_32
    requires picked + Sub64(q.ents[q.curr].sumExec, q.ents[q.curr].prevSum) <= Key(q, b, q.curr)
    ensures var q' := UpdateCurr(q);
            && picked + Sub64(q'.ents[q.curr].sumExec, q'.ents[q.curr].prevSum) <= Key(q', b, q.curr)
            && LoadsKept(q, q')
            && q'.ents[q.curr].needResched == q.ents[q.curr].needResched
  {
    var e := q.ents[q.curr];
    var delta := Sub64(q.clock, e.execStart);
    if S64(delta) > 0 {
      SteadyAdvances(delta, e.load);
      WindowAdd(b, e.vruntime, Gain(q));
      assert Sub64(Add64(e.sumExec, delta), e.prevSum) == Sub64(e.sumExec, e.prevSum) + delta;
    }
  }

  /** `check_preempt_tick` asks for a switch only if the running entity has run. */
  lemma {:induction false} CheckEarned(q: Rq, e: SchedEntity)
    requires Closed(q) && e in q.ents && !q.ents[e].needResched && CheckPreemptTick(q, e).Some?
    ensures var q' := CheckPreemptTick(q, e).value;
            && e in q'.ents && (q'.ents[e].needResched ==> Sub64(q.ents[e].sumExec, q.ents[e].prevSum) > 0)
            && q'.ents.Keys == q.ents.Keys && forall x :: x in q.ents ==>
                                                q'.ents[x].(needResched := q.ents[x].needResched) == q.ents[x]
  {
  }

  /** At the tick less than 2^32 units have gone by since the last one. */
  ghost predicate Prompt(s: Sys, now: u64)
    requires WellFormed(s)
  {
    Sub64(now, s.q.ents[s.current].execStart) < TWO_32
  }

  lemma {:induction false} TickEarned(s: Sys, now: u64, b: u64, picked: int)
    requires Inv(s) && Neat(s.q, b) && Room(s.q.(clock := now), b) && AllSteady(s.q) && Prompt(s, now) && picked >= 0
    requires Earned(s, b, picked)
    ensures var s1 := TickCharge(s, now).value;
            && TickCharge(s, now).Some? && WellFormed(s1) && s1.current == s.current
            && if s1.q.ents[s.current].needResched then picked < Key(s1.q, b, s.current) else Earned(s1, b, picked)
  {
    TickChargeInv(s, now);
    var q := s.q.(clock := now);
    ChargeEarned(q, b, picked);
    var q1 := UpdateCurr(q);
    if q1.nr > 1 && q1.ents[s.current].preemptCount <= 0 { CheckEarned(q1, s.current); }
  }

  lemma {:induction false} TickLoads(s: Sys, now: u64)
    requires Inv(s)
    ensures TickCharge(s, now).Some? && LoadsKept(s.q, TickCharge(s, now).value.q)
  {
    TickChargeInv(s, now);
    var q := UpdateCurr(s.q.(clock := now));
    assert LoadsKept(s.q, q);
    CheckLoads(q, s.current);
  }

  lemma {:induction false} CheckLoads(q: Rq, e: SchedEntity)
    requires Closed(q) && e in q.ents
    ensures CheckPreemptTick(q, e).Some? ==>
              var q' := CheckPreemptTick(q, e).value;
              q'.ents.Keys == q.ents.Keys && forall x :: x in q.ents ==> q'.ents[x].load == q.ents[x].load
  {
  }

  lemma {:induction false} PutPrevLoads(q: Rq, prev: SchedEntity, i: nat)
    requires Closed(q) && prev in q.ents && i <= |q.line|
    ensures var q' := PutPrevEntity(q, prev, i);
            LoadsKept(q, q') && forall x :: x in q.ents ==> q'.ents[x].needResched == q.ents[x].needResched
  {
  }

  lemma {:induction false} NextFresh(q: Rq, prev: SchedEntity, next: SchedEntity)
    requires prev in q.ents && next in q.ents && !q.ents[next].needResched
    ensures var q' := Preempt(ClearResched(SetNextEntity(q, next), prev), next, -1);
            && q'.ents.Keys == q.ents.Keys && (forall x :: x in q.ents ==> q'.ents[x].load == q.ents[x].load)
            && !q'.ents[next].needResched && q'.ents[next].prevSum == q'.ents[next].sumExec
  {
  }

  /** The entity that `_schedule` picks starts out unflagged, with no time run. */
  lemma {:induction false} ScheduleFresh(s: Sys, s': Sys, i: nat)
    requires WellFormed(s) && i <= |s.q.line| && Schedule(s, i) == Some(s')
    requires s.current !in s.q.line && forall e :: e in s.q.ents && s.q.ents[e].needResched ==> e == s.current
    ensures LoadsKept(s.q, s'.q) && s'.current in s'.q.ents
    ensures var e := s'.q.ents[s'.current]; !e.needResched && e.prevSum == e.sumExec
  {
    var q := Preempt(s.q, s.current, 1);
    var q2 := PickIs(q, s.current, i);
    PutPrevLoads(q, s.current, i);
    assert q.line[0] in s.q.line;
    NextFresh(PutPrevEntity(q, s.current, i), s.current, q.line[0]);
  }

  ghost predicate TickHas(s: Sys, now: u64, b: u64)
    requires WellFormed(s)
  {
    Headroom(s, Tick(now), b) && Prompt(s, now)
  }

  lemma {:induction false} SwitchFresh(s: Sys, s': Sys, b: u64)
    requires Inv(s) && AllSteady(s.q) && Switches(s, s')
    ensures WellFormed(s') && AllSteady(s'.q) && Earned(s', b, Key(s'.q, b, s'.current))
  {
    SwitchInv(s, s');
    var i: nat :| MayLand(s, i) && Schedule(s, i) == Some(s');
    ScheduleFresh(s, s', i);
    KeptSteady(s.q, s'.q);
  }

  /** One tick: a task keeps what it has earned, and if it has to give way it has earned something. */
  lemma {:induction false} StepEarned(s: Sys, now: u64, s': Sys, b: u64, picked: int)
    requires Inv(s) && Neat(s.q, b) && Step(s, Tick(now), s') && TickHas(s, now, b) && AllSteady(s.q) && picked >= 0
    ensures WellFormed(s') && AllSteady(s'.q)
    ensures s'.current != s.current ==> Earned(s', b, Key(s'.q, b, s'.current))
    ensures Earned(s, b, picked) ==> if s'.current == s.current then Earned(s', b, picked)
                                     else picked < Key(s'.q, b, s.current)
  {
    if s.q.ents[s.current].preemptCount <= 0 {
      TickChargeInv(s, now);
      TickLoads(s, now);
      TickNeat(s, now, b);
      var s1 := TickCharge(s, now).value;
      KeptSteady(s.q, s1.q);
      if Earned(s, b, picked) { TickEarned(s, now, b, picked); }
      if s1.q.ents[s.current].needResched {
        SwitchFresh(s1, s', b);
        SwitchNeat(s1, s', b);
      }
    }
  }

  /** Only ticks, each soon enough after the last, of tasks at nice 0 or above. */
  ghost predicate TickRun(states: seq<Sys>, events: seq<Label>, b: u64) {
    && RoomyRun(states, events, b) && AllSteady(states[0].q)
    && forall i :: 0 <= i < |events| ==> TickAt(states, events, i)
  }

  ghost predicate TickAt(states: seq<Sys>, events: seq<Label>, i: nat)
    requires i < |events| && |states| == |events| + 1
  {
    WellFormed(states[i]) && events[i].Tick? && Prompt(states[i], events[i].now)
  }

  lemma {:induction false} EarnedNext(states: seq<Sys>, events: seq<Label>, b: u64, i: nat, picked: nat)
    requires TickRun(states, events, b) && i < |events| && AllSteady(states[i].q)
    ensures WellFormed(states[i]) && WellFormed(states[i + 1]) && AllSteady(states[i + 1].q)
    ensures var (s, s') := (states[i], states[i + 1]);
            && (s'.current != s.current ==> Earned(s', b, Key(s'.q, b, s'.current)))
            && (Earned(s, b, picked) ==> if s'.current == s.current then Earned(s', b, picked)
               else s.current in s'.q.ents && picked < Key(s'.q, b, s.current))
  {
    RunNeat(states, events, b, i);
    assert StepAt(states, events, i) && RoomAt(states, events, b, i) && TickAt(states, events, i);
    StepEarned(states[i], events[i].now, states[i + 1], b, picked);
  }

  /** What is known of state `i` of a run of ticks. */
  ghost predicate EarnedAt(states: seq<Sys>, b: u64, i: nat)
    requires i < |states|
  {
    && WellFormed(states[i]) && AllSteady(states[i].q) && PickedKey(states, b, i) >= 0
    && (Turns(states, i) > 0 ==> Earned(states[i], b, PickedKey(states, b, i)))
  }

  lemma {:induction false} RunEarned(states: seq<Sys>, events: seq<Label>, b: u64, i: nat)
    requires TickRun(states, events, b) && i < |states|
    ensures EarnedAt(states, b, i)
  {
    if i > 0 {
      RunEarned(states, events, b, i - 1);
      EarnedNext(states, events, b, i - 1, PickedKey(states, b, i - 1));
    }
  }

  lemma {:induction false} TickGain(states: seq<Sys>, events: seq<Label>, b: u64, i: nat)
    requires TickRun(states, events, b) && i < |events|
    ensures GainAt(states, b, i)
  {
    RunEarned(states, events, b, i);
    EarnedNext(states, events, b, i, PickedKey(states, b, i));
  }

  /** Under the timer alone there are, while `x` waits, at most as many switches as the others were ahead of it at the
      start. How soon they come is another matter. */
  lemma {:induction false} TicksBoundSwitches(states: seq<Sys>, events: seq<Label>, b: u64, x: SchedEntity)
    requires TickRun(states, events, b) && forall i :: 0 <= i < |states| ==> x in states[i].q.line
    ensures Turns(states, |events|) <= Ahead(states[0], b, x)
  {
    forall i | 0 <= i < |events| ensures GainAt(states, b, i) { TickGain(states, events, b, i); }
    forall i | 0 <= i < |events| ensures !events[i].Fork? { assert TickAt(states, events, i); }
    BoundedOvertaking(states, events, b, x);
  }
}
