/** Runs driven by a timer that keeps going: the running task is flagged within a scheduling period, and so every
    waiting entity is picked in the end. */
module TickProgress {
  import opened Entities
  import opened Seqs
  import opened Arith
  import opened Fixed
  import opened Wrap
  import opened FairModel
  import opened SchedModel
  import opened SchedCounts
  import opened SchedInv
  import opened SchedLaws
  import opened SchedFirst
  import opened SchedLoads
  import opened Overtaking
  import opened TickRuns
  import opened Wrappers

  // ----- one tick -----

  /** Time has gone by since the running task was last charged. */
  ghost predicate Later(s: Sys, now: u64)
    requires WellFormed(s)
  {
    0 < Sub64(now, s.q.ents[s.current].execStart) < TWO_32
  }

  lemma {:induction false} ChargeRan(q: Rq)
    requires Closed(q) && q.curr != null && 0 < Sub64(q.clock, q.ents[q.curr].execStart) < TWO_32
    ensures var (e, e') := (q.ents[q.curr], UpdateCurr(q).ents[q.curr]);
            && e'.prevSum == e.prevSum && e'.preemptCount == e.preemptCount
            && (Sub64(e.sumExec, e.prevSum) < TWO_32 ==> Sub64(e'.sumExec, e'.prevSum) > Sub64(e.sumExec, e.prevSum))
  {
    var e, delta := q.ents[q.curr], Sub64(q.clock, q.ents[q.curr].execStart);
    if Sub64(e.sumExec, e.prevSum) < TWO_32 {
      assert Sub64(Add64(e.sumExec, delta), e.prevSum) == Sub64(e.sumExec, e.prevSum) + delta;
    }
  }

  lemma {:induction false} SliceWithinPeriod(s: Sys)
    requires Inv(s) && Total(s.q) < TWO_32
    ensures Slice(s.q, s.current) <= SchedPeriod(s.q.nr)
  {
    SlicesShareThePeriod(s);
    var es := [s.current] + s.q.line;
    assert es[1..] == s.q.line && Sums(Slices(s.q), es) == Slices(s.q)[s.current] + Sums(Slices(s.q), es[1..]);
  }

  /** `check_preempt_tick` lets the running task go on only within its slice. */
  lemma {:induction false} CheckRan(q: Rq, e: SchedEntity)
    requires Closed(q) && e in q.ents && CheckPreemptTick(q, e).Some?
    ensures var q' := CheckPreemptTick(q, e).value;
            && e in q'.ents && q'.nr == q.nr && q'.ents[e].sumExec == q.ents[e].sumExec
            && q'.ents[e].prevSum == q.ents[e].prevSum
            && (!q'.ents[e].needResched ==> Sub64(q.ents[e].sumExec, q.ents[e].prevSum) <= Slice(q, e))
  {
  }

  lemma {:induction false} ChargedState(s: Sys, now: u64)
    requires Inv(s)
    ensures var s1 := s.(q := UpdateCurr(s.q.(clock := now)));
            Inv(s1) && Total(s1.q) == Total(s.q) && s1.q.nr == s.q.nr && s1.q.line == s.q.line
  {
    var q := s.q.(clock := now);
    ChargeSame(q);
    SameInv(s, s.(q := UpdateCurr(q)));
    SumSame(s.q.ents, UpdateCurr(q).ents, s.q.line);
  }

  /** A tick that does not ask for a switch finds the running task within the period, and further on than before. */
  lemma {:induction false} TickRan(s: Sys, now: u64)
    requires Inv(s) && CountOf(s, s.current) <= 0 && s.q.line != [] && Total(s.q) < TWO_32 && Later(s, now)
    ensures TickCharge(s, now).Some?
    ensures var s1 := TickCharge(s, now).value;
            && WellFormed(s1) && s1.current == s.current && s1.q.nr == s.q.nr
            && (s1.q.ents[s.current].needResched || (Ran(s1) <= SchedPeriod(s.q.nr)
               && (Ran(s) < TWO_32 ==> Ran(s1) > Ran(s))))
  {
    var q := s.q.(clock := now);
    var s1 := s.(q := UpdateCurr(q));
    TickChargeInv(s, now);
    ChargedState(s, now);
    ChargeRan(q);
    SliceWithinPeriod(s1);
    FewRunnable(s1);
    CheckRan(s1.q, s.current);
  }

  // ----- runs -----

  /** Only ticks, each later than the one before, of tasks of one weight. */
  ghost predicate Ticking(states: seq<Sys>, events: seq<Label>, w: nat) {
    && Run(states, events) && Inv(states[0]) && Alike(states[0].q, w) && MAX_TASKS * w < TWO_32
    && forall i :: 0 <= i < |events| ==> LaterAt(states, events, i)
  }

  ghost predicate LaterAt(states: seq<Sys>, events: seq<Label>, i: nat)
    requires i < |events| && |states| == |events| + 1
  {
    WellFormed(states[i]) && events[i].Tick? && Later(states[i], events[i].now)
  }

  lemma {:induction false} OnlyTicks(states: seq<Sys>, events: seq<Label>, w: nat)
    requires Ticking(states, events, w)
    ensures Ticks(events)
  {
    forall i | 0 <= i < |events| ensures events[i].Tick? { assert LaterAt(states, events, i); }
  }

  /** What holds in every state of such a run. */
  ghost predicate TicksAt(states: seq<Sys>, w: nat, i: nat)
    requires i < |states|
  {
    Inv(states[i]) && Alike(states[i].q, w) && states[i].q.nr == states[0].q.nr
  }

  lemma {:induction false} TickingAt(states: seq<Sys>, events: seq<Label>, w: nat, i: nat)
    requires Ticking(states, events, w) && i < |states|
    ensures TicksAt(states, w, i)
  {
    if i > 0 {
      TickingAt(states, events, w, i - 1);
      assert StepAt(states, events, i - 1) && LaterAt(states, events, i - 1);
      StepInv(states[i - 1], events[i - 1], states[i]);
      StepAlike(states[i - 1], events[i - 1], states[i], w);
      TickCount(states[i - 1], events[i - 1].now, states[i]);
    }
  }

  lemma {:induction false} TickCount(s: Sys, now: u64, s': Sys)
    requires Inv(s) && Step(s, Tick(now), s')
    ensures s'.q.nr == s.q.nr
  {
    if s.q.ents[s.current].preemptCount <= 0 {
      var s1 := TickCharge(s, now).value;
      ChargeCount(s, now);
      if s1.q.ents[s.current].needResched { SwitchCount(s1, s'); }
    }
  }

  lemma {:induction false} ChargeCount(s: Sys, now: u64)
    requires WellFormed(s) && TickCharge(s, now).Some?
    ensures TickCharge(s, now).value.q.nr == s.q.nr
  {
    ChargeSame(s.q.(clock := now));
  }

  lemma {:induction false} SwitchCount(s: Sys, s': Sys)
    requires Switches(s, s')
    ensures s'.q.nr == s.q.nr
  {
    var i: nat :| MayLand(s, i) && Schedule(s, i) == Some(s');
    PickCount(Preempt(s.q, s.current, 1), s.current, i);
  }

  lemma {:induction false} PickCount(q: Rq, prev: SchedEntity, i: nat)
    requires Closed(q) && prev in q.ents && i <= |q.line| && PickNextTask(q, prev, i).Some?
    ensures PickNextTask(q, prev, i).value.0.nr == q.nr
  {
    ChargeSame(q);
  }

  /** One tick of the run: a switch, or the running task gets further within the period `p`. */
  ghost predicate RansAt(states: seq<Sys>, p: nat, i: nat)
    requires i + 1 < |states|
  {
    var (s, s') := (states[i], states[i + 1]);
    && s.current in s.q.ents && s'.current in s'.q.ents
    && (s'.current == s.current ==> Ran(s') <= p && (Ran(s) <= p ==> Ran(s') > Ran(s)))
  }

  lemma {:induction false} TickingRan(states: seq<Sys>, events: seq<Label>, w: nat, i: nat, x: SchedEntity)
    requires Ticking(states, events, w) && i < |events| && x in states[i].q.line && OpenAt(states, x, i)
    ensures RansAt(states, SchedPeriod(states[0].q.nr), i)
  {
    var s, s' := states[i], states[i + 1];
    TickingAt(states, events, w, i);
    TickingAt(states, events, w, i + 1);
    assert StepAt(states, events, i) && LaterAt(states, events, i);
    WeightFits(s, w);
    TickRan(s, events[i].now);
    TickChargeInv(s, events[i].now);
    var s1 := TickCharge(s, events[i].now).value;
    if s1.q.ents[s.current].needResched { SwitchInv(s1, s'); }
  }

  lemma {:induction false} WeightFits(s: Sys, w: nat)
    requires Inv(s) && Alike(s.q, w) && MAX_TASKS * w < TWO_32
    ensures Total(s.q) < TWO_32 && SchedPeriod(s.q.nr) < TWO_32
  {
    TotalAlike(s, w);
    FewRunnable(s);
    MulUp(Count(s.q), w, MAX_TASKS, w);
  }

  ghost predicate AllRan(states: seq<Sys>, p: nat) { forall i :: 0 <= i < |states| - 1 ==> RansAt(states, p, i) }

  /** As long as there is no switch, the running task gets further with every tick. */
  lemma {:induction false} NoSwitch(states: seq<Sys>, p: nat, i: nat, k: nat)
    requires AllRan(states, p) && i + k < |states| && Turns(states, i + k) == Turns(states, i) && k > 0
    ensures states[i + k].current in states[i + k].q.ents && k - 1 <= Ran(states[i + k]) <= p
    decreases k
  {
    TurnsGrow(states, i, i + k - 1);
    assert RansAt(states, p, i + k - 1);
    if k > 1 { NoSwitch(states, p, i, k - 1); }
  }

  lemma {:induction false} TurnsGrow(states: seq<Sys>, i: nat, j: nat)
    requires i <= j < |states|
    ensures Turns(states, i) <= Turns(states, j)
    decreases j - i
  {
    if i < j { TurnsGrow(states, i, j - 1); }
  }

  /** There is a switch within any `p + 2` ticks, and so many in any number of ticks. */
  lemma {:induction false} TurnsCome(states: seq<Sys>, p: nat, n: nat, k: nat)
    requires AllRan(states, p) && k == n * (p + 2) < |states|
    ensures Turns(states, k) >= n
    decreases n
  {
    if n > 0 {
      var j := (n - 1) * (p + 2);
      assert k == j + (p + 2);
      TurnsCome(states, p, n - 1, j);
      TurnsGrow(states, j, k);
      if Turns(states, k) == Turns(states, j) { NoSwitch(states, p, j, p + 2); }
    }
  }

  lemma {:induction false} TicksBounded(states: seq<Sys>, p: nat, turns: nat, n: nat)
    requires AllRan(states, p) && n < |states| && Turns(states, n) <= turns
    ensures n < (turns + 1) * (p + 2)
  {
    var k := (turns + 1) * (p + 2);
    if k <= n {
      TurnsCome(states, p, turns + 1, k);
      TurnsGrow(states, k, n);
    }
  }

  lemma {:induction false} SwitchesBounded(states: seq<Sys>, events: seq<Label>, b: u64, x: SchedEntity)
    requires TickRun(states, events, b) && Waits(states, x)
    ensures Inv(states[0]) && x in states[0].q.line && Turns(states, |events|) <= Ahead(states[0], b, x)
  {
    forall i | 0 <= i < |states| ensures x in states[i].q.line { assert WaitsIn(states, x, i); }
    TicksBoundSwitches(states, events, b, x);
  }

  lemma {:induction false} TickingAllRan(states: seq<Sys>, events: seq<Label>, w: nat, x: SchedEntity)
    requires Ticking(states, events, w) && Waits(states, x) && !Blocked(states[0], x)
    ensures AllRan(states, SchedPeriod(states[0].q.nr)) && Inv(states[0]) && WaitsIn(states, x, 0)
  {
    assert WaitsIn(states, x, 0);
    OnlyTicks(states, events, w);
    forall i | 0 <= i < |states| - 1 ensures RansAt(states, SchedPeriod(states[0].q.nr), i) {
      assert WaitsIn(states, x, i);
      StaysOpen(states, events, x, i);
      TickingRan(states, events, w, i, x);
    }
  }

  function Rounds(ahead: nat, period: nat): nat { (ahead + 1) * (period + 2) }

  /** How many ticks an entity can wait that is not blocked: as many periods (and two ticks each) as the others are
      ahead of it, and one more. */
  ghost function Patience(s: Sys, b: u64, x: SchedEntity): nat
    requires Inv(s) && x in s.q.line
  {
    Rounds(Ahead(s, b, x), SchedPeriod(s.q.nr))
  }

  /** Under a timer that goes on nobody starves who is not blocked. */
  lemma {:induction false} NobodyStarves(states: seq<Sys>, events: seq<Label>, b: u64, w: nat, x: SchedEntity)
    requires TickRun(states, events, b) && Ticking(states, events, w) && Waits(states, x) && !Blocked(states[0], x)
    ensures Inv(states[0]) && x in states[0].q.line && |events| < Patience(states[0], b, x)
  {
    TickingAllRan(states, events, w, x);
    SwitchesBounded(states, events, b, x);
    TicksBounded(states, SchedPeriod(states[0].q.nr), Ahead(states[0], b, x), |events|);
  }

  ghost predicate PickedIn(states: seq<Sys>, x: SchedEntity, i: nat)
    requires i < |states|
  {
    states[i].current == x
  }

  /** In a run of ticks that is no shorter than that, a waiting entity is picked if and only if it is not blocked at the
      beginning. */
  lemma {:induction false} PickedIff(states: seq<Sys>, events: seq<Label>, b: u64, w: nat, x: SchedEntity)
    requires TickRun(states, events, b) && Ticking(states, events, w) && x in states[0].q.line
    requires |events| >= Patience(states[0], b, x)
    ensures (exists i :: 0 <= i < |states| && PickedIn(states, x, i)) <==> !Blocked(states[0], x)
  {
    OnlyTicks(states, events, w);
    if Blocked(states[0], x) {
      forall i | 0 <= i < |states| ensures !PickedIn(states, x, i) { NeverPicked(states, events, x, i); }
    } else {
      if Waits(states, x) { NobodyStarves(states, events, b, w, x); }
      var i :| 0 <= i < |states| && !WaitsIn(states, x, i);
      var j := FirstOut(states, events, x, i);
      assert PickedIn(states, x, j);
    }
  }

  /** When it no longer waits for the first time it has been picked. */
  lemma {:induction false} FirstOut(states: seq<Sys>, events: seq<Label>, x: SchedEntity, i: nat) returns (j: nat)
    requires Run(states, events) && Ticks(events) && Inv(states[0]) && i < |states|
    requires WaitsIn(states, x, 0) && !WaitsIn(states, x, i)
    ensures j <= i && states[j].current == x
  {
    if WaitsIn(states, x, i - 1) {
      j := i;
      RunInv(states, events, i - 1);
      assert StepAt(states, events, i - 1);
      TickPicks(states[i - 1], events[i - 1].now, states[i], x);
    } else {
      j := FirstOut(states, events, x, i - 1);
    }
  }
}
