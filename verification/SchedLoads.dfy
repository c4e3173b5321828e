/** Priorities are inherited: every task has the weight of the first one, and so the weights never add up to 2^32. */
module SchedLoads {
  import opened Entities
  import opened Seqs
  import opened Arith
  import opened Fixed
  import opened FairModel
  import opened FairLaws
  import opened SchedModel
  import opened SchedInv
  import opened Wrappers

  /** Every task has the weight `w`. */
  ghost predicate Alike(q: Rq, w: nat) { forall e :: e in q.ents ==> q.ents[e].load.weight == w }

  lemma {:induction false} PickAlike(s: Sys, s': Sys, i: nat, w: nat)
    requires WellFormed(s) && i <= |s.q.line| && Schedule(s, i) == Some(s') && Alike(s.q, w)
    ensures Alike(s'.q, w)
  {
    var q1 := ScheduleParts(s, s', i);
    PutPrevAlike(Preempt(s.q, s.current, 1), s.current, i, w);
  }

  lemma {:induction false} PutPrevAlike(q: Rq, prev: SchedEntity, i: nat, w: nat)
    requires Closed(q) && prev in q.ents && i <= |q.line| && Alike(q, w)
    ensures Alike(PutPrevEntity(q, prev, i), w)
  {
    ChargeSame(q);
  }

  lemma {:induction false} SwitchAlike(s: Sys, s': Sys, w: nat)
    requires Switches(s, s') && Alike(s.q, w)
    ensures Alike(s'.q, w)
  {
    var i: nat :| MayLand(s, i) && Schedule(s, i) == Some(s');
    PickAlike(s, s', i, w);
  }

  lemma {:induction false} TickAlike(s: Sys, now: u64, w: nat)
    requires WellFormed(s) && TickCharge(s, now).Some? && Alike(s.q, w)
    ensures Alike(TickCharge(s, now).value.q, w)
  {
    ChargeSame(s.q.(clock := now));
  }

  lemma {:induction false} ExitAlike(s: Sys, w: nat)
    requires WellFormed(s) && Alike(s.q, w)
    ensures Alike(ExitDequeue(s).q, w)
  {
    ChargeSame(Preempt(s.q, s.current, 1));
  }

  lemma {:induction false} ForkAlike(s: Sys, child: SchedEntity, now: u64, childFirst: bool, i: nat, w: nat)
    requires WellFormed(s) && Alike(s.q, w) && child !in s.q.ents
    requires var q := ForkPlace(NewTask(s, child), child, now); Closed(q) && i <= |q.line| && s.current in q.ents
    ensures Alike(ForkDone(s, ForkPlace(NewTask(s, child), child, now), child, childFirst, i).q, w)
  {
    var q0 := NewTask(s, child);
    ForkPlaceSame(q0, child, now);
    ForkEnqueueSame(ForkPlace(q0, child, now), child, childFirst, i);
  }

  lemma {:induction false} StepAlike(s: Sys, l: Label, s': Sys, w: nat)
    requires Inv(s) && Step(s, l, s') && Alike(s.q, w)
    ensures Alike(s'.q, w)
  {
    match l
    case Tick(now) =>
      if s.q.ents[s.current].preemptCount <= 0 {
        TickAlike(s, now, w);
        var s1 := TickCharge(s, now).value;
        if s1.q.ents[s.current].needResched { SwitchAlike(s1, s', w); }
      }
    case Yield => SwitchAlike(Bump(s), s', w);
    case Exit =>
      ExitAlike(s, w);
      SwitchAlike(Bump(ExitDequeue(s)), s', w);
    case Fork(child, now, childFirst) =>
      var q := ForkPlace(NewTask(s, child), child, now);
      var i: nat :| Gap(q, q.ents[child].vruntime, i) && s' == ForkDone(s, q, child, childFirst, i);
      ForkAlike(s, child, now, childFirst, i, w);
    case ForkFails =>
  }

  lemma {:induction false} RunAlike(states: seq<Sys>, events: seq<Label>, w: nat, i: nat)
    requires Run(states, events) && Inv(states[0]) && Alike(states[0].q, w) && i < |states|
    ensures Inv(states[i]) && Alike(states[i].q, w)
  {
    if i > 0 {
      RunAlike(states, events, w, i - 1);
      assert StepAt(states, events, i - 1);
      StepInv(states[i - 1], events[i - 1], states[i]);
      StepAlike(states[i - 1], events[i - 1], states[i], w);
    }
  }

  lemma {:induction false} SumsAlike(f: map<SchedEntity, nat>, es: seq<SchedEntity>, w: nat)
    requires forall e :: e in es ==> e in f && f[e] == w
    ensures Sums(f, es) == |es| * w
  {
    if es != [] {
      SumsAlike(f, es[1..], w);
      assert |es| * w == (|es| - 1) * w + w;
    }
  }

  /** The runnable entities weigh as much as that many of the first one. */
  lemma {:induction false} TotalAlike(s: Sys, w: nat)
    requires Inv(s) && Alike(s.q, w)
    ensures Total(s.q) == Count(s.q) * w && Count(s.q) <= MAX_TASKS
  {
    FewRunnable(s);
    SumsAlike(Weights(s.q.ents), s.q.line, w);
    assert (|s.q.line| + 1) * w == |s.q.line| * w + w;
  }

  /** In every state of every run from `sched_init`, the slices of all runnable entities fit into the period, if as many
      tasks as there are pages, all of the weight of the first one, weigh less than 2^32. */
  lemma {:induction false} SlicesAlwaysFit(states: seq<Sys>, events: seq<Label>, init: SchedEntity, load: LoadWeight,
                                           clock: u64, i: nat)
    requires Run(states, events) && states[0] == Init(init, load, clock) && i < |states|
             && MAX_TASKS * load.weight < TWO_32
    ensures forall e :: e in states[i].q.line ==> e in states[i].q.ents
    ensures states[i].current in states[i].q.ents
    ensures Sums(Slices(states[i].q), [states[i].current] + states[i].q.line) <= SchedPeriod(states[i].q.nr)
  {
    InitInv(init, load, clock);
    RunAlike(states, events, load.weight, i);
    TotalAlike(states[i], load.weight);
    MulUp(Count(states[i].q), load.weight, MAX_TASKS, load.weight);
    SlicesShareThePeriod(states[i]);
  }

  /** A share that is short of `g` by rounding is short by less than one. */
  lemma {:induction false} ShareAtLeast(r: nat, period: nat, n: nat, w: nat, total: nat)
    requires total == n * w && 0 < total <= 0x1000_0000 && period >= 8 * n
    requires (r + 1) * total * (TWO_32 * 0x8000_0000) > period * w * ((TWO_32 - total) * 0x7fff_ffff)
    ensures r >= 7
  {
    var c, d := (TWO_32 - total) * 0x7fff_ffff, TWO_32 * 0x8000_0000;
    assert 8 * n * w == 8 * total by { Assoc(8, n, w); }
    MulUp(8 * n, w, period, w);
    MulUp(8 * total, c, period * w, c);
    assert 8 * total * c == 8 * c * total;
    assert (r + 1) * total * d == (r + 1) * d * total by { Assoc(r + 1, total, d); Assoc(r + 1, d, total); }
    Cancel(8 * c, (r + 1) * d, total);
  }

  /** Among tasks of one weight every runnable one gets the minimum granularity, less one unit that rounding may
      cost. */
  lemma {:induction false} SliceAtLeast(s: Sys, w: nat, e: SchedEntity)
    requires Inv(s) && Alike(s.q, w) && 0 < w && MAX_TASKS * w <= 0x1000_0000 && e in s.q.ents && s.q.ents[e].onRq
    ensures Slice(s.q, e) >= MIN_GRANULARITY - 1
  {
    var n, period := Count(s.q), SchedPeriod(s.q.nr);
    FewRunnable(s);
    TotalAlike(s, w);
    MulUp(n, w, MAX_TASKS, w);
    MulAtLeast(n, w);
    PeriodIs(s.q.nr);
    CalcDeltaShortfall(period, w, s.q.load);
    ShareAtLeast(Slice(s.q, e), period, n, w, s.q.load.weight);
  }

  /** So it is in every state of every run from `sched_init`. */
  lemma {:induction false} SlicesNeverTooShort(states: seq<Sys>, events: seq<Label>, init: SchedEntity,
                                               load: LoadWeight, clock: u64, i: nat, e: SchedEntity)
    requires Run(states, events) && states[0] == Init(init, load, clock) && i < |states|
    requires 0 < load.weight && MAX_TASKS * load.weight <= 0x1000_0000
    requires e in states[i].q.ents && states[i].q.ents[e].onRq
    ensures Slice(states[i].q, e) >= MIN_GRANULARITY - 1
  {
    InitInv(init, load, clock);
    RunAlike(states, events, load.weight, i);
    SliceAtLeast(states[i], load.weight, e);
  }
}
