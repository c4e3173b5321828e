/** A run of three events that leaves the timeline out of order. */
module SchedCrossing {
  import opened Entities
  import opened Seqs
  import opened Fixed
  import opened FairModel
  import opened SchedModel
  import opened SchedInv
  import opened SchedOrder
  import opened Wrappers

  /** The load of nice level 0. */
  const NICE_0 := LoadWeight(1024, 4194304)

  lemma {:induction false} CalcIs(delta: u64, lw: LoadWeight, f: nat, r: u64)
    requires delta < TWO_32 && f == 1024 * UpdateInvWeight(lw).inv && f < TWO_32
    requires r * TWO_32 <= delta * f < (r + 1) * TWO_32
    ensures CalcDelta(delta, 1024, lw) == r
  {
    CalcDeltaExact(delta, 1024, lw);
    LeadingKeeps(f);
    assert Factor(1024, lw) == f;
  }

  /** What a task of nice level 0 gets of the period, as one of two and as one of three. */
  lemma {:induction false} Slices()
    ensures CalcDelta(64, 1024, LoadWeight(1024, 0)) == 63
    ensures CalcDelta(64, 1024, LoadWeight(2048, 0)) == 31
    ensures CalcDelta(64, 1024, LoadWeight(3072, 0)) == 21
  {
    CalcIs(64, LoadWeight(1024, 0), 1024 * 4194303, 63);
    CalcIs(64, LoadWeight(2048, 0), 1024 * 2097151, 31);
    CalcIs(64, LoadWeight(3072, 0), 1024 * 1398101, 21);
  }

  function Started(p: SchedEntity): Sys {
    Sys(Rq(map[p := Ent(NICE_0, true, 0, 0, 63, 0, false, 0)], [], LoadWeight(1024, 0), 1, 0, 0, p), p)
  }

  /** The first child has changed virtual times with its parent, which... */
  function Forked(p: SchedEntity, c: SchedEntity): Sys {
    Sys(Rq(map[p := Ent(NICE_0, true, 1, 1, 95, 0, true, 0), c := Ent(NICE_0, true, 0, 0, 64, 0, false, 1)], [c],
           LoadWeight(2048, 0), 2, 64, 1, p), p)
  }

  /** ...is charged for one more unit of time... */
  function Charged(p: SchedEntity, c: SchedEntity): Sys {
    Sys(Rq(map[p := Ent(NICE_0, true, 2, 2, 96, 0, true, 0), c := Ent(NICE_0, true, 0, 0, 64, 0, false, 1)], [c],
           LoadWeight(2048, 2097151), 2, 64, 2, p), p)
  }

  /** ...before the child runs... */
  function Picked(p: SchedEntity, c: SchedEntity): Sys {
    Sys(Rq(map[p := Ent(NICE_0, true, 2, 2, 96, 0, false, 1), c := Ent(NICE_0, true, 2, 0, 64, 0, false, 0)], [p],
           LoadWeight(2048, 2097151), 2, 64, 2, c), c)
  }

  /** ...and changes with its own child, around the parent that waits. */
  function Crossed(p: SchedEntity, c: SchedEntity, d: SchedEntity): Sys {
    Sys(Rq(map[p := Ent(NICE_0, true, 2, 2, 96, 0, false, 1), c := Ent(NICE_0, true, 22, 20, 105, 0, true, 0),
               d := Ent(NICE_0, true, 0, 0, 84, 0, false, 1)], [p, d], LoadWeight(3072, 0), 3, 84, 22, c), c)
  }

  lemma {:induction false} ToStarted(p: SchedEntity)
    ensures Init(p, NICE_0, 0) == Started(p)
  {
    Slices();
    var q := Rq(map[p := Ent(NICE_0, false, 0, 0, 0, 0, false, 0)], [], LoadWeight(0, 0), 0, 0, 0, p);
    assert PlaceEntity(q, p).ents == map[p := Ent(NICE_0, false, 0, 0, 63, 0, false, 0)];
    assert Init(p, NICE_0, 0).q.ents == Started(p).q.ents;
  }

  lemma {:induction false} ToForked(p: SchedEntity, c: SchedEntity)
    requires p != c
    ensures Step(Started(p), Fork(c, 1, true), Forked(p, c))
  {
    Slices();
    var s := Started(p);
    var q0 := NewTask(s, c);
    assert q0.ents == map[p := Ent(NICE_0, true, 0, 0, 63, 0, false, 1), c := Ent(NICE_0, false, 0, 0, 0, 0, false, 1)];
    var q1 := UpdateCurr(q0.(clock := 1));
    assert q1.ents == map[p := Ent(NICE_0, true, 1, 1, 64, 0, false, 1), c := Ent(NICE_0, false, 0, 0, 0, 0, false, 1)];
    var q := ForkPlace(q0, c, 1);
    assert q.ents == map[p := Ent(NICE_0, true, 1, 1, 64, 0, false, 1), c := Ent(NICE_0, false, 0, 0, 95, 0, false, 1)];
    assert Gap(q, q.ents[c].vruntime, 0);
    assert ForkDone(s, q, c, true, 0).q.ents == Forked(p, c).q.ents;
    assert ForkDone(s, q, c, true, 0) == Forked(p, c);
    assert |s.q.ents| == 1;
  }

  lemma {:induction false} ToPicked(p: SchedEntity, c: SchedEntity)
    requires p != c
    ensures Step(Forked(p, c), Tick(2), Picked(p, c))
  {
    Slices();
    var s := Forked(p, c);
    var q := UpdateCurr(s.q.(clock := 2));
    assert q.ents == map[p := Ent(NICE_0, true, 2, 2, 96, 0, true, 0), c := Ent(NICE_0, true, 0, 0, 64, 0, false, 1)];
    assert TickCharge(s, 2) == Some(Charged(p, c));
    ToSwitched(p, c);
  }

  lemma {:induction false} ToSwitched(p: SchedEntity, c: SchedEntity)
    requires p != c
    ensures Switches(Charged(p, c), Picked(p, c))
  {
    var s := Charged(p, c);
    var q := Preempt(s.q, p, 1);
    assert UpdateCurr(q) == q;
    var q1 := PutPrevEntity(q, p, 1);
    assert q1.line == [c, p] && Without([c, p], c) == [c, p][1..] == [p];
    assert Gap(UpdateCurr(q), 96, 1);
    assert MayLand(s, 1);
    var q2 := SetNextEntity(q1, c);
    assert PickNextTask(q, p, 1) == Some((q2, c));
    assert Preempt(ClearResched(q2, p), c, -1).ents == Picked(p, c).q.ents;
    assert Schedule(s, 1) == Some(Picked(p, c));
  }

  lemma {:induction false} ToCrossed(p: SchedEntity, c: SchedEntity, d: SchedEntity)
    requires p != c && p != d && c != d
    ensures Step(Picked(p, c), Fork(d, 22, true), Crossed(p, c, d))
  {
    Slices();
    var s := Picked(p, c);
    var q := ForkPlace(NewTask(s, d), d, 22);
    assert q.ents == map[p := Ent(NICE_0, true, 2, 2, 96, 0, false, 1), c := Ent(NICE_0, true, 22, 20, 84, 0, false, 1),
                         d := Ent(NICE_0, false, 0, 0, 105, 0, false, 1)];
    assert Gap(q, q.ents[d].vruntime, 1);
    assert ForkDone(s, q, d, true, 1).q.ents == Crossed(p, c, d).q.ents;
    assert ForkDone(s, q, d, true, 1) == Crossed(p, c, d);
    assert |s.q.ents| == 2;
  }

  /** One more event at the end of a run. */
  lemma {:induction false} RunThen(states: seq<Sys>, events: seq<Label>, s: Sys, l: Label, s': Sys)
    requires Run(states, events) && s == states[|events|] && Inv(s) && Step(s, l, s')
    ensures Run(states + [s'], events + [l]) && Inv(s')
  {
    StepInv(s, l, s');
    var states', events' := states + [s'], events + [l];
    forall i | 0 <= i < |events'| ensures StepAt(states', events', i) {
      if i < |events| {
        assert StepAt(states, events, i);
        assert states'[i] == states[i] && states'[i + 1] == states[i + 1] && events'[i] == events[i];
      }
    }
  }

  lemma {:induction false} RunToForked(p: SchedEntity, c: SchedEntity)
    requires p != c
    ensures Run([Init(p, NICE_0, 0), Forked(p, c)], [Fork(c, 1, true)]) && Inv(Forked(p, c))
  {
    var s := Init(p, NICE_0, 0);
    InitInv(p, NICE_0, 0);
    ToStarted(p);
    ToForked(p, c);
    RunThen([s], [], s, Fork(c, 1, true), Forked(p, c));
    assert [s] + [Forked(p, c)] == [s, Forked(p, c)] && [] + [Fork(c, 1, true)] == [Fork(c, 1, true)];
  }

  lemma {:induction false} RunToPicked(p: SchedEntity, c: SchedEntity) returns (states: seq<Sys>)
    requires p != c
    ensures states == [Init(p, NICE_0, 0), Forked(p, c), Picked(p, c)] && Run(states, [Fork(c, 1, true), Tick(2)])
    ensures Inv(Picked(p, c))
  {
    RunToForked(p, c);
    var s := Forked(p, c);
    states := [Init(p, NICE_0, 0), s];
    ToPicked(p, c);
    RunThen(states, [Fork(c, 1, true)], s, Tick(2), Picked(p, c));
    states := states + [Picked(p, c)];
    assert [Fork(c, 1, true)] + [Tick(2)] == [Fork(c, 1, true), Tick(2)];
  }

  lemma {:induction false} RunToCrossed(p: SchedEntity, c: SchedEntity, d: SchedEntity) returns (states: seq<Sys>)
    requires p != c && p != d && c != d
    ensures states == [Init(p, NICE_0, 0), Forked(p, c), Picked(p, c), Crossed(p, c, d)] && Inv(Picked(p, c))
    ensures Run(states, [Fork(c, 1, true), Tick(2), Fork(d, 22, true)])
  {
    var before := RunToPicked(p, c);
    ToCrossed(p, c, d);
    RunThen(before, [Fork(c, 1, true), Tick(2)], Picked(p, c), Fork(d, 22, true), Crossed(p, c, d));
    states := before + [Crossed(p, c, d)];
    assert [Fork(c, 1, true), Tick(2)] + [Fork(d, 22, true)] == [Fork(c, 1, true), Tick(2), Fork(d, 22, true)];
  }

  lemma {:induction false} PickedNeat(p: SchedEntity, c: SchedEntity)
    requires p != c
    ensures Neat(Picked(p, c).q, 0)
  {
  }

  lemma {:induction false} CrossedIsNot(p: SchedEntity, c: SchedEntity, d: SchedEntity)
    requires p != c && p != d && c != d
    ensures Closed(Crossed(p, c, d).q) && !Ordered(Crossed(p, c, d).q, 0)
  {
    var q := Crossed(p, c, d).q;
    assert Key(q, 0, q.line[1]) < Key(q, 0, q.line[0]);
  }

  /** Three events from `sched_init`, of tasks of nice level 0, break the order: a child that got its parent's virtual
      time forks in its turn, while the parent waits between the two keys that are exchanged. */
  lemma {:induction false} ForkBreaksOrder(p: SchedEntity, c: SchedEntity, d: SchedEntity) returns (states: seq<Sys>)
    requires p != c && p != d && c != d
    ensures Run(states, [Fork(c, 1, true), Tick(2), Fork(d, 22, true)]) && states[0] == Init(p, NICE_0, 0)
    ensures Inv(states[2]) && Neat(states[2].q, 0) && Closed(states[3].q) && !Ordered(states[3].q, 0)
  {
    states := RunToCrossed(p, c, d);
    PickedNeat(p, c);
    CrossedIsNot(p, c, d);
  }
}
