/** Preemption counts: while the timer alone drives the scheduler, they decide who can be picked. */
module SchedCounts {
  import opened Entities
  import opened Seqs
  import opened Fixed
  import opened FairModel
  import opened SchedModel
  import opened SchedInv
  import opened SchedFirst
  import opened Wrappers

  // ----- preemption counts -----

  /** Nothing holds preemption off: the running task does not, and those that wait do once, until they are switched
      to. */
  ghost predicate Light(s: Sys)
    requires WellFormed(s)
  {
    s.q.ents[s.current].preemptCount == 0 && forall e :: e in s.q.line ==> s.q.ents[e].preemptCount == 1
  }

  /** Every entity that waits after a switch waited before, or has just run. */
  lemma {:induction false} SwitchedInside(q: Rq, prev: SchedEntity, q': Rq, i: nat)
    requires i <= |q.line| && Switched(q, prev, q', i)
    ensures forall e :: e in q'.line ==> e in q.line || e == prev
  {
    assert q.line == q.line[..i] + q.line[i..];
    WithoutInside(q.line, q.line[0]);
    WithoutInside(Link(q, prev, i).line, q.line[0]);
  }

  lemma {:induction false} ScheduleLight(s: Sys, s': Sys, i: nat)
    requires WellFormed(s) && Placed(s.q) && s.q.curr == s.current && Light(s) && i <= |s.q.line|
             && Schedule(s, i) == Some(s')
    requires WellFormed(s') && s'.current !in s'.q.line
    ensures Light(s')
  {
    var q := Preempt(s.q, s.current, 1);
    var q1 := ScheduleParts(s, s', i);
    PickTasks(q, s.current, i);
    ScheduleLine(s, s', i);
    SwitchedInside(s.q, s.current, s'.q, i);
    assert s.q.line[0] in s.q.line;
  }

  lemma {:induction false} SwitchLight(s: Sys, s': Sys)
    requires WellFormed(s) && Placed(s.q) && s.q.curr == s.current && Light(s) && Switches(s, s') && Inv(s')
    ensures Light(s')
  {
    var i: nat :| MayLand(s, i) && Schedule(s, i) == Some(s');
    assert s'.q.curr !in s'.q.line;
    ScheduleLight(s, s', i);
  }

  lemma {:induction false} ChargeLight(s: Sys, now: u64)
    requires WellFormed(s) && Light(s) && TickCharge(s, now).Some?
    requires WellFormed(TickCharge(s, now).value) && TickCharge(s, now).value.q.line == s.q.line
    ensures Light(TickCharge(s, now).value)
  {
    var q := s.q.(clock := now);
    assert SameTasks(q, UpdateCurr(q));
  }

  lemma {:induction false} ForkLight(s: Sys, child: SchedEntity, now: u64, childFirst: bool, i: nat)
    requires Inv(s) && Light(s) && child !in s.q.ents
    requires var q := ForkPlace(NewTask(s, child), child, now); Closed(q) && i <= |q.line| && s.current in q.ents
    requires Inv(ForkDone(s, ForkPlace(NewTask(s, child), child, now), child, childFirst, i))
    ensures Light(ForkDone(s, ForkPlace(NewTask(s, child), child, now), child, childFirst, i))
  {
    var q0 := NewTask(s, child);
    var q := ForkPlace(q0, child, now);
    NewTaskAccounts(s, child);
    ForkPlaceSame(q0, child, now);
    ForkEnqueueSame(q, child, childFirst, i);
    ForkLine(s, child, now, childFirst, i);
  }

  lemma {:induction false} TickLight(s: Sys, now: u64, s': Sys)
    requires Inv(s) && Light(s) && Step(s, Tick(now), s') && Inv(s')
    ensures Light(s')
  {
    TickChargeInv(s, now);
    ChargeLight(s, now);
    var s1 := TickCharge(s, now).value;
    if s1.q.ents[s.current].needResched { SwitchLight(s1, s'); }
  }

  lemma {:induction false} YieldLight(s: Sys, s': Sys)
    requires Inv(s) && Light(s) && Step(s, Yield, s') && Inv(s')
    ensures Light(s')
  {
    BumpLight(s);
    SwitchLight(Bump(s), s');
  }

  lemma {:induction false} BumpLight(s: Sys)
    requires Inv(s) && Light(s)
    ensures Inv(Bump(s)) && Light(Bump(s))
  {
    SameInv(s, Bump(s));
  }

  /** Only a fork that gets no page leaves preemption held off. */
  lemma {:induction false} StepLight(s: Sys, l: Label, s': Sys)
    requires Inv(s) && Light(s) && Step(s, l, s') && !l.ForkFails?
    ensures Inv(s') && Light(s')
  {
    StepInv(s, l, s');
    match l
    case Tick(now) => TickLight(s, now, s');
    case Yield => YieldLight(s, s');
    case Exit =>
      ExitLight(s);
      SwitchLight(Bump(ExitDequeue(s)), s');
    case Fork(child, now, childFirst) =>
      var q := ForkPlace(NewTask(s, child), child, now);
      var i: nat :| Gap(q, q.ents[child].vruntime, i) && s' == ForkDone(s, q, child, childFirst, i);
      ForkLight(s, child, now, childFirst, i);
  }

  lemma {:induction false} ExitLight(s: Sys)
    requires Inv(s) && Light(s)
    ensures var s' := Bump(ExitDequeue(s));
            WellFormed(ExitDequeue(s)) && WellFormed(s') && Placed(s'.q) && s'.q.curr == s'.current && Light(s')
  {
    ExitAccounts(s);
  }

  /** In a run from `sched_init` in which every fork gets its page nothing holds preemption off. */
  lemma {:induction false} RunLight(states: seq<Sys>, events: seq<Label>, init: SchedEntity, load: LoadWeight,
                                    clock: u64, i: nat)
    requires Run(states, events) && states[0] == Init(init, load, clock) && i < |states|
    requires forall j :: 0 <= j < |events| ==> !events[j].ForkFails?
    ensures Inv(states[i]) && Light(states[i])
  {
    if i == 0 {
      InitInv(init, load, clock);
    } else {
      RunLight(states, events, init, load, clock, i - 1);
      assert StepAt(states, events, i - 1);
      StepLight(states[i - 1], events[i - 1], states[i]);
    }
  }

  // ----- who can be picked -----

  function CountOf(s: Sys, e: SchedEntity): int
    requires e in s.q.ents
  {
    s.q.ents[e].preemptCount
  }

  /** `x` cannot be reached by ticks: the running task holds preemption off, or a task that stands before `x` will as
      soon as it runs. */
  ghost predicate Blocked(s: Sys, x: SchedEntity)
    requires WellFormed(s)
  {
    CountOf(s, s.current) > 0 || exists z :: z in s.q.line && StandsBefore(s.q.line, z, x) && Twice(s, z)
  }

  /** A task that waits holds preemption off once; `z` will still do so when it has been switched to. */
  ghost predicate Twice(s: Sys, z: SchedEntity) { z in s.q.ents && CountOf(s, z) >= 2 }

  lemma {:induction false} BlockedBy(s: Sys, z: SchedEntity, x: SchedEntity)
    requires WellFormed(s) && StandsBefore(s.q.line, z, x) && Twice(s, z)
    ensures Blocked(s, x)
  {
  }

  lemma {:induction false} LightOpen(s: Sys, x: SchedEntity)
    requires WellFormed(s) && Light(s)
    ensures !Blocked(s, x)
  {
  }

  /** Of two entities that wait, one stands before the other, and not the other before it. */
  lemma {:induction false} OneBefore(l: seq<SchedEntity>, x: SchedEntity, y: SchedEntity)
    requires NoDup(l) && x in l && y in l && x != y
    ensures StandsBefore(l, x, y) <==> !StandsBefore(l, y, x)
  {
    var i, j :| 0 <= i < |l| && 0 <= j < |l| && l[i] == x && l[j] == y;
  }

  /** What a switch does to the counts and to the line. */
  ghost predicate Handed(s: Sys, s': Sys) {
    && WellFormed(s) && s.q.line != [] && s'.current == s.q.line[0] && s.current != s'.current
    && s'.q.ents.Keys == s.q.ents.Keys && NoDup(s.q.line) && NoDup(s'.q.line)
    && (forall e :: e in s.q.ents ==>
          CountOf(s', e) == CountOf(s, e) + (if e == s.current then 1 else 0) - (if e == s'.current then 1 else 0))
    && (forall e :: e in s'.q.line ==> e in s.q.line || e == s.current)
    && (forall e :: e in s.q.line && e != s'.current ==> e in s'.q.line)
  }

  lemma {:induction false} SwitchedOutside(q: Rq, prev: SchedEntity, q': Rq, i: nat, e: SchedEntity)
    requires i <= |q.line| && NoDup(q.line) && Switched(q, prev, q', i) && e in q.line && e != q.line[0]
    ensures e in q'.line
  {
    assert q.line == q.line[..i] + q.line[i..];
    var l := Link(q, prev, i).line;
    assert e in l && q.line[0] in l;
    OthersStay(q.line, q.line[0], e);
    OthersStay(l, q.line[0], e);
  }

  lemma {:induction false} ScheduleCounts(s: Sys, s': Sys, i: nat)
    requires WellFormed(s) && i <= |s.q.line| && Schedule(s, i) == Some(s') && s'.current != s.current
    ensures s'.q.ents.Keys == s.q.ents.Keys && s'.current in s.q.ents
    ensures forall e :: e in s.q.ents ==>
              CountOf(s', e) == CountOf(s, e) + (if e == s.current then 1 else 0) - (if e == s'.current then 1 else 0)
  {
    var q := Preempt(s.q, s.current, 1);
    var q1 := ScheduleParts(s, s', i);
    PickTasks(q, s.current, i);
    assert q1.ents.Keys == q.ents.Keys;
  }

  lemma {:induction false} LineAfter(s: Sys, s': Sys, i: nat)
    requires WellFormed(s) && Placed(s.q) && s.q.curr == s.current && i <= |s.q.line| && Schedule(s, i) == Some(s')
    ensures s.q.line != []
    ensures forall e :: e in s'.q.line ==> e in s.q.line || e == s.current
    ensures forall e :: e in s.q.line && e != s.q.line[0] ==> e in s'.q.line
  {
    ScheduleLine(s, s', i);
    SwitchedInside(s.q, s.current, s'.q, i);
    forall e | e in s.q.line && e != s.q.line[0] ensures e in s'.q.line {
      SwitchedOutside(s.q, s.current, s'.q, i, e);
    }
  }

  lemma {:induction false} SwitchHands(s: Sys, s': Sys)
    requires Inv(s) && Switches(s, s')
    ensures Handed(s, s') && Inv(s')
  {
    SwitchInv(s, s');
    var i: nat :| MayLand(s, i) && Schedule(s, i) == Some(s');
    NextIsOther(s, s'.current);
    ScheduleCounts(s, s', i);
    LineAfter(s, s', i);
  }

  lemma {:induction false} NextIsOther(s: Sys, next: SchedEntity)
    requires Inv(s) && s.q.line != [] && next == s.q.line[0]
    ensures next != s.current
  {
    assert next in s.q.line;
  }

  // ----- one tick -----

  lemma {:induction false} HandedBlocked(s: Sys, s': Sys, x: SchedEntity)
    requires Handed(s, s') && Blocked(s, x) && CountOf(s, s.current) <= 0 && x in s.q.line && WellFormed(s')
    requires forall z :: z in s'.q.line && StandsBefore(s.q.line, z, x) ==> StandsBefore(s'.q.line, z, x)
    ensures x in s'.q.line && Blocked(s', x)
  {
    var z :| z in s.q.line && StandsBefore(s.q.line, z, x) && Twice(s, z);
    NotFirst(s.q.line, z, x);
    if z != s'.current {
      assert z in s'.q.line && StandsBefore(s'.q.line, z, x);
      assert Twice(s', z);
    }
  }

  lemma {:induction false} NotFirst(l: seq<SchedEntity>, z: SchedEntity, x: SchedEntity)
    requires NoDup(l) && StandsBefore(l, z, x)
    ensures l != [] && x != l[0]
  {
  }

  lemma {:induction false} HandedOpen(s: Sys, s': Sys, x: SchedEntity)
    requires Handed(s, s') && !Blocked(s, x) && x in s.q.line && x in s'.q.line && WellFormed(s')
    requires s'.current !in s'.q.line
    requires forall z :: z in s.q.line && StandsBefore(s.q.line, x, z) ==> StandsBefore(s'.q.line, x, z)
    ensures !Blocked(s', x)
  {
    var l, next := s.q.line, s'.current;
    var k :| 0 <= k < |l| && l[k] == x;
    assert StandsBefore(l, next, x) by { assert l[0] == next && l[k] == x; }
    assert !Twice(s, next);
    forall z | z in s'.q.line && StandsBefore(s'.q.line, z, x) ensures !Twice(s', z) {
      if z in l { StoodBefore(l, s'.q.line, z, x); }
    }
  }

  /** Whoever stands before `x` after a switch, and waited before, stood before it then. */
  lemma {:induction false} StoodBefore(l: seq<SchedEntity>, l': seq<SchedEntity>, z: SchedEntity, x: SchedEntity)
    requires NoDup(l) && NoDup(l') && z in l && x in l && StandsBefore(l', z, x)
    requires StandsBefore(l, x, z) ==> StandsBefore(l', x, z)
    ensures StandsBefore(l, z, x)
  {
    var i, j :| 0 <= i < j < |l'| && l'[i] == z && l'[j] == x;
    assert z != x && z in l' && x in l';
    OneBefore(l', z, x);
    OneBefore(l, z, x);
  }

  /** The charge of a tick changes neither the line nor a count. */
  lemma {:induction false} ChargeCounts(s: Sys, now: u64)
    requires Inv(s)
    ensures TickCharge(s, now).Some?
    ensures var s1 := TickCharge(s, now).value;
            && Inv(s1) && s1.current == s.current && s1.q.line == s.q.line && s1.q.ents.Keys == s.q.ents.Keys
            && forall e :: e in s.q.ents ==> CountOf(s1, e) == CountOf(s, e)
  {
    TickChargeInv(s, now);
    var q := UpdateCurr(s.q.(clock := now));
    assert SameTasks(s.q, q);
    if q.nr > 1 && q.ents[s.current].preemptCount <= 0 { CheckCounts(q, s.current); }
  }

  lemma {:induction false} CheckCounts(q: Rq, e: SchedEntity)
    requires Closed(q) && e in q.ents && CheckPreemptTick(q, e).Some?
    ensures var q' := CheckPreemptTick(q, e).value;
            && q'.ents.Keys == q.ents.Keys
            && forall x :: x in q.ents ==> q'.ents[x].preemptCount == q.ents[x].preemptCount
  {
  }

  lemma {:induction false} SameBlocked(s: Sys, s1: Sys, x: SchedEntity)
    requires WellFormed(s) && WellFormed(s1) && s1.current == s.current && s1.q.line == s.q.line
    requires s1.q.ents.Keys == s.q.ents.Keys && forall e :: e in s.q.ents ==> CountOf(s1, e) == CountOf(s, e)
    ensures Blocked(s1, x) <==> Blocked(s, x)
  {
    forall z | z in s.q.line ensures Twice(s1, z) <==> Twice(s, z) { }
  }

  /** No tick gets to `x` if it is blocked, and none blocks or unblocks it while it waits. */
  lemma {:induction false} TickBlocked(s: Sys, now: u64, s': Sys, x: SchedEntity)
    requires Inv(s) && Step(s, Tick(now), s') && x in s.q.line
    ensures Inv(s') && (Blocked(s, x) ==> x in s'.q.line)
    ensures x in s'.q.line ==> (Blocked(s', x) <==> Blocked(s, x))
  {
    StepInv(s, Tick(now), s');
    if CountOf(s, s.current) <= 0 {
      ChargeCounts(s, now);
      var s1 := TickCharge(s, now).value;
      SameBlocked(s, s1, x);
      if s1.q.ents[s.current].needResched { SwitchBlocked(s1, s', x); }
    }
  }

  lemma {:induction false} SwitchBlocked(s: Sys, s': Sys, x: SchedEntity)
    requires Inv(s) && Switches(s, s') && x in s.q.line && CountOf(s, s.current) <= 0
    ensures WellFormed(s') && (Blocked(s, x) ==> x in s'.q.line)
    ensures x in s'.q.line ==> (Blocked(s', x) <==> Blocked(s, x))
  {
    SwitchHands(s, s');
    assert s'.q.curr !in s'.q.line;
    forall z | z in s'.q.line && StandsBefore(s.q.line, z, x) ensures StandsBefore(s'.q.line, z, x) {
      SwitchBefore(s, s', z, x);
    }
    if Blocked(s, x) {
      HandedBlocked(s, s', x);
    } else if x in s'.q.line {
      forall z | z in s.q.line && StandsBefore(s.q.line, x, z) ensures StandsBefore(s'.q.line, x, z) {
        SwitchBefore(s, s', x, z);
      }
      HandedOpen(s, s', x);
    }
  }

  /** A tick takes `x` out of the line only by picking it. */
  lemma {:induction false} TickPicks(s: Sys, now: u64, s': Sys, x: SchedEntity)
    requires Inv(s) && Step(s, Tick(now), s') && x in s.q.line
    ensures x !in s'.q.line <==> s'.current == x
  {
    StepInv(s, Tick(now), s');
    assert s.q.curr !in s.q.line && s'.q.curr !in s'.q.line;
    if CountOf(s, s.current) <= 0 {
      ChargeCounts(s, now);
      var s1 := TickCharge(s, now).value;
      if s1.q.ents[s.current].needResched { SwitchHands(s1, s'); }
    }
  }

  // ----- runs of ticks -----

  ghost predicate Ticks(events: seq<Label>) { forall i :: 0 <= i < |events| ==> events[i].Tick? }

  /** Under ticks alone an entity that is blocked waits for ever. */
  lemma {:induction false} NeverPicked(states: seq<Sys>, events: seq<Label>, x: SchedEntity, i: nat)
    requires Run(states, events) && Ticks(events) && Inv(states[0]) && x in states[0].q.line && Blocked(states[0], x)
    requires i < |states|
    ensures Inv(states[i]) && x in states[i].q.line && Blocked(states[i], x) && states[i].current != x
  {
    if i > 0 {
      NeverPicked(states, events, x, i - 1);
      assert StepAt(states, events, i - 1);
      TickBlocked(states[i - 1], events[i - 1].now, states[i], x);
    }
    assert states[i].q.curr !in states[i].q.line;
  }

  ghost predicate OpenAt(states: seq<Sys>, x: SchedEntity, i: nat)
    requires i < |states|
  {
    Inv(states[i]) && !Blocked(states[i], x)
  }

  lemma {:induction false} OpenNext(states: seq<Sys>, events: seq<Label>, x: SchedEntity, i: nat)
    requires Run(states, events) && Ticks(events) && i < |events| && OpenAt(states, x, i)
    requires WaitsIn(states, x, i) && WaitsIn(states, x, i + 1)
    ensures OpenAt(states, x, i + 1)
  {
    assert StepAt(states, events, i);
    TickBlocked(states[i], events[i].now, states[i + 1], x);
  }

  ghost predicate Waits(states: seq<Sys>, x: SchedEntity) { forall i :: 0 <= i < |states| ==> WaitsIn(states, x, i) }

  /** While an entity waits without being blocked it does not become so. */
  lemma {:induction false} StaysOpen(states: seq<Sys>, events: seq<Label>, x: SchedEntity, i: nat)
    requires Run(states, events) && Ticks(events) && Waits(states, x) && OpenAt(states, x, 0) && i < |states|
    ensures OpenAt(states, x, i)
  {
    if i > 0 {
      StaysOpen(states, events, x, i - 1);
      assert WaitsIn(states, x, i - 1) && WaitsIn(states, x, i);
      OpenNext(states, events, x, i - 1);
    }
  }

  // ----- how an entity comes to be blocked -----

  /** A fork that gets no page, from any state: the count stays raised, and any number of ticks then changes nothing. */
  lemma {:induction false} Stalled(s: Sys, now: u64, n: nat)
    requires Inv(s)
    ensures var held := s.(q := Preempt(s.q, s.current, 1));
            && Run([s] + seq(n + 1, i => held), [ForkFails] + seq(n, i => Tick(now)))
            && Inv(held) && forall x :: x in s.q.line ==> Blocked(held, x)
  {
    var held := s.(q := Preempt(s.q, s.current, 1));
    StepInv(s, ForkFails, held);
    var states, events := [s] + seq(n + 1, i => held), [ForkFails] + seq(n, i => Tick(now));
    forall i | 0 <= i < n + 1 ensures StepAt(states, events, i) {
      if i > 0 { assert states[i] == states[i + 1] == held && events[i] == Tick(now); }
    }
  }

  /** A task whose count is raised and that calls `schedule` all the same waits with it: the scheduler goes on, and
      those that stand behind that task are blocked. */
  lemma {:induction false} YieldsHeld(s: Sys, s': Sys)
    requires Inv(s) && CountOf(s, s.current) >= 1 && Step(s, Yield, s')
    ensures Inv(s') && CountOf(s', s'.current) == CountOf(s, s'.current) - 1
    ensures s.current in s'.q.line && Twice(s', s.current)
    ensures forall x :: StandsBefore(s'.q.line, s.current, x) ==> Blocked(s', x)
  {
    BumpInv(s);
    StepInv(s, Yield, s');
    SwitchHands(Bump(s), s');
    assert s'.q.ents[s.current].onRq;
    forall x | StandsBefore(s'.q.line, s.current, x) ensures Blocked(s', x) { BlockedBy(s', s.current, x); }
  }
}
