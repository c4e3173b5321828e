/** The state of the run queue as a value, and what each function of src/fair.c does to it. */
module FairModel {
  import opened Entities
  import opened Fixed
  import opened Wrap
  import opened Seqs
  import opened Wrappers

  const SCHED_LATENCY: u64 := 64
  const MIN_GRANULARITY: u64 := 8
  const NR_LATENCY: u64 := 8

  /** The scheduling fields of an entity and of the task around it. */
  datatype Ent = Ent(load: LoadWeight, onRq: bool, execStart: u64, sumExec: u64, vruntime: u64, prevSum: u64,
                     needResched: bool, preemptCount: int)

  /** `struct cfs_rq`, the entities it refers to, and the entities on its tree in order. */
  datatype Rq = Rq(ents: map<SchedEntity, Ent>, line: seq<SchedEntity>, load: LoadWeight, nr: u32, minV: u64,
                   clock: u64, curr: SchedEntity?)

  /** Every entity the queue refers to is known. */
  predicate Closed(q: Rq) {
    (q.curr != null ==> q.curr in q.ents) && forall e :: e in q.line ==> e in q.ents
  }

  function Add32(a: u32, b: u32): u32 { if a + b < TWO_32 then a + b else a + b - TWO_32 }

  // ----- accounting -----

  /** `calc_delta_fair` */
  function DeltaFair(delta: u64, lw: LoadWeight): u64 {
    if lw.weight != NICE_0_LOAD then CalcDelta(delta, NICE_0_LOAD, lw) else delta
  }
  function FairLoad(lw: LoadWeight): LoadWeight { if lw.weight != NICE_0_LOAD then UpdateInvWeight(lw) else lw }

  /** `update_load_add` and `update_load_sub` */
  function LoadAdd(lw: LoadWeight, w: u64): LoadWeight { LoadWeight(Add64(lw.weight, w), 0) }
  function LoadSub(lw: LoadWeight, w: u64): LoadWeight { LoadWeight(Sub64(lw.weight, w), 0) }

  /** `update_min_vruntime` */
  function UpdateMinVruntime(q: Rq): Rq
    requires Closed(q)
  {
    var left := First(q.line);
    var running := q.curr != null && q.ents[q.curr].onRq;
    var v :=
      if left == null then if running then q.ents[q.curr].vruntime else q.minV
      else if running then MinV(q.ents[q.curr].vruntime, q.ents[left].vruntime)
      else q.ents[left].vruntime;
    q.(minV := MaxV(q.minV, v))
  }

  /** The running entity after `delta` more time. */
  function Charge(e: Ent, now: u64): Ent {
    var delta := Sub64(now, e.execStart);
    e.(execStart := now, sumExec := Add64(e.sumExec, delta),
       vruntime := Add64(e.vruntime, DeltaFair(delta, e.load)), load := FairLoad(e.load))
  }

  /** `update_curr` */
  function UpdateCurr(q: Rq): Rq
    requires Closed(q)
  {
    if q.curr == null || S64(Sub64(q.clock, q.ents[q.curr].execStart)) <= 0 then q
    else UpdateMinVruntime(q.(ents := q.ents[q.curr := Charge(q.ents[q.curr], q.clock)]))
  }

  /** `__sched_period` */
  function SchedPeriod(nr: u32): u64 {
    if nr > NR_LATENCY then MIN_GRANULARITY * nr else SCHED_LATENCY
  }

  /** `sched_slice`: an entity that is not on the queue is added to the load first. */
  function Slice(q: Rq, e: SchedEntity): u64
    requires e in q.ents
  {
    var w := q.ents[e].load.weight;
    if q.ents[e].onRq then CalcDelta(SchedPeriod(q.nr), w, q.load)
    else CalcDelta(SchedPeriod(Add32(q.nr, 1)), w, LoadAdd(q.load, w))
  }

  /** The reciprocal that `sched_slice` leaves in the load of the queue. */
  function AfterSlice(q: Rq, e: SchedEntity): Rq
    requires e in q.ents
  {
    if q.ents[e].onRq then q.(load := UpdateInvWeight(q.load)) else q
  }

  /** `place_entity` */
  function PlaceEntity(q: Rq, e: SchedEntity): Rq
    requires e in q.ents
  {
    var q1 := AfterSlice(q, e);
    var v := Add64(q.minV, DeltaFair(Slice(q, e), q.ents[e].load));
    q1.(ents := q1.ents[e := q1.ents[e].(vruntime := MaxV(q1.ents[e].vruntime, v), load := FairLoad(q1.ents[e].load))])
  }

  /** `place_entity` in two steps: the slice, which may cache reciprocals, and the new virtual time. */
  lemma {:induction false} PlacedIs(q: Rq, q1: Rq, q2: Rq, e: SchedEntity)
    requires e in q.ents && q1 == AfterSlice(q, e).(ents := q.ents[e := q.ents[e].(load := FairLoad(q.ents[e].load))])
    requires q2 == q1.(ents := q1.ents[e := q1.ents[e].(
      vruntime := MaxV(q.ents[e].vruntime, Add64(q.minV, DeltaFair(Slice(q, e), q.ents[e].load))))])
    ensures q2 == PlaceEntity(q, e)
  {
    assert q2.ents == PlaceEntity(q, e).ents;
  }

  // ----- the timeline -----

  /** Position `i` is where the descent of `__enqueue_entity` may end for the key `v`: not before its left neighbour
      and before its right one. In an ordered timeline there is only one such position. */
  ghost predicate Gap(q: Rq, v: u64, i: nat)
    requires Closed(q)
  {
    && i <= |q.line|
    && (i > 0 ==> !Sooner(v, q.ents[q.line[i - 1]].vruntime))
    && (i < |q.line| ==> Sooner(v, q.ents[q.line[i]].vruntime))
  }

  function Link(q: Rq, e: SchedEntity, i: nat): Rq
    requires i <= |q.line|
  {
    q.(line := q.line[..i] + [e] + q.line[i..])
  }

  /** `enqueue_entity`, with the entity linked at position `i` */
  function EnqueueEntity(q: Rq, e: SchedEntity, i: nat): Rq
    requires e in q.ents && i <= |q.line|
  {
    var q1 := q.(load := LoadAdd(q.load, q.ents[e].load.weight), nr := Add32(q.nr, 1));
    var q2 := if e != q.curr then Link(q1, e, i) else q1;
    q2.(ents := q2.ents[e := q2.ents[e].(onRq := true)])
  }

  /** `dequeue_entity` */
  function DequeueEntity(q: Rq, e: SchedEntity): Rq
    requires Closed(q) && e in q.ents
  {
    var q1 := UpdateCurr(q);
    var q2 := if e != q.curr then q1.(line := Without(q1.line, e)) else q1;
    var q3 := q2.(ents := q2.ents[e := q2.ents[e].(onRq := false)]);
    WithoutInside(q1.line, e);
    UpdateMinVruntime(q3.(load := LoadSub(q3.load, q3.ents[e].load.weight), nr := Dec32(q3.nr)))
  }

  lemma {:induction false} WithoutInside(s: seq<SchedEntity>, x: SchedEntity)
    ensures forall y :: y in Without(s, x) ==> y in s
  {
    if s != [] && s[0] != x { WithoutInside(s[1..], x); }
  }

  /** `set_next_entity`; it faults on a null entity. */
  function SetNextEntity(q: Rq, e: SchedEntity): Rq
    requires e in q.ents
  {
    var q1 := if q.ents[e].onRq then q.(line := Without(q.line, e)) else q;
    q1.(curr := e, ents := q1.ents[e := q1.ents[e].(execStart := q.clock, prevSum := q1.ents[e].sumExec)])
  }

  /** `put_prev_entity`, with `prev` linked at position `i` if it is still on the queue */
  function PutPrevEntity(q: Rq, prev: SchedEntity, i: nat): Rq
    requires Closed(q) && prev in q.ents && i <= |q.line|
  {
    var q1 := if q.ents[prev].onRq then Link(UpdateCurr(q), prev, i) else q;
    q1.(curr := null)
  }

  /** `pick_next_task_fair`; `pick_next_entity` is called with a null `curr` and so returns the leftmost entity, or
      null. None stands for the null dereference that follows a null task or a null entity. */
  function PickNextTask(q: Rq, prev: SchedEntity, i: nat): Option<(Rq, SchedEntity)>
    requires Closed(q) && prev in q.ents && i <= |q.line|
  {
    if q.nr == 0 then None
    else
      var se := First(q.line);
      if se == null then None
      else
        var next: SchedEntity := se;
        Some((SetNextEntity(PutPrevEntity(q, prev, i), next), next))
  }

  // ----- preemption -----

  function Resched(q: Rq, e: SchedEntity): Rq
    requires e in q.ents
  {
    q.(ents := q.ents[e := q.ents[e].(needResched := true)])
  }

  /** `check_preempt_tick`; None stands for the null dereference of the leftmost entity. */
  function CheckPreemptTick(q: Rq, curr: SchedEntity): Option<Rq>
    requires Closed(q) && curr in q.ents
  {
    var ideal := Slice(q, curr);
    var q1 := AfterSlice(q, curr);
    var delta := Sub64(q.ents[curr].sumExec, q.ents[curr].prevSum);
    if delta > ideal then Some(Resched(q1, curr))
    else if delta < MIN_GRANULARITY then Some(q1)
    else
      var se := First(q.line);
      if se == null then None
      else
        var d := S64(Sub64(q.ents[curr].vruntime, q.ents[se].vruntime));
        if d < 0 then Some(q1) else if d > ideal then Some(Resched(q1, curr)) else Some(q1)
  }

  /** `entity_tick` */
  function EntityTick(q: Rq, curr: SchedEntity): Option<Rq>
    requires Closed(q) && curr in q.ents
  {
    var q1 := UpdateCurr(q);
    if q1.nr > 1 && q1.ents[curr].preemptCount <= 0 then CheckPreemptTick(q1, curr) else Some(q1)
  }

  // ----- fork -----

  /** `task_fork_fair` up to the call of `enqueue_entity`, at clock reading `now` */
  function ForkPlace(q: Rq, e: SchedEntity, now: u64): Rq
    requires Closed(q) && e in q.ents
  {
    var q1 := UpdateCurr(q.(clock := now));
    var q2 := if q.curr != null then q1.(ents := q1.ents[e := q1.ents[e].(vruntime := q1.ents[q.curr].vruntime)])
        else q1;
    PlaceEntity(q2, e)
  }

  /** The rest of `task_fork_fair`: the child is linked at position `i`, and with `sysctl_sched_child_runs_first` set it
      changes virtual times with a parent that would run before it. */
  function ForkEnqueue(q: Rq, e: SchedEntity, childFirst: bool, i: nat): Rq
    requires Closed(q) && e in q.ents && i <= |q.line|
  {
    var q1 := EnqueueEntity(q, e, i);
    if childFirst && q.curr != null && Sooner(q1.ents[q.curr].vruntime, q1.ents[e].vruntime) then
      var (vc, ve) := (q1.ents[q.curr].vruntime, q1.ents[e].vruntime);
      var m := q1.ents[q.curr := q1.ents[q.curr].(vruntime := ve)];
      Resched(q1.(ents := m[e := m[e].(vruntime := vc)]), q.curr)
    else q1
  }
}
