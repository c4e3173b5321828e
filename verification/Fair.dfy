/** src/fair.c: the run queue as an object that its functions update. */
module Fair {
  import opened Entities
  import opened Seqs
  import opened Fixed
  import opened Wrap
  import opened RbShape
  import opened RbLinks
  import opened RbSteps
  import opened RbTree
  import M = FairModel
  import opened Wrappers

  /** The scheduling fields of the entities as they stand on the heap. */
  ghost function View(T: set<SchedEntity>): (m: map<SchedEntity, M.Ent>)
    reads T`load, T`onRq, T`execStart, T`sumExec, T`vruntime, T`prevSum, T`needResched, T`preemptCount
  {
    map e | e in T :: M.Ent(e.load, e.onRq, e.execStart, e.sumExec, e.vruntime, e.prevSum, e.needResched,
        e.preemptCount)
  }

  /** The key `v` belongs at the hole: not before its left neighbour, and before its right one. */
  ghost predicate Parted(m: map<SchedEntity, M.Ent>, v: u64, c: Path) {
    var (a, z) := (Before(c), After(c));
    && (a != [] ==> a[|a| - 1] in m && !Sooner(v, m[a[|a| - 1]].vruntime))
    && (z != [] ==> z[0] in m && Sooner(v, m[z[0]].vruntime))
  }

  /** One step down: to the left of the root of `t`, or to its right. */
  lemma {:induction false} PartedBelow(m: map<SchedEntity, M.Ent>, v: u64, c: Path, t: Tree, d: Side)
    requires t.Node? && t.elem in m && Parted(m, v, c) && (d.Left? <==> Sooner(v, m[t.elem].vruntime))
    ensures var c' := Step(d, t.elem, t.black, Child(d.Flip(), t), c);
            && Parted(m, v, c') && Plug(c', Child(d, t)) == Plug(c, t) && Depth(c') == Depth(c) + 1
            && Height(Child(d, t)) < Height(t)
            && (Before(c') == [] <==> d.Left? && Before(c) == [])
  {
  }

  lemma {:induction false} PartedIsGap(q: M.Rq, c: Path, v: u64)
    requires M.Closed(q) && q.line == InOrder(Plug(c, Leaf)) && Parted(q.ents, v, c)
    ensures M.Gap(q, v, |Before(c)|) && q.line[..|Before(c)|] == Before(c) && q.line[|Before(c)|..] == After(c)
  {
    InOrderPlug(c, Leaf);
    assert q.line == Before(c) + After(c);
  }

  lemma {:induction false} NodeInside(c: Path, t: Tree)
    requires t.Node?
    ensures t.elem in Nodes(Plug(c, t))
  {
    DistinctPlug(c, t);
  }

  lemma {:induction false} Pow2Grows(a: nat, b: nat)
    requires a <= b
    ensures Pow2(a) <= Pow2(b)
  {
    if a < b { Pow2Grows(a, b - 1); }
  }

  lemma {:induction false} DescentIsShort(t: Tree, steps: nat)
    requires RedBlack(t) && steps <= Height(t)
    ensures Pow2((steps + 1) / 2) <= Size(t) + 1
  {
    var h: nat :| Rb(t, h);
    HeightBySize(t, h);
    Pow2Grows((steps + 1) / 2, h);
  }

  /** `struct cfs_rq`; `tasks` are the entities it deals with, on the tree or not. */
  class CfsRq {
    var load: LoadWeight
    var nrRunning: u32
    var minVruntime: u64
    var clockTask: u64
    var curr: SchedEntity?
    const timeline: RbRootCached
    ghost var tasks: set<SchedEntity>

    /** What the queue stands for. */
    ghost function Abs(): M.Rq
      reads this, timeline`tree, tasks`load, tasks`onRq, tasks`execStart, tasks`sumExec, tasks`vruntime, tasks`prevSum,
            tasks`needResched, tasks`preemptCount
    {
      M.Rq(View(tasks), timeline.Contents(), load, nrRunning, minVruntime, clockTask, curr)
    }

    ghost predicate Valid()
      reads this`curr, this`tasks, timeline, tasks`parent, tasks`black, tasks`left, tasks`right
      reads Nodes(timeline.tree)`parent, Nodes(timeline.tree)`black, Nodes(timeline.tree)`left,
            Nodes(timeline.tree)`right
    {
      && timeline.Valid() && Nodes(timeline.tree) <= tasks && (curr != null ==> curr in tasks)
      && timeline.leftmost == First(timeline.Contents())
      && forall e :: e in timeline.Contents() ==> e in tasks
    }

    /** The empty queue of `sched_init`, with `running` as the current entity. */
    constructor (clock: u64, running: SchedEntity)
      ensures Valid() && tasks == {running} && fresh(timeline)
      ensures load == LoadWeight(0, 0) && nrRunning == 0 && minVruntime == 0 && clockTask == clock && curr == running
              && timeline.Contents() == []
    {
      load, nrRunning, minVruntime, clockTask, curr := LoadWeight(0, 0), 0, 0, clock, running;
      timeline := new RbRootCached();
      tasks := {running};
      new;
      assert RedBlack(Leaf) by { assert Rb(Leaf, 0); }
    }

    method SetVruntime(se: SchedEntity, v: u64)
      requires Valid() && se in tasks
      modifies se`vruntime
      ensures Valid() && Abs() == old(Abs()).(ents := old(Abs()).ents[se := old(Abs()).ents[se].(vruntime := v)])
    {
      ghost var m := View(tasks);
      se.vruntime := v;
      assert View(tasks) == m[se := m[se].(vruntime := v)];
    }

    method SetOnRq(se: SchedEntity, on: bool)
      requires Valid() && se in tasks
      modifies se`onRq
      ensures Valid() && Abs() == old(Abs()).(ents := old(Abs()).ents[se := old(Abs()).ents[se].(onRq := on)])
    {
      ghost var m := View(tasks);
      se.onRq := on;
      assert View(tasks) == m[se := m[se].(onRq := on)];
    }

    /** `resched_curr`, which does nothing if the flag is set already */
    method ReschedCurr(se: SchedEntity)
      requires Valid() && se in tasks
      modifies se`needResched
      ensures Valid() && Abs() == M.Resched(old(Abs()), se)
    {
      ghost var m := View(tasks);
      if !se.needResched {
        se.needResched := true;
      }
      assert View(tasks) == m[se := m[se].(needResched := true)];
    }

    /** A task structure comes into being, off the tree. */
    ghost method Adopt(e: SchedEntity)
      requires Valid() && e !in tasks
      modifies this`tasks
      ensures Valid() && tasks == old(tasks) + {e}
      ensures Abs() == old(Abs()).(ents := old(Abs()).ents[e :=
              M.Ent(e.load, e.onRq, e.execStart, e.sumExec, e.vruntime, e.prevSum, e.needResched, e.preemptCount)])
    {
      ghost var m := View(tasks);
      tasks := tasks + {e};
      assert View(tasks) == m[e := M.Ent(e.load, e.onRq, e.execStart, e.sumExec, e.vruntime, e.prevSum, e.needResched,
          e.preemptCount)];
    }

    // ----- accounting -----

    /** `account_entity_enqueue` */
    method AccountEntityEnqueue(se: SchedEntity)
      requires Valid() && se in tasks
      modifies this`load, this`nrRunning
      ensures Valid() && Abs() == old(Abs()).(load := M.LoadAdd(old(load), se.load.weight),
              nr := M.Add32(old(nrRunning), 1))
    {
      load := M.LoadAdd(load, se.load.weight);
      nrRunning := M.Add32(nrRunning, 1);
    }

    /** `account_entity_dequeue` */
    method AccountEntityDequeue(se: SchedEntity)
      requires Valid() && se in tasks
      modifies this`load, this`nrRunning
      ensures Valid() && Abs() == old(Abs()).(load := M.LoadSub(old(load), se.load.weight), nr := Dec32(old(nrRunning)))
    {
      load := M.LoadSub(load, se.load.weight);
      nrRunning := Dec32(nrRunning);
    }

    /** `update_min_vruntime` */
    method UpdateMinVruntime()
      requires Valid()
      modifies this`minVruntime
      ensures Valid() && Abs() == M.UpdateMinVruntime(old(Abs()))
    {
      var running := curr;
      var vruntime := minVruntime;
      if running != null {
        if running.onRq {
          vruntime := running.vruntime;
        } else {
          running := null;
        }
      }
      var leftmost := timeline.leftmost;
      if leftmost != null {
        if running == null {
          vruntime := leftmost.vruntime;
        } else {
          vruntime := MinV(vruntime, leftmost.vruntime);
        }
      }
      minVruntime := MaxV(minVruntime, vruntime);
    }

    /** `calc_delta_fair` */
    method CalcDeltaFair(delta: u64, se: SchedEntity, ghost T: set<SchedEntity>) returns (r: u64)
      requires se in T
      modifies se`load
      ensures r == M.DeltaFair(delta, old(se.load))
      ensures View(T) == old(View(T))[se := old(View(T))[se].(load := M.FairLoad(old(se.load)))]
    {
      r := delta;
      if se.load.weight != NICE_0_LOAD {
        var lw;
        r, lw := CalcDeltaLoop(delta, NICE_0_LOAD, se.load);
        se.load := lw;
      }
    }

    /** The part of `update_curr` that charges the running entity. */
    method Charge(running: SchedEntity, deltaExec: u64, ghost T: set<SchedEntity>)
      requires running in T && deltaExec == Sub64(clockTask, running.execStart)
      modifies running`execStart, running`sumExec, running`vruntime, running`load
      ensures View(T) == old(View(T))[running := M.Charge(old(View(T))[running], clockTask)]
    {
      running.execStart := clockTask;
      running.sumExec := Add64(running.sumExec, deltaExec);
      var delta := CalcDeltaFair(deltaExec, running, T);
      running.vruntime := Add64(running.vruntime, delta);
    }

    /** `update_curr` */
    method UpdateCurr()
      requires Valid()
      modifies this`minVruntime, (if curr == null then {} else {curr})`execStart,
               (if curr == null then {} else {curr})`sumExec
      modifies (if curr == null then {} else {curr})`vruntime, (if curr == null then {} else {curr})`load
      ensures Valid() && Abs() == M.UpdateCurr(old(Abs()))
    {
      if curr == null {
        return;
      }
      var running: SchedEntity := curr;
      var deltaExec := Sub64(clockTask, running.execStart);
      if S64(deltaExec) <= 0 {
        return;
      }
      Charge(running, deltaExec, tasks);
      UpdateMinVruntime();
    }

    // ----- slices -----

    /** `sched_slice` */
    method SchedSlice(se: SchedEntity) returns (slice: u64)
      requires Valid() && se in tasks
      modifies this`load
      ensures Valid() && slice == M.Slice(old(Abs()), se) && Abs() == M.AfterSlice(old(Abs()), se)
    {
      var period := M.SchedPeriod(if se.onRq then nrRunning else M.Add32(nrRunning, 1));
      var lw;
      if se.onRq {
        slice, lw := CalcDeltaLoop(period, se.load.weight, load);
        load := lw;
      } else {
        slice, lw := CalcDeltaLoop(period, se.load.weight, M.LoadAdd(load, se.load.weight));
      }
    }

    /** `sched_vslice` */
    method SchedVslice(se: SchedEntity) returns (vslice: u64)
      requires Valid() && se in tasks
      modifies this`load, se`load
      ensures Valid() && vslice == M.DeltaFair(M.Slice(old(Abs()), se), old(se.load)) 
      ensures Abs() == M.AfterSlice(old(Abs()), se).(ents :=
              old(View(tasks))[se := old(View(tasks))[se].(load := M.FairLoad(old(se.load)))])
    {
      var slice := SchedSlice(se);
      vslice := CalcDeltaFair(slice, se, tasks);
    }

    /** `place_entity` */
    method PlaceEntity(se: SchedEntity)
      requires Valid() && se in tasks
      modifies this`load, se`vruntime, se`load
      ensures Valid() && Abs() == M.PlaceEntity(old(Abs()), se)
    {
      var vslice := SchedVslice(se);
      ghost var q1 := Abs();
      SetVruntime(se, MaxV(se.vruntime, Add64(minVruntime, vslice)));
      M.PlacedIs(old(Abs()), q1, Abs(), se);
    }

    // ----- the timeline -----

    /** The descent of `__enqueue_entity`: the link it ends at, whether it only ever went left, and how often it went
        on. */
    method Descend(se: SchedEntity)
      returns (parent: SchedEntity?, side: Side, isLeftmost: bool, ghost c: Path, ghost steps: nat)
      requires Valid()
      ensures timeline.tree == Plug(c, Leaf) && parent == Above(c, null) && side == SideOf(c)
              && (isLeftmost <==> Before(c) == [])
      ensures Parted(View(tasks), se.vruntime, c) && steps == Depth(c) <= Height(timeline.tree)
    {
      var link := timeline.rbNode;
      parent, side, isLeftmost := null, Left, true;
      c, steps := Top, 0;
      ghost var t := timeline.tree;
      while link != null
        invariant timeline.tree == Plug(c, t) && link == Root(t) && parent == Above(c, null) && side == SideOf(c)
        invariant isLeftmost <==> Before(c) == []
        invariant Parted(View(tasks), se.vruntime, c) && steps == Depth(c)
                  && Depth(c) + Height(t) <= Height(timeline.tree)
        decreases t
      {
        var entry: SchedEntity := link;
        RootCell(timeline.Now(Nodes(timeline.tree)), c, t);
        NodeInside(c, t);
        side := if Sooner(se.vruntime, entry.vruntime) then Left else Right;
        PartedBelow(View(tasks), se.vruntime, c, t, side);
        c, t := Step(side, entry, t.black, Child(side.Flip(), t), c), Child(side, t);
        parent, steps, link := entry, steps + 1, entry.Kid(side);
        if side.Right? {
          isLeftmost := false;
        }
      }
    }

    /** The end of `__enqueue_entity`: `rb_link_node` and `rb_insert_color_cached`. */
    method LinkAt(se: SchedEntity, parent: SchedEntity?, side: Side, isLeftmost: bool, ghost c: Path)
      requires Valid() && se in tasks && se !in Nodes(timeline.tree)
      requires timeline.tree == Plug(c, Leaf) && parent == Above(c, null) && side == SideOf(c)
               && (isLeftmost <==> Before(c) == [])
      modifies timeline, tasks`parent, tasks`black, tasks`left, tasks`right
      ensures Valid() && Abs() == old(Abs()).(line := Before(c) + [se] + After(c))
      ensures Nodes(timeline.tree) == old(Nodes(timeline.tree)) + {se}
    {
      ghost var m := View(tasks);
      timeline.Insert(se, parent, side, isLeftmost, c);
      assert View(tasks) == m;
      InOrderNodes(timeline.tree);
    }

    /** `__enqueue_entity`. The descent ends at the hole `c` of the tree, in the gap of the key, after at most
        2 * log2(n + 1) steps. */
    method EnqueueTimeline(se: SchedEntity) returns (ghost i: nat, ghost steps: nat, ghost c: Path)
      requires Valid() && se in tasks && se !in Nodes(timeline.tree)
      modifies timeline, tasks`parent, tasks`black, tasks`left, tasks`right
      ensures Valid() && M.Closed(old(Abs())) && M.Gap(old(Abs()), se.vruntime, i) && Abs() == M.Link(old(Abs()), se, i)
      ensures Nodes(timeline.tree) == old(Nodes(timeline.tree)) + {se}
      ensures old(timeline.tree) == Plug(c, Leaf) && i == |Before(c)| && steps == Depth(c)
      ensures Pow2((steps + 1) / 2) <= |old(timeline.Contents())| + 1
    {
      ghost var q, t0 := Abs(), timeline.tree;
      var parent, side, isLeftmost;
      parent, side, isLeftmost, c, steps := Descend(se);
      i := |Before(c)|;
      PartedIsGap(q, c, se.vruntime);
      DescentIsShort(t0, steps);
      LinkAt(se, parent, side, isLeftmost, c);
    }

    /** `__dequeue_entity` */
    method DequeueTimeline(se: SchedEntity)
      requires Valid() && se in Nodes(timeline.tree)
      modifies timeline, tasks`parent, tasks`black, tasks`left, tasks`right
      ensures Valid() && Abs() == old(Abs()).(line := Without(old(Abs()).line, se))
      ensures Nodes(timeline.tree) == old(Nodes(timeline.tree)) - {se}
    {
      timeline.Erase(se);
      InOrderNodes(timeline.tree);
    }

    /** `enqueue_entity` */
    method EnqueueEntity(se: SchedEntity) returns (ghost i: nat)
      requires Valid() && se in tasks && (se != curr ==> se !in Nodes(timeline.tree))
      modifies this`load, this`nrRunning, timeline, tasks
      ensures Valid() && M.Closed(old(Abs())) && i <= |old(Abs()).line| && Abs() == M.EnqueueEntity(old(Abs()), se, i)
      ensures se != curr ==> M.Gap(old(Abs()), old(se.vruntime), i)
    {
      i := 0;
      AccountEntityEnqueue(se);
      if se != curr {
        ghost var steps, c;
        i, steps, c := EnqueueTimeline(se);
      }
      SetOnRq(se, true);
    }

    /** `dequeue_entity` */
    method DequeueEntity(se: SchedEntity)
      requires Valid() && se in tasks && (se != curr ==> se in Nodes(timeline.tree))
      modifies this`load, this`nrRunning, this`minVruntime, timeline, tasks
      ensures Valid() && M.Closed(old(Abs())) && Abs() == M.DequeueEntity(old(Abs()), se)
    {
      UpdateCurr();
      if se != curr {
        DequeueTimeline(se);
      }
      SetOnRq(se, false);
      AccountEntityDequeue(se);
      UpdateMinVruntime();
    }

    /** The bookkeeping of `set_next_entity`, with `update_stats_curr_start`. */
    method StartCurr(se: SchedEntity)
      requires Valid() && se in tasks
      modifies this`curr, se`execStart, se`prevSum
      ensures Valid()
      ensures Abs() == old(Abs()).(curr := se, ents :=
              old(Abs()).ents[se := old(Abs()).ents[se].(execStart := clockTask,
              prevSum := old(Abs()).ents[se].sumExec)])
    {
      ghost var m := View(tasks);
      se.execStart := clockTask;
      curr := se;
      se.prevSum := se.sumExec;
      assert View(tasks) == m[se := m[se].(execStart := clockTask, prevSum := m[se].sumExec)];
    }

    /** `set_next_entity` */
    method SetNextEntity(se: SchedEntity)
      requires Valid() && se in tasks && (se.onRq ==> se in Nodes(timeline.tree))
      modifies this`curr, timeline, tasks
      ensures Valid() && Abs() == M.SetNextEntity(old(Abs()), se)
    {
      if se.onRq {
        DequeueTimeline(se);
      }
      StartCurr(se);
    }

    /** `put_prev_entity`, for an entity that is still on the queue */
    method PutBack(prev: SchedEntity) returns (ghost i: nat)
      requires Valid() && prev in tasks && prev !in Nodes(timeline.tree)
      modifies this`minVruntime, timeline, tasks`parent, tasks`black, tasks`left, tasks`right
      modifies tasks`execStart, tasks`sumExec, tasks`vruntime, tasks`load
      ensures Valid() && M.Closed(old(Abs())) && i <= |old(Abs()).line|
              && Abs() == M.Link(M.UpdateCurr(old(Abs())), prev, i)
      ensures var q := M.UpdateCurr(old(Abs())); M.Gap(q, q.ents[prev].vruntime, i)
      ensures Nodes(timeline.tree) == old(Nodes(timeline.tree)) + {prev}
    {
      UpdateCurr();
      ghost var steps, c;
      i, steps, c := EnqueueTimeline(prev);
    }

    method ClearCurr()
      requires Valid()
      modifies this`curr
      ensures Valid() && Abs() == old(Abs()).(curr := null)
    {
      curr := null;
    }

    /** `put_prev_entity` */
    method PutPrevEntity(prev: SchedEntity) returns (ghost i: nat)
      requires Valid() && prev in tasks && (prev.onRq ==> prev !in Nodes(timeline.tree))
      modifies this`curr, this`minVruntime, timeline, tasks`parent, tasks`black, tasks`left, tasks`right
      modifies tasks`execStart, tasks`sumExec, tasks`vruntime, tasks`load
      ensures Valid() && M.Closed(old(Abs())) && i <= |old(Abs()).line| && Abs() == M.PutPrevEntity(old(Abs()), prev, i)
      ensures prev.onRq ==> var q := M.UpdateCurr(old(Abs())); M.Gap(q, q.ents[prev].vruntime, i)
      ensures Nodes(timeline.tree) == old(Nodes(timeline.tree)) + if prev.onRq then {prev} else {}
    {
      i := 0;
      if prev.onRq {
        i := PutBack(prev);
      }
      ClearCurr();
    }

    /** `pick_next_task_fair`. If entities are counted but none is on the tree, the source goes on to a null entity;
        here the result is null as well. */
    method PickNextTask(prev: SchedEntity) returns (next: SchedEntity?, ghost i: nat)
      requires Valid() && prev in tasks && (prev.onRq ==> prev !in Nodes(timeline.tree))
      modifies this`curr, this`minVruntime, timeline, tasks
      ensures Valid() && M.Closed(old(Abs())) && i <= |old(Abs()).line|
      ensures next == null ==> M.PickNextTask(old(Abs()), prev, i).None?
      ensures next != null ==> M.PickNextTask(old(Abs()), prev, i) == Some((Abs(), next))
      ensures next != null && old(prev.onRq) ==> var q := M.UpdateCurr(old(Abs())); M.Gap(q, q.ents[prev].vruntime, i)
    {
      i := 0;
      if nrRunning == 0 {
        return null, 0;
      }
      ghost var q := Abs();
      next := timeline.leftmost;
      if next == null {
        return;
      }
      InOrderNodes(timeline.tree);
      i := PutPrevEntity(prev);
      SetNextEntity(next);
    }

    // ----- ticks -----

    /** `check_preempt_tick`, where it does not come to dereference a null leftmost entity. */
    method CheckPreemptTick(se: SchedEntity)
      requires Valid() && se in tasks && M.CheckPreemptTick(Abs(), se).Some?
      modifies this`load, se`needResched
      ensures Valid() && M.CheckPreemptTick(old(Abs()), se) == Some(Abs())
    {
      var idealRuntime := SchedSlice(se);
      var deltaExec := Sub64(se.sumExec, se.prevSum);
      if deltaExec > idealRuntime {
        ReschedCurr(se);
        return;
      }
      if deltaExec < M.MIN_GRANULARITY {
        return;
      }
      var first: SchedEntity := timeline.leftmost;
      var delta := S64(Sub64(se.vruntime, first.vruntime));
      if delta < 0 {
        return;
      }
      if delta > idealRuntime {
        ReschedCurr(se);
      }
    }

    /** `entity_tick` */
    method EntityTick(se: SchedEntity)
      requires Valid() && M.Closed(Abs()) && se in tasks && M.EntityTick(Abs(), se).Some?
      modifies this`load, this`minVruntime, tasks`execStart, tasks`sumExec, tasks`vruntime, tasks`load,
               tasks`needResched
      ensures Valid() && M.Closed(old(Abs())) && M.EntityTick(old(Abs()), se) == Some(Abs())
    {
      UpdateCurr();
      if nrRunning > 1 && se.preemptCount <= 0 {
        CheckPreemptTick(se);
      }
    }

    // ----- fork -----

    /** `update_rq_clock` (src/sched.c) at timer reading `now` */
    method UpdateRqClock(now: u64)
      requires Valid()
      modifies this`clockTask
      ensures Valid() && Abs() == old(Abs()).(clock := now)
    {
      clockTask := now;
    }

    /** `task_fork_fair` up to the call of `enqueue_entity` */
    method ForkPlace(se: SchedEntity, now: u64)
      requires Valid() && se in tasks
      modifies this`load, this`minVruntime, this`clockTask, tasks`execStart, tasks`sumExec, tasks`vruntime, tasks`load
      ensures Valid() && M.Closed(old(Abs())) && Abs() == M.ForkPlace(old(Abs()), se, now)
    {
      UpdateRqClock(now);
      if curr != null {
        UpdateCurr();
        SetVruntime(se, curr.vruntime);
      }
      PlaceEntity(se);
    }

    /** The exchange of virtual times at the end of `task_fork_fair`. */
    method SwapVruntimes(a: SchedEntity, b: SchedEntity)
      requires Valid() && a in tasks && b in tasks
      modifies a`vruntime, b`vruntime
      ensures Valid()
      ensures var m := old(Abs()).ents;
              var m1 := m[a := m[a].(vruntime := m[b].vruntime)];
              Abs() == old(Abs()).(ents := m1[b := m1[b].(vruntime := m[a].vruntime)])
    {
      var t := a.vruntime;
      SetVruntime(a, b.vruntime);
      SetVruntime(b, t);
    }

    /** `task_fork_fair` */
    method TaskForkFair(se: SchedEntity, now: u64, childRunsFirst: bool) returns (ghost i: nat)
      requires Valid() && se in tasks && se !in Nodes(timeline.tree) && se != curr
      modifies this`load, this`nrRunning, this`minVruntime, this`clockTask, timeline, tasks
      ensures Valid() && M.Closed(old(Abs()))
      ensures var q := M.ForkPlace(old(Abs()), se, now);
              M.Closed(q) && M.Gap(q, q.ents[se].vruntime, i) && Abs() == M.ForkEnqueue(q, se, childRunsFirst, i)
    {
      ForkPlace(se, now);
      i := EnqueueEntity(se);
      if childRunsFirst && curr != null && Sooner(curr.vruntime, se.vruntime) {
        SwapVruntimes(curr, se);
        ReschedCurr(curr);
      }
    }
  }
}
