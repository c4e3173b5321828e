/** src/sched.c and copy_process: the tasks and the run queue they share. */
module Sched {
  import opened Entities
  import opened Fixed
  import opened Wrap
  import opened RbShape
  import opened Fair
  import M = FairModel
  import S = SchedModel
  import I = SchedInv
  import opened Wrappers

  lemma {:induction false} FirstView(e: SchedEntity, load: LoadWeight, clock: u64)
    requires e.load == load && e.execStart == clock && !e.onRq && e.sumExec == e.vruntime == e.prevSum == 0
             && !e.needResched && e.preemptCount == 0
    ensures View({e}) == map[e := M.Ent(load, false, clock, 0, 0, 0, false, 0)]
  {
  }

  lemma {:induction false} ScheduleIs(s: S.Sys, i: nat, q1: M.Rq, next: SchedEntity)
    requires S.WellFormed(s) && i <= |s.q.line|
    requires var q := S.Preempt(s.q, s.current, 1);
             && M.Closed(q) && M.PickNextTask(q, s.current, i) == Some((q1, next))
             && (q.ents[s.current].onRq ==> M.Gap(M.UpdateCurr(q), M.UpdateCurr(q).ents[s.current].vruntime, i))
    ensures S.MayLand(s, i) && s.current in q1.ents && next in q1.ents
    ensures S.Schedule(s, i) == Some(S.Sys(S.Preempt(S.ClearResched(q1, s.current), next, -1), next))
  {
    S.PickKeeps(S.Preempt(s.q, s.current, 1), s.current, i);
  }

  lemma {:induction false} TickStep(s: S.Sys, now: u64, s1: S.Sys, s': S.Sys)
    requires I.Inv(s) && s.q.ents[s.current].preemptCount <= 0 && S.TickCharge(s, now) == Some(s1)
    requires s.current in s1.q.ents && if s1.q.ents[s.current].needResched then S.Switches(s1, s') else s' == s1
    ensures S.Step(s, S.Tick(now), s') && I.Inv(s')
  {
    I.StepInv(s, S.Tick(now), s');
  }

  /** The globals of src/sched.c. */
  class Scheduler {
    var current: SchedEntity
    const cfsRq: CfsRq
    const childRunsFirst: bool

    ghost function State(): S.Sys
      reads this, cfsRq, cfsRq.timeline, cfsRq.tasks
    {
      S.Sys(cfsRq.Abs(), current)
    }

    /** The invariant of the run queue, and that of the scheduler on what it stands for. */
    ghost predicate Valid()
      reads this, cfsRq, cfsRq.timeline, cfsRq.tasks, Nodes(cfsRq.timeline.tree)
    {
      cfsRq.Valid() && I.Inv(State())
    }

    /** `sched_init`, with the weight of the first task and the reading of the timer. */
    constructor (load: LoadWeight, clock: u64, childRunsFirst: bool)
      ensures Valid() && State() == I.Init(current, load, clock)
    {
      var init := new SchedEntity();
      init.load, init.execStart := load, clock;
      current, this.childRunsFirst := init, childRunsFirst;
      cfsRq := new CfsRq(clock, init);
      new;
      FirstView(init, load, clock);
      Start(init, load, clock);
    }

    /** The last two calls of `sched_init`. */
    method Start(init: SchedEntity, load: LoadWeight, clock: u64)
      requires cfsRq.Valid() && init in cfsRq.tasks && current == init
      requires cfsRq.Abs() == M.Rq(map[init := M.Ent(load, false, clock, 0, 0, 0, false, 0)], [], LoadWeight(0, 0), 0,
               0, clock, init)
      modifies cfsRq, cfsRq.timeline, cfsRq.tasks
      ensures Valid() && State() == I.Init(init, load, clock)
    {
      cfsRq.PlaceEntity(init);
      ghost var i := cfsRq.EnqueueEntity(init);
      I.InitInv(init, load, clock);
    }

    method Preempt(e: SchedEntity, n: int)
      requires cfsRq.Valid() && e in cfsRq.tasks
      modifies e`preemptCount
      ensures cfsRq.Valid() && cfsRq.Abs() == S.Preempt(old(cfsRq.Abs()), e, n)
    {
      ghost var m := View(cfsRq.tasks);
      e.preemptCount := e.preemptCount + n;
      assert View(cfsRq.tasks) == m[e := m[e].(preemptCount := m[e].preemptCount + n)];
    }

    /** `clear_tsk_need_resched` */
    method ClearNeedResched(e: SchedEntity)
      requires cfsRq.Valid() && e in cfsRq.tasks
      modifies e`needResched
      ensures cfsRq.Valid() && cfsRq.Abs() == S.ClearResched(old(cfsRq.Abs()), e)
    {
      ghost var m := View(cfsRq.tasks);
      e.needResched := false;
      assert View(cfsRq.tasks) == m[e := m[e].(needResched := false)];
    }

    /** `_schedule` up to the pick */
    method Pick(prev: SchedEntity) returns (next: SchedEntity, ghost i: nat)
      requires cfsRq.Valid() && prev in cfsRq.tasks && prev !in Nodes(cfsRq.timeline.tree)
      requires cfsRq.timeline.Contents() != [] && cfsRq.nrRunning != 0
               && forall e :: e in Nodes(cfsRq.timeline.tree) ==> e.onRq
      modifies cfsRq, cfsRq.timeline, cfsRq.tasks
      ensures cfsRq.Valid() && cfsRq.tasks == old(cfsRq.tasks)
      ensures var q := S.Preempt(old(cfsRq.Abs()), prev, 1);
              && M.Closed(q) && i <= |q.line| && M.PickNextTask(q, prev, i) == Some((cfsRq.Abs(), next))
              && (q.ents[prev].onRq ==> M.Gap(M.UpdateCurr(q), M.UpdateCurr(q).ents[prev].vruntime, i))
    {
      Preempt(prev, 1);
      next, i := cfsRq.PickNextTask(prev);
    }

    /** The rest of `_schedule`: `switch_to` hands the processor to `next`, which on its way back from its own call of
        `switch_to` (or from `schedule_tail`) lowers its count. */
    method SwitchTo(prev: SchedEntity, next: SchedEntity)
      requires cfsRq.Valid() && prev in cfsRq.tasks && next in cfsRq.tasks
      modifies this`current, prev`needResched, next`preemptCount
      ensures cfsRq.Valid() && State() == S.Sys(S.Preempt(S.ClearResched(old(cfsRq.Abs()), prev), next, -1), next)
    {
      ClearNeedResched(prev);
      current := next;
      Preempt(next, -1);
    }

    /** `_schedule`, where an entity waits on the tree */
    method ScheduleNow() returns (ghost i: nat)
      requires cfsRq.Valid() && S.WellFormed(State()) && current == cfsRq.curr && cfsRq.timeline.Contents() != []
               && cfsRq.nrRunning != 0
      requires current !in Nodes(cfsRq.timeline.tree) && forall e :: e in Nodes(cfsRq.timeline.tree) ==> e.onRq
      modifies this`current, cfsRq, cfsRq.timeline, cfsRq.tasks
      ensures cfsRq.Valid() && cfsRq.tasks == old(cfsRq.tasks)
      ensures S.MayLand(old(State()), i) && S.Schedule(old(State()), i) == Some(State())
    {
      var prev := current;
      var next;
      next, i := Pick(prev);
      ScheduleIs(old(State()), i, cfsRq.Abs(), next);
      SwitchTo(prev, next);
    }

    /** What the invariant says about the objects when another entity waits. */
    lemma SwitchReady()
      requires cfsRq.Valid() && S.WellFormed(State()) && S.Accounted(cfsRq.Abs()) && cfsRq.curr == current
      requires cfsRq.timeline.Contents() != [] && |cfsRq.Abs().ents| <= S.MAX_TASKS
      ensures cfsRq.nrRunning != 0 && current !in Nodes(cfsRq.timeline.tree)
              && forall e :: e in Nodes(cfsRq.timeline.tree) ==> e.onRq
    {
      InOrderNodes(cfsRq.timeline.tree);
      I.CountIsSmall(cfsRq.Abs());
    }

    // ----- the events -----

    /** `task_tick_fair` */
    method TaskTick(now: u64)
      requires Valid()
      modifies cfsRq, cfsRq.timeline, cfsRq.tasks
      ensures cfsRq.tasks == old(cfsRq.tasks)
      ensures Valid() && S.TickCharge(old(State()), now) == Some(State())
    {
      ghost var s := State();
      I.TickChargeInv(s, now);
      cfsRq.UpdateRqClock(now);
      cfsRq.EntityTick(current);
    }

    /** `if(need_resched()) _schedule()`: the flag is only set while another entity waits. */
    method ScheduleIfNeeded()
      requires Valid()
      modifies this`current, cfsRq, cfsRq.timeline, cfsRq.tasks
      ensures cfsRq.Valid() && cfsRq.tasks == old(cfsRq.tasks)
      ensures var s := old(State());
              s.current in s.q.ents && if s.q.ents[s.current].needResched then S.Switches(s, State()) else State() == s
    {
      if current.needResched {
        SwitchReady();
        ghost var i := ScheduleNow();
      }
    }

    /** `timer_tick` at timer reading `now` */
    method TimerTick(now: u64)
      requires Valid()
      modifies this`current, cfsRq, cfsRq.timeline, cfsRq.tasks
      ensures Valid() && S.Step(old(State()), S.Tick(now), State())
    {
      if current.preemptCount > 0 {
        return;
      }
      ghost var s := State();
      TaskTick(now);
      ghost var s1 := State();
      ScheduleIfNeeded();
      TickStep(s, now, s1, State());
    }

    /** `schedule`, which adds min_vruntime to the virtual time of the running task; it needs another one that waits. */
    method Bump()
      requires cfsRq.Valid() && S.WellFormed(State())
      modifies cfsRq.tasks`vruntime
      ensures cfsRq.Valid() && State() == S.Bump(old(State()))
    {
      cfsRq.SetVruntime(current, Add64(current.vruntime, cfsRq.minVruntime));
    }

    method Schedule()
      requires cfsRq.Valid() && S.WellFormed(State()) && S.Accounted(cfsRq.Abs()) && cfsRq.curr == current
      requires cfsRq.timeline.Contents() != [] && |cfsRq.Abs().ents| <= S.MAX_TASKS
      modifies this`current, cfsRq, cfsRq.timeline, cfsRq.tasks
      ensures cfsRq.Valid() && cfsRq.tasks == old(cfsRq.tasks)
      ensures S.Switches(S.Bump(old(State())), State())
    {
      ghost var s := State();
      Bump();
      I.BumpAccounts(s);
      SwitchReady();
      ghost var i := ScheduleNow();
    }

    /** `schedule`, as a task calls it to yield */
    method Yield()
      requires Valid() && cfsRq.timeline.Contents() != []
      modifies this`current, cfsRq, cfsRq.timeline, cfsRq.tasks
      ensures Valid() && S.Step(old(State()), S.Yield, State())
    {
      ghost var s := State();
      Schedule();
      I.StepInv(s, S.Yield, State());
    }

    /** `exit_process` up to the call of `schedule`; the pages of the task are not part of this model. */
    method LeaveQueue()
      requires cfsRq.Valid() && cfsRq.curr == current
      modifies cfsRq, cfsRq.timeline, cfsRq.tasks
      ensures cfsRq.Valid() && cfsRq.tasks == old(cfsRq.tasks)
      ensures S.WellFormed(old(State())) && State() == S.ExitDequeue(old(State()))
    {
      Preempt(current, 1);
      cfsRq.DequeueEntity(current);
      Preempt(current, -1);
    }

    /** `exit_process`, of a task that is not the last one */
    method ExitProcess()
      requires Valid() && cfsRq.timeline.Contents() != []
      modifies this`current, cfsRq, cfsRq.timeline, cfsRq.tasks
      ensures Valid() && S.Step(old(State()), S.Exit, State())
    {
      ghost var s := State();
      LeaveQueue();
      I.ExitReady(s);
      Schedule();
      I.ExitStep(s, State());
    }

    /** The task structure that `copy_process` fills in, with what `set_load_weight` puts there. */
    static method AllocTask(load: LoadWeight) returns (e: SchedEntity)
      ensures fresh(e) && M.Ent(e.load, e.onRq, e.execStart, e.sumExec, e.vruntime, e.prevSum, e.needResched,
              e.preemptCount) == M.Ent(load, false, 0, 0, 0, 0, false, 1)
    {
      e := new SchedEntity();
      e.preemptCount := 1;
      e.load := load;
    }

    /** `copy_process` up to the call of `task_fork_fair`, with the load of the parent's priority */
    method NewTask() returns (child: SchedEntity)
      requires cfsRq.Valid() && S.WellFormed(State())
      modifies cfsRq`tasks, cfsRq.tasks`preemptCount
      ensures fresh(child) && child !in old(cfsRq.tasks) && cfsRq.tasks == old(cfsRq.tasks) + {child}
      ensures cfsRq.Valid() && child !in Nodes(cfsRq.timeline.tree) && child != current
      ensures S.WellFormed(old(State())) && cfsRq.Abs() == S.NewTask(old(State()), child)
    {
      Preempt(current, 1);
      child := AllocTask(current.load);
      cfsRq.Adopt(child);
    }

    /** `task_fork_fair`, for the new task, and the end of `copy_process` */
    method ForkTask(child: SchedEntity, now: u64) returns (ghost i: nat)
      requires cfsRq.Valid() && child in cfsRq.tasks && current in cfsRq.tasks && child !in Nodes(cfsRq.timeline.tree)
               && child != cfsRq.curr
      modifies cfsRq, cfsRq.timeline, cfsRq.tasks
      ensures cfsRq.Valid() && M.Closed(old(cfsRq.Abs()))
      ensures var q := M.ForkPlace(old(cfsRq.Abs()), child, now);
              && M.Closed(q) && M.Gap(q, q.ents[child].vruntime, i) && current in q.ents
              && State() == S.ForkDone(old(State()), q, child, childRunsFirst, i)
    {
      i := cfsRq.TaskForkFair(child, now, childRunsFirst);
      Preempt(current, -1);
    }

    /** `copy_process`; with no page left it returns early, and the preemption count of the parent stays raised. */
    method CopyProcess(havePage: bool, now: u64) returns (child: SchedEntity?)
      requires Valid() && (havePage ==> |cfsRq.Abs().ents| < S.MAX_TASKS)
      modifies cfsRq, cfsRq.timeline, cfsRq.tasks
      ensures Valid() && (child != null <==> havePage)
      ensures child == null ==> S.Step(old(State()), S.ForkFails, State())
      ensures child != null ==> fresh(child) && S.Step(old(State()), S.Fork(child, now, childRunsFirst), State())
    {
      ghost var s := State();
      if !havePage {
        Preempt(current, 1);
        I.StepInv(s, S.ForkFails, State());
        return null;
      }
      child := NewTask();
      ghost var i := ForkTask(child, now);
      I.ForkStep(s, child, now, childRunsFirst, i, State());
    }
  }
}
