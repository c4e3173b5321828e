/** src/sched.c and copy_process as steps over the run queue, and the invariant that every step keeps. */
module SchedModel {
  import opened Entities
  import opened Seqs
  import opened Fixed
  import opened Wrap
  import opened FairModel
  import opened Wrappers

  /** The run queue, and the task that owns the processor. */
  datatype Sys = Sys(q: Rq, current: SchedEntity)

  datatype Label =
    | Tick(now: u64)
    | Yield
    | Exit
    | Fork(child: SchedEntity, now: u64, childFirst: bool)
    | ForkFails

  function Preempt(q: Rq, e: SchedEntity, n: int): Rq
    requires e in q.ents
  {
    q.(ents := q.ents[e := q.ents[e].(preemptCount := q.ents[e].preemptCount + n)])
  }

  function ClearResched(q: Rq, e: SchedEntity): Rq
    requires e in q.ents
  {
    q.(ents := q.ents[e := q.ents[e].(needResched := false)])
  }

  ghost predicate WellFormed(s: Sys) { Closed(s.q) && s.current in s.q.ents }

  /** `_schedule`. On the way back from `switch_to` it is the next task that lowers its count. */
  function Schedule(s: Sys, i: nat): Option<Sys>
    requires WellFormed(s) && i <= |s.q.line|
  {
    match PickNextTask(Preempt(s.q, s.current, 1), s.current, i)
    case None => None
    case Some((q, next)) =>
      PickKeeps(Preempt(s.q, s.current, 1), s.current, i);
      Some(Sys(Preempt(ClearResched(q, s.current), next, -1), next))
  }

  /** `schedule`, which first adds min_vruntime to the virtual time of the running task */
  function Bump(s: Sys): Sys
    requires WellFormed(s)
  {
    var e := s.q.ents[s.current];
    s.(q := s.q.(ents := s.q.ents[s.current := e.(vruntime := Add64(e.vruntime, s.q.minV))]))
  }

  /** `timer_tick` up to the call of `_schedule` */
  function TickCharge(s: Sys, now: u64): Option<Sys>
    requires WellFormed(s)
  {
    match EntityTick(s.q.(clock := now), s.current)
    case None => None
    case Some(q) => Some(s.(q := q))
  }

  /** `exit_process` up to the call of `schedule` */
  function ExitDequeue(s: Sys): Sys
    requires WellFormed(s)
  {
    s.(q := Preempt(DequeueEntity(Preempt(s.q, s.current, 1), s.current), s.current, -1))
  }

  lemma {:induction false} PickKeeps(q: Rq, prev: SchedEntity, i: nat)
    requires Closed(q) && prev in q.ents && i <= |q.line|
    ensures PickNextTask(q, prev, i).Some? ==>
              var (q', next) := PickNextTask(q, prev, i).value;
              q'.ents.Keys == q.ents.Keys && next in q.ents && q'.curr == next
  {
  }

  // ----- steps -----

  /** Where `put_prev_entity` may link the running task. */
  ghost predicate MayLand(s: Sys, i: nat)
    requires WellFormed(s)
  {
    i <= |s.q.line| &&
    var q := UpdateCurr(Preempt(s.q, s.current, 1));
    q.ents[s.current].onRq ==> Gap(q, q.ents[s.current].vruntime, i)
  }

  ghost predicate Switches(s: Sys, s': Sys) {
    WellFormed(s) && exists i: nat :: MayLand(s, i) && Schedule(s, i) == Some(s')
  }

  /** One task per page of memory. */
  const MAX_TASKS := 257024 + 1

  /** `copy_process` up to the call of `task_fork_fair`: the task structure lies in a zeroed page of its own, and
      `set_load_weight` gives it the load of the priority copied from the parent, which is the parent's own. */
  function NewTask(s: Sys, child: SchedEntity): Rq
    requires WellFormed(s)
  {
    var q := Preempt(s.q, s.current, 1);
    q.(ents := q.ents[child := Ent(s.q.ents[s.current].load, false, 0, 0, 0, 0, false, 1)])
  }

  /** The next state under an event that is not a switch to another task's stack, or one that is. */
  ghost predicate Step(s: Sys, l: Label, s': Sys)
    requires WellFormed(s)
  {
    match l
    case Tick(now) =>
      if s.q.ents[s.current].preemptCount > 0 then s' == s
      else
        var r := TickCharge(s, now);
        r.Some? && s.current in r.value.q.ents && (if r.value.q.ents[s.current].needResched then Switches(r.value, s')
            else s' == r.value)
    case Yield => Switches(Bump(s), s')
    case Exit => WellFormed(ExitDequeue(s)) && Switches(Bump(ExitDequeue(s)), s')
    case Fork(child, now, childFirst) =>
      && child !in s.q.ents && |s.q.ents| < MAX_TASKS &&
      var q := ForkPlace(NewTask(s, child), child, now);
      && Closed(q)
      && exists i: nat :: Gap(q, q.ents[child].vruntime, i) && s' == ForkDone(s, q, child, childFirst, i)
    case ForkFails => s' == s.(q := Preempt(s.q, s.current, 1))
  }

  function ForkDone(s: Sys, q: Rq, child: SchedEntity, childFirst: bool, i: nat): Sys
    requires Closed(q) && child in q.ents && s.current in q.ents && i <= |q.line|
  {
    s.(q := Preempt(ForkEnqueue(q, child, childFirst, i), s.current, -1))
  }

  // ----- accounting -----

  function Weight(q: Rq, e: SchedEntity): nat
    requires e in q.ents
  {
    q.ents[e].load.weight
  }

  function Weights(m: map<SchedEntity, Ent>): map<SchedEntity, nat> { map e | e in m :: m[e].load.weight }

  function SumWeights(m: map<SchedEntity, Ent>, s: seq<SchedEntity>): nat
    requires forall e :: e in s ==> e in m
  {
    Sums(Weights(m), s)
  }

  predicate Running(q: Rq)
    requires Closed(q)
  {
    q.curr != null && q.ents[q.curr].onRq
  }

  /** The entities with `on_rq` set: those on the tree, and the running one. */
  function Count(q: Rq): nat
    requires Closed(q)
  {
    |q.line| + if Running(q) then 1 else 0
  }

  function Total(q: Rq): nat
    requires Closed(q)
  {
    SumWeights(q.ents, q.line) + if Running(q) then q.ents[q.curr].load.weight else 0
  }

  /** The tree holds exactly the `on_rq` entities other than `curr`, each once. */
  ghost predicate Placed(q: Rq) {
    && Closed(q) && NoDup(q.line)
    && (q.curr != null ==> q.curr !in q.line)
    && (forall e :: e in q.line ==> q.ents[e].onRq)
    && (forall e :: e in q.ents && q.ents[e].onRq ==> e in q.line || e == q.curr)
  }

  /** The counters agree with what is on the queue. */
  ghost predicate Counted(q: Rq)
    requires Closed(q)
  {
    q.nr == Count(q) % TWO_32 && q.load.weight == Total(q) % TWO_64 && Cached(q.load)
  }

  ghost predicate Accounted(q: Rq) { Placed(q) && Counted(q) }

  /** Nothing that accounting looks at has changed, except perhaps the cached reciprocal. */
  ghost predicate SameAccounts(q: Rq, q': Rq) {
    && q'.ents.Keys == q.ents.Keys && q'.line == q.line && q'.curr == q.curr && q'.nr == q.nr
    && q'.load.weight == q.load.weight && (Cached(q.load) ==> Cached(q'.load))
    && forall e :: e in q.ents ==> q'.ents[e].onRq == q.ents[e].onRq && q'.ents[e].load.weight == q.ents[e].load.weight
  }

  lemma {:induction false} SumSame(m: map<SchedEntity, Ent>, m': map<SchedEntity, Ent>, s: seq<SchedEntity>)
    requires forall e :: e in s ==> e in m && e in m' && m'[e].load.weight == m[e].load.weight
    ensures SumWeights(m', s) == SumWeights(m, s)
  {
    SumsSame(Weights(m), Weights(m'), s);
  }

  lemma {:induction false} SameAccounted(q: Rq, q': Rq)
    requires Accounted(q) && SameAccounts(q, q')
    ensures Accounted(q')
  {
    SumSame(q.ents, q'.ents, q.line);
  }

  lemma {:induction false} ChargeSame(q: Rq)
    requires Closed(q)
    ensures Closed(UpdateCurr(q)) && SameAccounts(q, UpdateCurr(q))
  {
  }

  /** Linking an entity at position `i`. */
  lemma {:induction false} LinkAccounts(q: Rq, e: SchedEntity, i: nat)
    requires Closed(q) && NoDup(q.line) && e in q.ents && e !in q.line && i <= |q.line|
    ensures var l := Link(q, e, i).line;
            && NoDup(l) && |l| == |q.line| + 1 && (forall x :: x in l ==> x in q.line || x == e)
            && (forall x :: x in q.line || x == e ==> x in l)
            && SumWeights(q.ents, l) == SumWeights(q.ents, q.line) + Weight(q, e)
  {
    LinkSums(Weights(q.ents), q.line, e, i);
  }

  /** Taking an entity off the tree. */
  lemma {:induction false} UnlinkAccounts(q: Rq, e: SchedEntity)
    requires Closed(q) && NoDup(q.line) && e in q.line
    ensures NoDup(Without(q.line, e)) && |Without(q.line, e)| == |q.line| - 1
    ensures forall x :: x in Without(q.line, e) ==> x in q.line && x != e
    ensures forall x :: x in q.line && x != e ==> x in Without(q.line, e)
    ensures SumWeights(q.ents, Without(q.line, e)) == SumWeights(q.ents, q.line) - Weight(q, e)
  {
    UnlinkSums(Weights(q.ents), q.line, e);
  }

  lemma {:induction false} AddMod(a: nat, w: u64)
    ensures Add64(a % TWO_64, w) == (a + w) % TWO_64
    ensures a >= w ==> Sub64(a % TWO_64, w) == (a - w) % TWO_64
  {
    var q, r := a / TWO_64, a % TWO_64;
    if r + w < TWO_64 { ModIs(a + w, q, r + w); } else { ModIs(a + w, q + 1, r + w - TWO_64); }
    if a >= w {
      if r >= w { ModIs(a - w, q, r - w); } else { ModIs(a - w, q - 1, r - w + TWO_64); }
    }
  }

  lemma {:induction false} ModIs(x: nat, q: int, r: nat)
    requires x == q * TWO_64 + r && r < TWO_64
    ensures x % TWO_64 == r
  {
  }

  lemma {:induction false} CountMod(n: nat)
    ensures Add32(n % TWO_32, 1) == (n + 1) % TWO_32
    ensures n > 0 ==> Dec32(n % TWO_32) == (n - 1) % TWO_32
  {
  }

  /** `enqueue_entity`, of an entity that is not on the queue */
  lemma {:induction false} EnqueueAccounts(q: Rq, e: SchedEntity, i: nat)
    requires Accounted(q) && e in q.ents && !q.ents[e].onRq && i <= |q.line|
    ensures Accounted(EnqueueEntity(q, e, i))
    ensures var q' := EnqueueEntity(q, e, i);
            q'.ents.Keys == q.ents.Keys && q'.curr == q.curr
            && forall x :: x in q'.line <==> x in q.line || (x == e && e != q.curr)
  {
    var q' := EnqueueEntity(q, e, i);
    if e != q.curr { LinkAccounts(q, e, i); }
    EnqueuePlaced(q, q', e);
    SumSame(q.ents, q'.ents, q'.line);
    EnqueueCounted(q, q', e);
  }

  /** One entity more is on the queue. */
  lemma {:induction false} EnqueueCounted(q: Rq, q': Rq, e: SchedEntity)
    requires Accounted(q) && Placed(q') && e in q.ents && !q.ents[e].onRq && q'.curr == q.curr
             && q'.ents == q.ents[e := q.ents[e].(onRq := true)]
    requires |q'.line| == |q.line| + (if e != q.curr then 1 else 0)
    requires SumWeights(q'.ents, q'.line) == SumWeights(q.ents, q.line) + (if e != q.curr then Weight(q, e) else 0)
    requires q'.nr == Add32(q.nr, 1) && q'.load == LoadAdd(q.load, Weight(q, e))
    ensures Counted(q')
  {
    assert Total(q') == Total(q) + Weight(q, e) && Count(q') == Count(q) + 1;
    AddMod(Total(q), Weight(q, e));
    CountMod(Count(q));
  }

  lemma {:induction false} EnqueuePlaced(q: Rq, q': Rq, e: SchedEntity)
    requires Placed(q) && e in q.ents && NoDup(q'.line) && q'.curr == q.curr
             && q'.ents == q.ents[e := q.ents[e].(onRq := true)]
    requires forall x :: x in q'.line ==> x in q.line || (x == e && e != q.curr)
    requires forall x :: x in q.line || (x == e && e != q.curr) ==> x in q'.line
    ensures Placed(q')
  {
  }

  /** `dequeue_entity`, of the running entity */
  lemma {:induction false} DequeueAccounts(q: Rq)
    requires Accounted(q) && Running(q)
    ensures var q' := DequeueEntity(q, q.curr);
            Accounted(q') && q'.line == q.line && q'.curr == q.curr && q'.ents.Keys == q.ents.Keys
                && !q'.ents[q.curr].onRq
  {
    var e, q1, q' := q.curr, UpdateCurr(q), DequeueEntity(q, q.curr);
    ChargeSame(q);
    SameAccounted(q, q1);
    AddMod(Total(q1), Weight(q1, e));
    CountMod(Count(q1));
    SumSame(q1.ents, q'.ents, q'.line);
  }

  /** Linking the running entity and forgetting it leaves the same entities on the queue. */
  lemma {:induction false} RelinkAccounts(q: Rq, i: nat)
    requires Accounted(q) && Running(q) && i <= |q.line|
    ensures var q' := Link(q, q.curr, i).(curr := null);
            Accounted(q') && |q'.line| == |q.line| + 1 && forall x :: x in q'.line <==> x in q.line || x == q.curr
  {
    LinkAccounts(q, q.curr, i);
    Relinked(q, Link(q, q.curr, i).line);
  }

  /** The running entity has joined the line. */
  lemma {:induction false} Relinked(q: Rq, l: seq<SchedEntity>)
    requires Accounted(q) && Running(q) && NoDup(l) && |l| == |q.line| + 1
    requires (forall x :: x in l ==> x in q.line || x == q.curr) && (forall x :: x in q.line || x == q.curr ==> x in l)
    requires SumWeights(q.ents, l) == SumWeights(q.ents, q.line) + Weight(q, q.curr)
    ensures Accounted(q.(line := l, curr := null))
  {
    var q' := q.(line := l, curr := null);
    assert Placed(q');
    assert Count(q') == Count(q) && Total(q') == Total(q);
  }

  /** `put_prev_entity` */
  lemma {:induction false} PutPrevAccounts(q: Rq, i: nat)
    requires Accounted(q) && q.curr != null && i <= |q.line|
    ensures var q' := PutPrevEntity(q, q.curr, i);
            && Accounted(q') && q'.curr == null && q'.ents.Keys == q.ents.Keys
            && (forall x :: x in q'.line <==> x in q.line || (x == q.curr && Running(q)))
            && |q'.line| == Count(q)
  {
    if Running(q) {
      ChargeSame(q);
      SameAccounted(q, UpdateCurr(q));
      RelinkAccounts(UpdateCurr(q), i);
    }
  }

  /** `set_next_entity`, of an entity on the tree while none is running */
  lemma {:induction false} SetNextAccounts(q: Rq, e: SchedEntity)
    requires Accounted(q) && q.curr == null && e in q.line
    ensures var q' := SetNextEntity(q, e);
            && Accounted(q') && Running(q') && q'.curr == e && q'.ents.Keys == q.ents.Keys
            && (forall x :: x in q'.line <==> x in q.line && x != e)
            && |q'.line| == |q.line| - 1
  {
    var q' := SetNextEntity(q, e);
    var l := Without(q.line, e);
    UnlinkAccounts(q, e);
    SumSame(q.ents, q'.ents, l);
    assert Placed(q');
    assert Total(q') == Total(q) && Count(q') == Count(q);
  }

  /** `pick_next_task_fair`: the queue stays accounted, and it fails only if nothing waits on the tree (or if the
      32-bit count of runnable entities reads 0). */
  lemma {:induction false} PickAccounts(q: Rq, i: nat)
    requires Accounted(q) && q.curr != null && i <= |q.line|
    ensures PickNextTask(q, q.curr, i).None? <==> q.line == [] || Count(q) % TWO_32 == 0
    ensures PickNextTask(q, q.curr, i).Some? ==>
              var (q', next) := PickNextTask(q, q.curr, i).value;
              && Accounted(q') && Running(q') && q'.curr == next && q'.ents.Keys == q.ents.Keys
              && next == q.line[0]
              && (forall x :: x in q'.line <==> (x in q.line && x != next) || (x == q.curr && Running(q)))
  {
    if q.line != [] { PickedAccounts(q, i); }
  }

  lemma {:induction false} PickedAccounts(q: Rq, i: nat)
    requires Accounted(q) && q.curr != null && i <= |q.line| && q.line != []
    ensures q.line[0] in PutPrevEntity(q, q.curr, i).ents
    ensures var (q', next) := (SetNextEntity(PutPrevEntity(q, q.curr, i), q.line[0]), q.line[0]);
            && Accounted(q') && Running(q') && q'.curr == next && q'.ents.Keys == q.ents.Keys
            && (forall x :: x in q'.line <==> (x in q.line && x != next) || (x == q.curr && Running(q)))
  {
    PutPrevAccounts(q, i);
    assert q.line[0] in q.line;
    SetNextAccounts(PutPrevEntity(q, q.curr, i), q.line[0]);
  }
}
