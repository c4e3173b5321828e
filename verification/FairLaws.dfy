/** What the functions of the run queue amount to, in terms of loads, times and keys alone. */
module FairLaws {
  import opened Arith
  import opened Entities
  import opened Fixed
  import opened Wrap
  import opened FairModel
  import opened SchedModel
  import opened SchedInv
  import opened SchedOrder

  // ----- charges -----

  /** The reciprocal of a load: the one that is stored, or else 2^32 - 1 divided by the weight. */
  function Inverse(lw: LoadWeight): nat {
    if lw.inv != 0 then lw.inv
    else if lw.weight == 0 then WMULT_CONST
    else if lw.weight >= WMULT_CONST then 1
    else WMULT_CONST / lw.weight
  }

  /** `r` is delta * factor / 2^32, of the factor only the 32 leading binary digits being kept, and of the product,
      before those that were cut are put back as zeros, only the 64 last ones. */
  ghost predicate Scaled(delta: nat, factor: nat, r: nat) {
    r * TWO_32 <= delta * Leading(factor) % (TWO_64 * Pow2(Halvings(factor))) < (r + 1) * TWO_32
  }

  /** There is one such number. */
  lemma {:induction false} ScaledOnce(delta: nat, factor: nat, r: nat, r': nat)
    requires Scaled(delta, factor, r) && Scaled(delta, factor, r')
    ensures r == r'
  {
    Cancel(r, r' + 1, TWO_32);
    Cancel(r', r + 1, TWO_32);
  }

  /** Of less than 2^32 units, and with a factor of less than 2^64, nothing of the product is lost. */
  lemma {:induction false} ScaledShort(delta: nat, factor: nat, r: nat)
    requires delta < TWO_32 && factor < TWO_64
    ensures Scaled(delta, factor, r) <==> r * TWO_32 <= delta * Leading(factor) < (r + 1) * TWO_32
  {
    HalvingsWithin32(factor);
    ShortProduct(delta, Halved(factor), Pow2(Halvings(factor)));
  }

  lemma {:induction false} ShortProduct(a: nat, b: nat, p: nat)
    requires a < TWO_32 && b < TWO_32 && p > 0
    ensures a * (b * p) % (TWO_64 * p) == a * (b * p)
  {
    MulUp(a, b, TWO_32 - 1, TWO_32 - 1);
    Assoc(a, b, p);
    ModScale(a * b, TWO_64, p);
  }

  lemma {:induction false} InverseIs(lw: LoadWeight)
    ensures UpdateInvWeight(lw).inv == Inverse(lw) > 0 && UpdateInvWeight(lw).weight == lw.weight
  {
    if lw.inv == 0 && 0 < lw.weight < WMULT_CONST { DivAtLeast(1, lw.weight, WMULT_CONST); }
  }

  lemma {:induction false} CalcScaled(delta: u64, weight: u64, lw: LoadWeight)
    ensures Scaled(delta, weight % TWO_32 * Inverse(lw), CalcDelta(delta, weight, lw))
  {
    InverseIs(lw);
    CalcDeltaWraps(delta, weight, lw);
  }

  /** `e'` is the entity `e` after `delta` more time on the processor, which ends at `now`: it has run as much longer,
      and its virtual time has advanced by that time, scaled by 1024 over its weight. */
  ghost predicate Charged(e: Ent, e': Ent, delta: nat, now: u64) {
    && Sub64(e'.sumExec, e.sumExec) == delta && e'.execStart == now
    && e'.load.weight == e.load.weight
    && (if e.load.weight == 1024 then Sub64(e'.vruntime, e.vruntime) == delta && e'.load == e.load
        else Scaled(delta, 1024 * Inverse(e.load), Sub64(e'.vruntime, e.vruntime)) && e'.load.inv == Inverse(e.load))
    && e'.onRq == e.onRq && e'.prevSum == e.prevSum && e'.needResched == e.needResched
    && e'.preemptCount == e.preemptCount
  }

  /** How long the running entity has run since it was charged last. */
  function Elapsed(q: Rq): u64
    requires Closed(q) && q.curr != null
  {
    Sub64(q.clock, q.ents[q.curr].execStart)
  }

  /** From `q` to `q'` the running entity has been charged for the time since it was charged last, and no other one has;
      if no time has gone by, or the clock went backwards, nothing has happened to them. */
  ghost predicate TimeCharged(q: Rq, q': Rq) {
    && Closed(q) && q'.ents.Keys == q.ents.Keys
    && (forall x :: x in q.ents && x != q.curr ==> q'.ents[x] == q.ents[x])
    && (q.curr != null ==>
          if 0 < Elapsed(q) < HALF then Charged(q.ents[q.curr], q'.ents[q.curr], Elapsed(q), q.clock)
          else q'.ents[q.curr] == q.ents[q.curr])
  }

  lemma {:induction false} AddThenSub(a: u64, d: u64)
    ensures Sub64(Add64(a, d), a) == d
  {
  }

  /** `update_curr` */
  lemma {:induction false} UpdateCurrCharges(q: Rq)
    requires Closed(q)
    ensures TimeCharged(q, UpdateCurr(q))
    ensures UpdateCurr(q).(ents := q.ents, minV := q.minV) == q
  {
    if q.curr != null && 0 < Elapsed(q) < HALF {
      var e, delta := q.ents[q.curr], Elapsed(q);
      AddThenSub(e.sumExec, delta);
      AddThenSub(e.vruntime, DeltaFair(delta, e.load));
      InverseIs(e.load);
      CalcScaled(delta, NICE_0_LOAD, e.load);
    }
  }

  /** `put_prev_entity`, of an entity that is still on the queue */
  lemma {:induction false} PutPrevCharges(q: Rq, i: nat)
    requires Closed(q) && Running(q) && i <= |q.line|
    ensures TimeCharged(q, PutPrevEntity(q, q.curr, i))
  {
    UpdateCurrCharges(q);
  }

  /** `dequeue_entity`, of the running entity */
  lemma {:induction false} DequeueCharges(q: Rq)
    requires Closed(q) && Running(q)
    ensures var q' := DequeueEntity(q, q.curr);
            && q.curr in q'.ents && !q'.ents[q.curr].onRq
            && TimeCharged(q, q'.(ents := q'.ents[q.curr := q'.ents[q.curr].(onRq := true)]))
  {
    UpdateCurrCharges(q);
    var q1, q' := UpdateCurr(q), DequeueEntity(q, q.curr);
    assert q'.ents == q1.ents[q.curr := q1.ents[q.curr].(onRq := false)];
  }

  /** `task_fork_fair` charges the parent up to the reading `now`, and no other task but the child changes. */
  lemma {:induction false} ForkCharges(q: Rq, child: SchedEntity, now: u64)
    requires Closed(q) && child in q.ents && child != q.curr
    ensures var q' := ForkPlace(q, child, now);
            && child in q'.ents
            && TimeCharged(q.(clock := now), q'.(ents := q'.ents[child := q.ents[child]]))
  {
    UpdateCurrCharges(q.(clock := now));
  }

  // ----- slices -----

  /** The period is the latency, but it gives each runnable entity the minimum granularity. */
  lemma {:induction false} PeriodIs(nr: u32)
    ensures SchedPeriod(nr) == Larger(SCHED_LATENCY, MIN_GRANULARITY * nr)
  {
  }

  /** The share that the weight `w` has of a load of `total`, of the period for `n` entities. */
  ghost predicate ShareOf(n: nat, w: nat, total: nat, r: nat) {
    Scaled(Larger(SCHED_LATENCY, MIN_GRANULARITY * n), w % TWO_32 * Inverse(LoadWeight(total % TWO_64, 0)), r)
  }

  /** The slice of an entity on the queue is its share among the runnable ones; that of any other is the share it would
      have with them. */
  lemma {:induction false} SliceIs(s: Sys, e: SchedEntity)
    requires Inv(s) && e in s.q.ents
    ensures var (n, w, total) := (Count(s.q), Weight(s.q, e), Total(s.q));
            if s.q.ents[e].onRq then ShareOf(n, w, total, Slice(s.q, e))
            else ShareOf(n + 1, w, total + w, Slice(s.q, e))
  {
    var q, w := s.q, Weight(s.q, e);
    FewRunnable(s);
    PeriodIs(q.nr);
    PeriodIs(Add32(q.nr, 1));
    AddMod(Total(q), w);
    if q.ents[e].onRq {
      CachedInverse(q.load);
      CalcScaled(SchedPeriod(q.nr), w, q.load);
    } else {
      CalcScaled(SchedPeriod(Add32(q.nr, 1)), w, LoadAdd(q.load, w));
    }
  }

  /** Of the queue it leaves only a reciprocal, in the load, and only if the entity is on the queue. */
  lemma {:induction false} SliceLeaves(q: Rq, e: SchedEntity)
    requires e in q.ents
    ensures var inv := if q.ents[e].onRq then Inverse(q.load) else q.load.inv;
            AfterSlice(q, e) == q.(load := LoadWeight(q.load.weight, inv))
  {
    InverseIs(q.load);
  }

  lemma {:induction false} CachedInverse(lw: LoadWeight)
    requires Cached(lw)
    ensures Inverse(lw) == Inverse(LoadWeight(lw.weight, 0))
  {
    InverseIs(lw);
    InverseIs(lw.(inv := 0));
  }

  // ----- the floor -----

  /** min_vruntime is the key of an entity on the queue. */
  ghost predicate Attained(q: Rq, b: u64)
    requires Closed(q)
  {
    exists e :: e in q.ents && (e in q.line || (Running(q) && e == q.curr)) && Key(q, b, e) == Off(b, q.minV)
  }

  lemma {:induction false} AttainedBy(q: Rq, b: u64, e: SchedEntity)
    requires Closed(q) && e in q.ents && (e in q.line || (Running(q) && e == q.curr)) && Key(q, b, e) == Off(b, q.minV)
    ensures Attained(q, b)
  {
  }

  /** `update_min_vruntime`: in an ordered timeline it is a floor that is attained, the least key of all on the
      queue. */
  lemma {:induction false} MinIsLeast(q: Rq, b: u64)
    requires Neat(q, b)
    ensures var q' := UpdateMinVruntime(q);
            && Neat(q', b) && q' == q.(minV := q'.minV)
            && if Running(q) || q.line != [] then Attained(q', b) else q'.minV == q.minV
  {
    MinStaysFloor(q, b);
    var q' := UpdateMinVruntime(q);
    if Running(q) {
      WindowOrder(b, q.minV, q.ents[q.curr].vruntime);
      if q.line != [] {
        assert q.line[0] in q.line;
        WindowOrder(b, q.ents[q.curr].vruntime, q.ents[q.line[0]].vruntime);
        WindowOrder(b, q.minV, MinV(q.ents[q.curr].vruntime, q.ents[q.line[0]].vruntime));
        if Key(q, b, q.line[0]) < Key(q, b, q.curr) {
          AttainedBy(q', b, q.line[0]);
        } else {
          AttainedBy(q', b, q.curr);
        }
      } else {
        AttainedBy(q', b, q.curr);
      }
    } else if q.line != [] {
      assert q.line[0] in q.line;
      WindowOrder(b, q.minV, q.ents[q.line[0]].vruntime);
      AttainedBy(q', b, q.line[0]);
    }
  }
}
