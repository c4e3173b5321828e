/** Runs whose keys stay within a window shorter than 2^63: the timeline stays in order and min_vruntime only rises. */
module SchedRuns {
  import opened Arith
  import opened Entities
  import opened Seqs
  import opened Fixed
  import opened Wrap
  import opened FairModel
  import opened SchedModel
  import opened SchedInv
  import opened SchedOrder
  import opened Wrappers

  // ----- one switch -----

  /** The rest of the queue and its keys are as before. */
  ghost predicate SameWaiting(q: Rq, q': Rq)
    requires Closed(q)
  {
    q'.ents.Keys == q.ents.Keys && forall x :: x in q.line ==> q'.ents[x].vruntime == q.ents[x].vruntime
  }

  /** The running task goes on, and its key does not fall. */
  ghost predicate Stays(s: Sys, s': Sys, b: u64)
    requires Closed(s.q) && s.current in s.q.ents
  {
    && s'.current == s.current && s'.q.line == s.q.line && SameWaiting(s.q, s'.q)
    && Key(s.q, b, s.current) <= Key(s'.q, b, s.current)
  }

  /** The leftmost entity takes over; the task that ran is linked again, at a key that is no lower, or (unless `back`)
      is gone. */
  ghost predicate Hands(q: Rq, prev: SchedEntity, q': Rq, next: SchedEntity, back: bool, b: u64)
    requires Closed(q) && prev in q.ents
  {
    && q.line != [] && next == q.line[0] && prev !in q.line && SameWaiting(q, q')
    && (if back then Key(q, b, prev) <= Key(q', b, prev)
    && exists i: nat :: i <= |q.line| && q'.line == Without(Link(q, prev, i).line, next)
        else q'.line == Without(q.line, next))
  }

  /** The leftmost entity has the least key. */
  lemma {:induction false} LeftmostIsLeast(q: Rq, b: u64)
    requires Neat(q, b) && q.line != []
    ensures forall x :: x in q.line ==> Key(q, b, q.line[0]) <= Key(q, b, x)
  {
  }

  lemma {:induction false} PutPrevView(q: Rq, b: u64, i: nat)
    requires Neat(q, b) && Room(q, b) && q.curr != null && q.curr !in q.line && i <= |q.line|
    ensures var q' := PutPrevEntity(q, q.curr, i);
            && Closed(q') && SameWaiting(q, q') && (forall x :: x in q.line ==> x in q'.line)
            && q'.line == (if Running(q) then Link(q, q.curr, i).line else q.line)
            && (Running(q) ==> Key(q, b, q.curr) <= Key(q', b, q.curr))
  {
    if Running(q) {
      ChargeStaysNeat(q, b);
      LinkedAt(q, q.curr, i);
      assert q.line == q.line[..i] + q.line[i..];
    }
  }

  lemma {:induction false} HandsBy(q: Rq, q1: Rq, q': Rq, prev: SchedEntity, next: SchedEntity, i: nat, back: bool,
                                   b: u64)
    requires Closed(q) && Closed(q1) && prev in q.ents && prev !in q.line && q.line != [] && next == q.line[0]
             && i <= |q.line|
    requires SameWaiting(q, q1) && if back then q1.line == Link(q, prev, i).line
             && Key(q, b, prev) <= Key(q1, b, prev) else q1.line == q.line
    requires q'.ents.Keys == q1.ents.Keys && q'.line == Without(q1.line, next)
    requires forall x :: x in q1.ents ==> q'.ents[x].vruntime == q1.ents[x].vruntime
    ensures Hands(q, prev, q', next, back, b)
  {
  }

  lemma {:induction false} PickNeat(q: Rq, i: nat, b: u64) returns (q1: Rq)
    requires Accounted(q) && q.curr != null && q.line != [] && Neat(q, b) && Room(q, b) && i <= |q.line|
    requires Running(q) ==> Gap(UpdateCurr(q), UpdateCurr(q).ents[q.curr].vruntime, i)
    ensures q1 == PutPrevEntity(q, q.curr, i) && q.line[0] in q1.ents
    ensures var q' := SetNextEntity(q1, q.line[0]);
            Neat(q', b) && Off(b, q.minV) <= Off(b, q'.minV) && Hands(q, q.curr, q', q.line[0], Running(q), b)
  {
    q1 := PutPrevEntity(q, q.curr, i);
    var next := q.line[0];
    PutPrevNeat(q, b, i);
    PutPrevAccounts(q, i);
    PutPrevView(q, b, i);
    assert next in q.line;
    SetNextNeat(q1, b, next);
    HandsBy(q, q1, SetNextEntity(q1, next), q.curr, next, i, Running(q), b);
  }

  lemma {:induction false} PreemptSame(q: Rq, e: SchedEntity, n: int, b: u64)
    requires Closed(q) && e in q.ents
    ensures var q' := Preempt(q, e, n);
            Closed(q') && SameKeys(q, q') && (Accounted(q) ==> Accounted(q')) && Running(q') == Running(q)
                && Gain(q') == Gain(q) && (Room(q, b) ==> Room(q', b))
  {
    if Accounted(q) { SameAccounted(q, Preempt(q, e, n)); }
  }

  lemma {:induction false} PutPrevClosed(q: Rq, prev: SchedEntity, i: nat)
    requires Closed(q) && prev in q.ents && i <= |q.line|
    ensures Closed(PutPrevEntity(q, prev, i)) && PutPrevEntity(q, prev, i).ents.Keys == q.ents.Keys
  {
  }

  lemma {:induction false} PickIs(q: Rq, prev: SchedEntity, i: nat) returns (q2: Rq)
    requires Closed(q) && prev in q.ents && i <= |q.line| && PickNextTask(q, prev, i).Some?
    ensures q.line != [] && q.line[0] in q.ents && q2.ents.Keys == q.ents.Keys
    ensures q.line[0] in PutPrevEntity(q, prev, i).ents && q2 == SetNextEntity(PutPrevEntity(q, prev, i), q.line[0])
    ensures PickNextTask(q, prev, i) == Some((q2, q.line[0]))
  {
    PutPrevClosed(q, prev, i);
    assert q.line[0] in q.line;
    q2 := SetNextEntity(PutPrevEntity(q, prev, i), q.line[0]);
  }

  lemma {:induction false} ScheduleView(s: Sys, s': Sys, i: nat)
    requires WellFormed(s) && i <= |s.q.line| && Schedule(s, i) == Some(s')
    ensures var q := Preempt(s.q, s.current, 1);
            && q.line != [] && s'.current == q.line[0] && Closed(q) && Closed(PutPrevEntity(q, s.current, i))
            && q.line[0] in PutPrevEntity(q, s.current, i).ents
            && SameKeys(SetNextEntity(PutPrevEntity(q, s.current, i), q.line[0]), s'.q)
  {
    var q := Preempt(s.q, s.current, 1);
    PutPrevClosed(q, s.current, i);
    var q2 := PickIs(q, s.current, i);
    TailSame(q2, s.current, q.line[0]);
  }

  /** What `_schedule` does after picking does not touch the order. */
  lemma {:induction false} TailSame(q: Rq, prev: SchedEntity, next: SchedEntity)
    requires prev in q.ents && next in q.ents
    ensures SameKeys(q, Preempt(ClearResched(q, prev), next, -1))
  {
  }

  lemma {:induction false} ScheduleNeat(s: Sys, s': Sys, i: nat, b: u64)
    requires WellFormed(s) && Accounted(s.q) && s.q.curr == s.current
    requires Neat(s.q, b) && Room(s.q, b) && MayLand(s, i) && Schedule(s, i) == Some(s')
    ensures Neat(s'.q, b) && Off(b, s.q.minV) <= Off(b, s'.q.minV)
            && Hands(s.q, s.current, s'.q, s'.current, Running(s.q), b)
  {
    var q := Preempt(s.q, s.current, 1);
    PreemptSame(s.q, s.current, 1, b);
    SameKeysNeat(s.q, q, b);
    ScheduleView(s, s', i);
    var q1 := PickNeat(q, i, b);
    var q2 := SetNextEntity(q1, q.line[0]);
    SameKeysNeat(q2, s'.q, b);
    HandsSame(s.q, q, q2, s'.q, s.current, s'.current, Running(q), b);
  }

  lemma {:induction false} HandsSame(q: Rq, q0: Rq, q1: Rq, q': Rq, prev: SchedEntity, next: SchedEntity, back: bool,
                                     b: u64)
    requires Neat(q, b) && SameKeys(q, q0) && prev in q.ents && Hands(q0, prev, q1, next, back, b)
    requires Neat(q1, b) && SameKeys(q1, q')
    ensures Neat(q', b) && Hands(q, prev, q', next, back, b)
  {
    if i: nat :| i <= |q0.line| && q1.line == Without(Link(q0, prev, i).line, next) {
      assert q'.line == Without(Link(q, prev, i).line, next);
    }
  }

  // ----- the events -----

  /** A charge before the switch does not matter to who is picked. */
  lemma {:induction false} StaysHands(s: Sys, s1: Sys, s': Sys, b: u64)
    requires Closed(s.q) && Closed(s1.q) && s.current in s.q.ents && Stays(s, s1, b)
    requires Hands(s1.q, s1.current, s'.q, s'.current, true, b)
    ensures Hands(s.q, s.current, s'.q, s'.current, true, b)
  {
    if i: nat :| i <= |s1.q.line| && s'.q.line == Without(Link(s1.q, s1.current, i).line, s'.current) {
      assert s'.q.line == Without(Link(s.q, s.current, i).line, s'.current);
    }
  }

  lemma {:induction false} TickNeat(s: Sys, now: u64, b: u64)
    requires Inv(s) && Neat(s.q, b) && Room(s.q.(clock := now), b)
    ensures TickCharge(s, now).Some?
    ensures var s1 := TickCharge(s, now).value;
            && Neat(s1.q, b) && Room(s1.q, b) && Off(b, s.q.minV) <= Off(b, s1.q.minV) && Stays(s, s1, b)
  {
    TickChargeInv(s, now);
    var q := s.q.(clock := now);
    SameKeysNeat(s.q, q, b);
    ChargeStaysNeat(q, b);
    ChargedOnce(q);
    TickChecks(s, now);
    SameKeysNeat(UpdateCurr(q), TickCharge(s, now).value.q, b);
  }

  /** Behind the charge, a tick only looks. */
  lemma {:induction false} TickChecks(s: Sys, now: u64)
    requires WellFormed(s) && Closed(s.q) && TickCharge(s, now).Some?
    ensures var (q1, q2) := (UpdateCurr(s.q.(clock := now)), TickCharge(s, now).value.q);
            Closed(q1) && Closed(q2) && SameKeys(q1, q2) && Gain(q2) == Gain(q1)
  {
    CheckSame(UpdateCurr(s.q.(clock := now)), s.current);
  }

  lemma {:induction false} CheckSame(q: Rq, e: SchedEntity)
    requires Closed(q) && e in q.ents
    ensures CheckPreemptTick(q, e).Some? ==>
              var q' := CheckPreemptTick(q, e).value; Closed(q') && SameKeys(q, q') && Gain(q') == Gain(q)
  {
  }

  lemma {:induction false} BumpNeat(s: Sys, b: u64)
    requires Inv(s) && Neat(s.q, b) && Key(s.q, b, s.current) + s.q.minV < HALF
    ensures var s1 := Bump(s);
            Neat(s1.q, b) && s1.q.minV == s.q.minV && Stays(s, s1, b)
                && Key(s1.q, b, s.current) == Key(s.q, b, s.current) + s.q.minV
  {
    WindowAdd(b, s.q.ents[s.current].vruntime, s.q.minV);
  }

  lemma {:induction false} DequeueNeat(q: Rq, b: u64)
    requires Accounted(q) && Running(q) && Neat(q, b) && Room(q, b)
    ensures var q' := DequeueEntity(q, q.curr);
            Neat(q', b) && Off(b, q.minV) <= Off(b, q'.minV) && SameWaiting(q, q') && q'.line == q.line
  {
    var q1 := UpdateCurr(q);
    ChargeStaysNeat(q, b);
    var q2 := q1.(ents := q1.ents[q.curr := q1.ents[q.curr].(onRq := false)]);
    var q3 := q2.(load := LoadSub(q2.load, q2.ents[q.curr].load.weight), nr := Dec32(q2.nr));
    MinStaysFloor(q3, b);
  }

  /** Once it is off the queue, the key of the running task no longer matters. */
  lemma {:induction false} GoneNeat(s: Sys, q: Rq, b: u64)
    requires Neat(q, b) && s.current in q.ents && q.curr == s.current && !Running(q) && s.current !in q.line
    ensures var s1 := Bump(s.(q := Preempt(q, s.current, -1)));
            Closed(s1.q) && Neat(s1.q, b) && s1.q.minV == q.minV && SameWaiting(q, s1.q) && s1.q.line == q.line
  {
  }

  lemma {:induction false} ExitNeat(s: Sys, b: u64)
    requires Inv(s) && Neat(s.q, b) && Room(s.q, b)
    ensures var s1 := Bump(ExitDequeue(s));
            && Closed(s1.q) && Neat(s1.q, b) && Off(b, s.q.minV) <= Off(b, s1.q.minV) && SameWaiting(s.q, s1.q)
            && s1.current == s.current && s1.q.line == s.q.line
  {
    ExitAccounts(s);
    PreemptSame(s.q, s.current, 1, b);
    var q := Preempt(s.q, s.current, 1);
    SameKeysNeat(s.q, q, b);
    DequeueNeat(q, b);
    DequeueAccounts(q);
    GoneNeat(s, DequeueEntity(q, s.current), b);
  }

  // ----- fork -----

  /** There is room for the charge to the parent, and for the slice that is added to min_vruntime for the child. */
  ghost predicate ForkRoom(q: Rq, child: SchedEntity, b: u64)
    requires Closed(q) && child in q.ents
  {
    Room(q, b) && Off(b, UpdateCurr(q).minV) + DeltaFair(Slice(q, child), q.ents[child].load) < HALF
  }

  lemma {:induction false} PlaceNeat(q: Rq, e: SchedEntity, b: u64)
    requires Neat(q, b) && e in q.ents && e !in q.line && e != q.curr && !q.ents[e].onRq && In(b, q.ents[e].vruntime)
    requires Off(b, q.minV) + DeltaFair(Slice(q, e), q.ents[e].load) < HALF
    ensures var q' := PlaceEntity(q, e);
            && Neat(q', b) && q'.minV == q.minV && q'.curr == q.curr && SameWaiting(q, q') && q'.line == q.line
            && In(b, q'.ents[e].vruntime) && Off(b, q'.minV) <= Key(q', b, e)
            && Key(q', b, e) == Larger(Key(q, b, e), Off(b, q.minV) + DeltaFair(Slice(q, e), q.ents[e].load))
            && (q.curr != null ==> q'.ents[q.curr] == q.ents[q.curr])
  {
    var d := DeltaFair(Slice(q, e), q.ents[e].load);
    WindowAdd(b, q.minV, d);
    WindowOrder(b, q.ents[e].vruntime, Add64(q.minV, d));
  }

  lemma {:induction false} ForkPlaceNeat(q: Rq, child: SchedEntity, now: u64, b: u64)
    requires Neat(q, b) && Running(q) && q.curr !in q.line && child in q.ents && child !in q.line && child != q.curr
             && !q.ents[child].onRq
    requires ForkRoom(q.(clock := now), child, b)
    ensures var q' := ForkPlace(q, child, now);
            && Neat(q', b) && Off(b, q.minV) <= Off(b, q'.minV) && q'.curr == q.curr && Running(q')
            && SameWaiting(q, q') && q'.line == q.line
            && In(b, q'.ents[child].vruntime) && Off(b, q'.minV) <= Key(q', b, child)
            && Key(q', b, q.curr) == Key(q, b, q.curr) + Gain(q.(clock := now))
            && Key(q', b, child) == Larger(Key(q', b, q.curr), Off(b, UpdateCurr(q.(clock := now)).minV)
                                                             + DeltaFair(Slice(q, child), q.ents[child].load))
  {
    var q0 := q.(clock := now);
    SameKeysNeat(q, q0, b);
    ChargeStaysNeat(q0, b);
    var q1 := UpdateCurr(q0);
    SliceCharged(q0, child);
    var q2 := q1.(ents := q1.ents[child := q1.ents[child].(vruntime := q1.ents[q.curr].vruntime)]);
    PlaceNeat(q2, child, b);
  }

  lemma {:induction false} SliceCharged(q: Rq, e: SchedEntity)
    requires Closed(q) && e in q.ents && e != q.curr
    ensures var q' := UpdateCurr(q);
            && Closed(q') && Slice(q', e) == Slice(q, e) && q'.ents[e] == q.ents[e] && q'.line == q.line
            && q'.curr == q.curr
            && forall x :: x in q.line && x != q.curr ==> q'.ents[x].vruntime == q.ents[x].vruntime
  {
  }

  lemma {:induction false} EnqueueNeat(q: Rq, e: SchedEntity, i: nat, b: u64)
    requires Neat(q, b) && e in q.ents && e !in q.line && e != q.curr && Gap(q, q.ents[e].vruntime, i)
    requires In(b, q.ents[e].vruntime) && Off(b, q.minV) <= Key(q, b, e)
    ensures var q' := EnqueueEntity(q, e, i);
            Neat(q', b) && q'.minV == q.minV && q'.line == Link(q, e, i).line
            && forall x :: x in q.ents ==> q'.ents[x].vruntime == q.ents[x].vruntime
  {
    LinkStaysOrdered(q, b, e, i);
    LinkedAt(q, e, i);
    LinkedNeat(q, Link(q, e, i), EnqueueEntity(q, e, i), e, b);
  }

  lemma {:induction false} LinkedNeat(q: Rq, l: Rq, q': Rq, e: SchedEntity, b: u64)
    requires Neat(q, b) && e in q.ents && e != q.curr && Off(b, q.minV) <= Key(q, b, e)
    requires l.ents == q.ents && l.curr == q.curr && Closed(l) && Ordered(l, b)
             && forall x :: x in l.line ==> x in q.line || x == e
    requires q'.ents.Keys == q.ents.Keys && q'.line == l.line && q'.curr == q.curr && q'.minV == q.minV
    requires forall x :: x in q.ents ==>
               q'.ents[x].vruntime == q.ents[x].vruntime && (x != e ==> q'.ents[x].onRq == q.ents[x].onRq)
    ensures Neat(q', b)
  {
  }

  /** No queued key lies behind the parent's and up to the child's. */
  ghost predicate SwapHarmless(q: Rq, child: SchedEntity, b: u64)
    requires Closed(q) && Running(q) && child in q.ents
  {
    forall x :: x in q.line ==> !(Key(q, b, q.curr) < Key(q, b, x) <= Key(q, b, child))
  }

  /** The queue after the exchange: `child` is linked at position `i` and has the key of the parent. */
  ghost predicate Exchanged(q: Rq, q': Rq, child: SchedEntity, i: nat, b: u64)
    requires Closed(q) && Running(q) && child in q.ents
  {
    && Closed(q') && q'.ents.Keys == q.ents.Keys && i <= |q.line| && q'.line == Link(q, child, i).line
    && child !in q.line
    && (forall x :: x in q.line ==> q'.ents[x].vruntime == q.ents[x].vruntime)
    && q'.ents[child].vruntime == q.ents[q.curr].vruntime
    && (forall j :: 0 <= j < i ==> Key(q, b, q.line[j]) <= Key(q, b, child))
    && (forall j :: i <= j < |q.line| ==> Key(q, b, child) < Key(q, b, q.line[j]))
  }

  lemma {:induction false} OrderedHarmless(q: Rq, q': Rq, child: SchedEntity, i: nat, b: u64)
    requires Closed(q) && Running(q) && child in q.ents && Exchanged(q, q', child, i, b) && Ordered(q', b)
    ensures SwapHarmless(q, child, b)
  {
    LinkedAt(q, child, i);
    forall x | x in q.line ensures !(Key(q, b, q.curr) < Key(q, b, x) <= Key(q, b, child)) {
      var j :| 0 <= j < |q.line| && q.line[j] == x;
      if j < i { assert Key(q', b, q'.line[j]) <= Key(q', b, q'.line[i]); }
    }
  }

  lemma {:induction false} HarmlessOrdered(q: Rq, q': Rq, child: SchedEntity, i: nat, b: u64)
    requires Neat(q, b) && Running(q) && child in q.ents && Exchanged(q, q', child, i, b) && SwapHarmless(q, child, b)
    requires Key(q, b, q.curr) <= Key(q, b, child)
    ensures Ordered(q', b)
  {
    LinkedAt(q, child, i);
    forall j, k | 0 <= j < k < |q'.line| ensures Key(q', b, q'.line[j]) <= Key(q', b, q'.line[k]) {
      var j', k' := if j < i then j else j - 1, if k < i then k else k - 1;
      assert j != i ==> q'.line[j] == q.line[j'] && q.line[j'] in q.line;
      assert k != i ==> q'.line[k] == q.line[k'] && q.line[k'] in q.line;
    }
  }

  /** The fork exchanges the keys of the running parent and of the child that is already linked. The timeline stays in
      order exactly if no entity waits between the two keys. */
  lemma {:induction false} ExchangeOrderIff(q: Rq, child: SchedEntity, childFirst: bool, i: nat, b: u64)
    requires Neat(q, b) && Running(q) && q.curr !in q.line && child in q.ents && child !in q.line && child != q.curr
    requires In(b, q.ents[child].vruntime) && Off(b, q.minV) <= Key(q, b, child)
             && Key(q, b, q.curr) <= Key(q, b, child)
    requires Gap(q, q.ents[child].vruntime, i)
    ensures var q' := ForkEnqueue(q, child, childFirst, i);
            && Closed(q') && Floor(q', b) && q'.minV == q.minV
            && (Ordered(q', b) <==> (childFirst ==> SwapHarmless(q, child, b)))
  {
    var q1, q' := EnqueueEntity(q, child, i), ForkEnqueue(q, child, childFirst, i);
    EnqueueNeat(q, child, i, b);
    WindowOrder(b, q.ents[q.curr].vruntime, q.ents[child].vruntime);
    LinkedAt(q, child, i);
    GapIsUnique(q, b, q.ents[child].vruntime, i);
    if q' != q1 {
      assert Exchanged(q, q', child, i, b);
      if Ordered(q', b) { OrderedHarmless(q, q', child, i, b); }
      if SwapHarmless(q, child, b) { HarmlessOrdered(q, q', child, i, b); }
    }
  }

  // ----- the same, seen from before the fork -----

  /** The slice of a new task of weight `w`. */
  function NewSlice(q: Rq, w: u64): u64 { CalcDelta(SchedPeriod(Add32(q.nr, 1)), w, LoadAdd(q.load, w)) }

  /** The key of the parent after the charge... */
  function ParentKey(s: Sys, now: u64, b: u64): nat
    requires WellFormed(s)
  {
    Key(s.q, b, s.current) + Gain(s.q.(clock := now))
  }

  /** ...where a weighted slice puts the child, counted from min_vruntime... */
  function SliceKey(s: Sys, now: u64, b: u64): nat
    requires WellFormed(s)
  {
    var load := s.q.ents[s.current].load;
    Off(b, UpdateCurr(s.q.(clock := now)).minV) + DeltaFair(NewSlice(s.q, load.weight), load)
  }

  /** ...and the key of the child. */
  function ChildKey(s: Sys, now: u64, b: u64): nat
    requires WellFormed(s)
  {
    Larger(ParentKey(s, now, b), SliceKey(s, now, b))
  }

  /** No entity waits behind the parent's key and up to the child's. */
  ghost predicate NoneBetween(s: Sys, now: u64, b: u64)
    requires WellFormed(s)
  {
    forall x :: x in s.q.line ==> !(ParentKey(s, now, b) < Key(s.q, b, x) <= ChildKey(s, now, b))
  }

  ghost predicate ForkFits(s: Sys, now: u64, b: u64)
    requires WellFormed(s)
  {
    Room(s.q.(clock := now), b) && SliceKey(s, now, b) < HALF
  }

  lemma {:induction false} NewTaskNeat(s: Sys, child: SchedEntity, b: u64)
    requires Inv(s) && Neat(s.q, b) && child !in s.q.ents
    ensures var q := NewTask(s, child); Neat(q, b) && q.minV == s.q.minV
  {
  }

  /** The new task does not matter to the charge. */
  lemma {:induction false} NewTaskCharge(s: Sys, child: SchedEntity, now: u64, b: u64)
    requires Inv(s) && child !in s.q.ents
    ensures var (q, q') := (s.q.(clock := now), NewTask(s, child).(clock := now));
            && UpdateCurr(q').minV == UpdateCurr(q).minV && Gain(q') == Gain(q)
            && Slice(q', child) == NewSlice(s.q, s.q.ents[s.current].load.weight)
            && q'.ents[child].load == s.q.ents[s.current].load
            && q'.ents[s.current].vruntime == s.q.ents[s.current].vruntime
            && forall x :: x in s.q.line ==> q'.ents[x].vruntime == s.q.ents[x].vruntime
  {
    assert s.q.line != [] ==> s.q.line[0] in s.q.line;
  }

  lemma {:induction false} ForkKeys(s: Sys, child: SchedEntity, now: u64, b: u64)
    requires Inv(s) && Neat(s.q, b) && child !in s.q.ents && ForkFits(s, now, b)
    ensures var q := ForkPlace(NewTask(s, child), child, now);
            && Neat(q, b) && Off(b, s.q.minV) <= Off(b, q.minV) && Running(q) && q.curr == s.current
            && q.line == s.q.line && s.current !in q.line
            && child in q.ents && child !in q.line && child != s.current && In(b, q.ents[child].vruntime)
            && Off(b, q.minV) <= Key(q, b, child)
            && Key(q, b, s.current) == ParentKey(s, now, b) && Key(q, b, child) == ChildKey(s, now, b)
            && forall x :: x in q.line ==> Key(q, b, x) == Key(s.q, b, x)
  {
    NewTaskAccounts(s, child);
    NewTaskNeat(s, child, b);
    NewTaskCharge(s, child, now, b);
    ForkPlaceNeat(NewTask(s, child), child, now, b);
  }

  /** A fork with room in the window keeps the timeline in order if and only if, unless the child does not run first, no
      entity waits between the keys that the parent and the child will have. */
  lemma {:induction false} ForkOrderIff(s: Sys, child: SchedEntity, now: u64, childFirst: bool, s': Sys, b: u64)
    requires Inv(s) && Neat(s.q, b) && Step(s, Fork(child, now, childFirst), s') && ForkFits(s, now, b)
    ensures Closed(s'.q) && Floor(s'.q, b) && Off(b, s.q.minV) <= Off(b, s'.q.minV)
    ensures Ordered(s'.q, b) <==> (childFirst ==> NoneBetween(s, now, b))
  {
    var q := ForkPlace(NewTask(s, child), child, now);
    ForkKeys(s, child, now, b);
    var i: nat :| Gap(q, q.ents[child].vruntime, i) && s' == ForkDone(s, q, child, childFirst, i);
    ExchangeOrderIff(q, child, childFirst, i, b);
    PreemptOrder(ForkEnqueue(q, child, childFirst, i), s.current, -1, b);
  }

  lemma {:induction false} PreemptOrder(q: Rq, e: SchedEntity, n: int, b: u64)
    requires Closed(q) && e in q.ents && Floor(q, b)
    ensures var q' := Preempt(q, e, n);
            Closed(q') && Floor(q', b) && q'.minV == q.minV && (Ordered(q', b) <==> Ordered(q, b))
  {
    var q' := Preempt(q, e, n);
    assert forall x :: x in q.ents ==> Key(q', b, x) == Key(q, b, x);
  }

  /** The event leaves every key within the window, and a fork does not exchange two keys around a third. */
  ghost predicate Headroom(s: Sys, l: Label, b: u64)
    requires WellFormed(s)
  {
    match l
    case Tick(now) => Room(s.q.(clock := now), b)
    case Yield => Key(s.q, b, s.current) + s.q.minV < HALF && Room(Bump(s).q, b)
    case Exit => Room(s.q, b)
    case Fork(child, now, childFirst) =>
      ForkFits(s, now, b) && (childFirst ==> NoneBetween(s, now, b))
    case ForkFails => true
  }

  lemma {:induction false} SwitchNeat(s: Sys, s': Sys, b: u64)
    requires WellFormed(s) && Accounted(s.q) && s.q.curr == s.current && Neat(s.q, b) && Room(s.q, b) && Switches(s, s')
    ensures Neat(s'.q, b) && Off(b, s.q.minV) <= Off(b, s'.q.minV)
            && Hands(s.q, s.current, s'.q, s'.current, Running(s.q), b)
  {
    var i: nat :| MayLand(s, i) && Schedule(s, i) == Some(s');
    ScheduleNeat(s, s', i, b);
  }

  lemma {:induction false} TickStepNeat(s: Sys, now: u64, s': Sys, b: u64)
    requires Inv(s) && Neat(s.q, b) && Step(s, Tick(now), s') && Headroom(s, Tick(now), b)
    ensures Neat(s'.q, b) && Off(b, s.q.minV) <= Off(b, s'.q.minV)
            && (Stays(s, s', b) || Hands(s.q, s.current, s'.q, s'.current, true, b))
  {
    TickNeat(s, now, b);
    TickChargeInv(s, now);
    var s1 := TickCharge(s, now).value;
    if s.q.ents[s.current].preemptCount <= 0 && s1.q.ents[s.current].needResched {
      SwitchNeat(s1, s', b);
      StaysHands(s, s1, s', b);
    }
  }

  lemma {:induction false} YieldStepNeat(s: Sys, s': Sys, b: u64)
    requires Inv(s) && Neat(s.q, b) && Step(s, Yield, s') && Headroom(s, Yield, b)
    ensures Neat(s'.q, b) && Off(b, s.q.minV) <= Off(b, s'.q.minV) && Hands(s.q, s.current, s'.q, s'.current, true, b)
  {
    BumpNeat(s, b);
    SameInv(s, Bump(s));
    SwitchNeat(Bump(s), s', b);
    StaysHands(s, Bump(s), s', b);
  }

  /** Every event with that much room keeps the timeline in order and min_vruntime a floor that never moves backwards;
      and every event but a fork leaves the running task in place or hands the processor to the leftmost entity. */
  lemma {:induction false} StepNeat(s: Sys, l: Label, s': Sys, b: u64)
    requires Inv(s) && Neat(s.q, b) && Step(s, l, s') && Headroom(s, l, b)
    ensures Neat(s'.q, b) && Off(b, s.q.minV) <= Off(b, s'.q.minV)
    ensures !l.Fork? ==> Stays(s, s', b) || Hands(s.q, s.current, s'.q, s'.current, !l.Exit?, b)
  {
    match l
    case Tick(now) => TickStepNeat(s, now, s', b);
    case Yield => YieldStepNeat(s, s', b);
    case Exit =>
      ExitNeat(s, b);
      ExitAccounts(s);
      SwitchNeat(Bump(ExitDequeue(s)), s', b);
    case Fork(child, now, childFirst) =>
      ForkOrderIff(s, child, now, childFirst, s', b);
    case ForkFails =>
      PreemptSame(s.q, s.current, 1, b);
      SameKeysNeat(s.q, s'.q, b);
  }

  /** Whatever the event, but for a fork: the processor stays where it is or goes to the entity with the least key of
      all that wait. */
  lemma {:induction false} PickIsMinimal(s: Sys, l: Label, s': Sys, b: u64)
    requires Inv(s) && Neat(s.q, b) && Step(s, l, s') && Headroom(s, l, b) && !l.Fork?
    ensures s'.current == s.current || (s'.current in s.q.line
            && forall x :: x in s.q.line ==> Key(s.q, b, s'.current) <= Key(s.q, b, x))
  {
    StepNeat(s, l, s', b);
    if s.q.line != [] { LeftmostIsLeast(s.q, b); }
  }
}
