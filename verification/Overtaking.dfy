/** How long an entity can wait: runs, and a bound on the number of switches before its turn. */
module Overtaking {
  import opened Entities
  import opened Seqs
  import opened Arith
  import opened Fixed
  import opened Wrap
  import opened FairModel
  import opened SchedModel
  import opened SchedInv
  import opened SchedOrder
  import opened SchedRuns

  /** A run in which every event finds headroom. */
  ghost predicate RoomyRun(states: seq<Sys>, events: seq<Label>, b: u64) {
    && Run(states, events) && Inv(states[0]) && Neat(states[0].q, b)
    && forall i :: 0 <= i < |events| ==> RoomAt(states, events, b, i)
  }

  ghost predicate RoomAt(states: seq<Sys>, events: seq<Label>, b: u64, i: nat)
    requires i < |events| && |states| == |events| + 1
  {
    WellFormed(states[i]) && Headroom(states[i], events[i], b)
  }

  lemma {:induction false} RunNeat(states: seq<Sys>, events: seq<Label>, b: u64, i: nat)
    requires RoomyRun(states, events, b) && i < |states|
    ensures Inv(states[i]) && Neat(states[i].q, b)
  {
    if i > 0 {
      RunNeat(states, events, b, i - 1);
      assert StepAt(states, events, i - 1) && RoomAt(states, events, b, i - 1);
      StepInv(states[i - 1], events[i - 1], states[i]);
      StepNeat(states[i - 1], events[i - 1], states[i], b);
    }
  }

  lemma {:induction false} FloorOfAll(s: Sys, b: u64)
    requires Inv(s) && Neat(s.q, b)
    ensures forall x :: x in s.q.ents && s.q.ents[x].onRq ==> Off(b, s.q.minV) <= Key(s.q, b, x) < HALF
  {
  }

  lemma {:induction false} RunStep(states: seq<Sys>, events: seq<Label>, b: u64, i: nat)
    requires RoomyRun(states, events, b) && i < |events|
    ensures Inv(states[i]) && Inv(states[i + 1]) && Neat(states[i].q, b) && Neat(states[i + 1].q, b)
    ensures Off(b, states[i].q.minV) <= Off(b, states[i + 1].q.minV)
    ensures !events[i].Fork? ==> MovesAt(states, b, i)
  {
    RunNeat(states, events, b, i);
    assert StepAt(states, events, i) && RoomAt(states, events, b, i);
    StepInv(states[i], events[i], states[i + 1]);
    StepNeat(states[i], events[i], states[i + 1], b);
  }

  /** min_vruntime stays at or below the virtual time of every entity on the queue... */
  lemma {:induction false} MinIsFloor(states: seq<Sys>, events: seq<Label>, b: u64, i: nat, x: SchedEntity)
    requires RoomyRun(states, events, b) && i < |states| && x in states[i].q.ents && states[i].q.ents[x].onRq
    ensures Off(b, states[i].q.minV) <= Key(states[i].q, b, x) < HALF
  {
    RunNeat(states, events, b, i);
    FloorOfAll(states[i], b);
  }

  lemma {:induction false} StepMin(states: seq<Sys>, events: seq<Label>, b: u64, i: nat)
    requires RoomyRun(states, events, b) && i < |events|
    ensures Off(b, states[i].q.minV) <= Off(b, states[i + 1].q.minV)
  {
    RunStep(states, events, b, i);
  }

  /** ...and never moves backwards. */
  lemma {:induction false} MinRises(states: seq<Sys>, events: seq<Label>, b: u64, i: nat, j: nat)
    requires RoomyRun(states, events, b) && i <= j < |states|
    ensures Off(b, states[i].q.minV) <= Off(b, states[j].q.minV)
    decreases j - i
  {
    if i < j {
      MinRises(states, events, b, i, j - 1);
      StepMin(states, events, b, j - 1);
    }
  }

  /** The state that `sched_init` leaves is in order, in the window that starts at 0. */
  lemma {:induction false} InitNeat(init: SchedEntity, load: LoadWeight, clock: u64)
    ensures Inv(Init(init, load, clock)) && Neat(Init(init, load, clock).q, 0)
  {
    InitInv(init, load, clock);
    var q := Rq(map[init := Ent(load, false, clock, 0, 0, 0, false, 0)], [], LoadWeight(0, 0), 0, 0, clock, init);
    FirstSlice(q, init);
  }

  lemma {:induction false} DeltaFairBound(delta: u64, lw: LoadWeight)
    ensures DeltaFair(delta, lw) <= delta * 1024
  {
    if lw.weight != NICE_0_LOAD {
      CalcDeltaUpper(delta, NICE_0_LOAD, lw);
      MulUp(delta, 1024 * UpdateInvWeight(lw).inv, delta, 1024 * TWO_32);
      Assoc(delta, 1024, TWO_32);
    }
  }

  /** The slice of the only task, weighted, is far below 2^63. */
  lemma {:induction false} FirstSlice(q: Rq, e: SchedEntity)
    requires e in q.ents && !q.ents[e].onRq && q.nr == 0 && q.load == LoadWeight(0, 0)
    ensures DeltaFair(Slice(q, e), q.ents[e].load) < HALF
  {
    SliceAlone(q.ents[e].load.weight);
    DeltaFairBound(Slice(q, e), q.ents[e].load);
  }

  lemma {:induction false} SliceAlone(w: u64)
    ensures CalcDelta(SCHED_LATENCY, w, LoadWeight(w, 0)) <= 0x40_0000_0000
  {
    var lw := LoadWeight(w, 0);
    CalcDeltaUpper(SCHED_LATENCY, w, lw);
    if 0 < w < WMULT_CONST {
      Reciprocal(lw);
    }
  }

  // ----- how much the others may still run before it is the turn of a key -----

  function Debt(v: int, key: int): nat { if key <= v then v - key + 1 else 0 }

  function Debts(q: Rq, b: u64, v: int): map<SchedEntity, nat>
  {
    map e | e in q.ents :: Debt(v, Off(b, q.ents[e].vruntime))
  }

  function Waiting(q: Rq, b: u64, v: int): nat
    requires Closed(q)
  {
    Sums(Debts(q, b, v), q.line)
  }

  lemma {:induction false} HandsWaiting(q: Rq, q': Rq, prev: SchedEntity, next: SchedEntity, back: bool, b: u64, v: int)
    requires Closed(q) && Closed(q') && NoDup(q.line) && prev in q.ents && Hands(q, prev, q', next, back, b)
    ensures Waiting(q', b, v) + Debt(v, Key(q', b, next)) == Waiting(q, b, v) + if back then Debt(v, Key(q', b, prev))
            else 0
  {
    var f, f' := Debts(q, b, v), Debts(q', b, v);
    SumsSame(f, f', q.line);
    if back {
      var i: nat :| i <= |q.line| && q'.line == Without(Link(q, prev, i).line, next);
      LinkSums(f', q.line, prev, i);
      UnlinkSums(f', Link(q, prev, i).line, next);
    } else {
      UnlinkSums(f', q.line, next);
    }
  }

  /** The key at which the task that runs in state `i` was picked. */
  ghost function PickedKey(states: seq<Sys>, b: u64, i: nat): int
    requires i < |states|
  {
    if states[i].current !in states[i].q.ents then 0
    else if i == 0 || states[i].current != states[i - 1].current then Key(states[i].q, b, states[i].current)
    else PickedKey(states, b, i - 1)
  }

  /** The number of switches up to state `i`. */
  function Turns(states: seq<Sys>, i: nat): nat
    requires i < |states|
  {
    if i == 0 then 0 else Turns(states, i - 1) + if states[i].current != states[i - 1].current then 1 else 0
  }

  /** A fork-free stretch of states in which `x` waits. */
  ghost predicate Stretch(states: seq<Sys>, b: u64, x: SchedEntity) {
    && states != []
    && (forall i :: 0 <= i < |states| ==> WaitsAt(states, b, x, i))
    && (forall i :: 0 <= i < |states| - 1 ==> MovesAt(states, b, i))
  }

  ghost predicate WaitsAt(states: seq<Sys>, b: u64, x: SchedEntity, i: nat)
    requires i < |states|
  {
    Inv(states[i]) && Neat(states[i].q, b) && x in states[i].q.line
  }

  ghost predicate MovesAt(states: seq<Sys>, b: u64, i: nat)
    requires i + 1 < |states|
  {
    var (s, s') := (states[i], states[i + 1]);
    WellFormed(s) && (Stays(s, s', b) || exists back :: Hands(s.q, s.current, s'.q, s'.current, back, b))
  }

  /** Every task that was picked and goes back to the tree has gained virtual time. */
  ghost predicate Gains(states: seq<Sys>, b: u64) { forall i :: 0 <= i < |states| - 1 ==> GainAt(states, b, i) }

  ghost predicate GainAt(states: seq<Sys>, b: u64, i: nat)
    requires i + 1 < |states|
  {
    var (e, q) := (states[i].current, states[i + 1].q);
    Turns(states, i) > 0 && states[i + 1].current != e && e in q.line && e in q.ents ==>
      PickedKey(states, b, i) < Key(q, b, e)
  }

  /** What the other runnable entities may use up before the turn of `x`: for each the distance from its key to the key
      of `x`, and one more, if it is not ahead already. */
  ghost function Ahead(s: Sys, b: u64, x: SchedEntity): nat
    requires Inv(s) && x in s.q.line
  {
    WithoutInside(s.q.line, x);
    var v := Key(s.q, b, x);
    Sums(Debts(s.q, b, v), Without(s.q.line, x)) + Debt(v, Key(s.q, b, s.current))
  }

  /** What one event does to the sum of the debts. */
  ghost predicate PassAt(states: seq<Sys>, b: u64, v: int, i: nat)
    requires i + 1 < |states|
  {
    var (s, s') := (states[i], states[i + 1]);
    && Closed(s.q) && Closed(s'.q) && s.current in s.q.ents && s.current in s'.q.ents && s'.current in s'.q.ents
    && (s'.current == s.current || s.current in s'.q.line ==> Key(s.q, b, s.current) <= Key(s'.q, b, s.current))
    && if s'.current == s.current then Waiting(s'.q, b, v) == Waiting(s.q, b, v)
       else
         && Key(s'.q, b, s'.current) <= v
         && Waiting(s'.q, b, v) + Debt(v, Key(s'.q, b, s'.current)) == Waiting(s.q, b, v) + if s.current in s'.q.line
            then Debt(v, Key(s'.q, b, s.current)) else 0
  }

  lemma {:induction false} DebtStep(states: seq<Sys>, b: u64, x: SchedEntity, i: nat, v: int)
    requires i + 1 < |states| && WaitsAt(states, b, x, i) && WaitsAt(states, b, x, i + 1) && MovesAt(states, b, i)
    requires Key(states[i].q, b, x) == v
    ensures Key(states[i + 1].q, b, x) == v && PassAt(states, b, v, i)
  {
    var s, s' := states[i], states[i + 1];
    if Stays(s, s', b) {
      SumsSame(Debts(s.q, b, v), Debts(s'.q, b, v), s.q.line);
    } else {
      var back :| Hands(s.q, s.current, s'.q, s'.current, back, b);
      HandsWaiting(s.q, s'.q, s.current, s'.current, back, b, v);
      LeftmostIsLeast(s.q, b);
      BackInLine(s.q, s'.q, s.current, s'.current, back, b);
    }
  }

  /** Up to the first switch `Ahead` is not exceeded, and every later one uses up a unit of it. */
  ghost predicate DebtAt(states: seq<Sys>, b: u64, v: int, total: int, i: nat)
    requires i < |states|
  {
    var s := states[i];
    && Closed(s.q) && s.current in s.q.ents
    && PickedKey(states, b, i) <= Key(s.q, b, s.current) && (Turns(states, i) > 0 ==> PickedKey(states, b, i) <= v)
    && Waiting(s.q, b, v) + Debt(v, PickedKey(states, b, i)) + (if Turns(states, i) > 0 then Turns(states, i) - 1
       else 0) <= total
  }

  lemma {:induction false} DebtNext(states: seq<Sys>, b: u64, v: int, total: int, i: nat)
    requires i + 1 < |states| && DebtAt(states, b, v, total, i) && PassAt(states, b, v, i) && GainAt(states, b, i)
    ensures DebtAt(states, b, v, total, i + 1)
  {
  }

  /** The waiting entity has the key `v`. */
  ghost predicate KeyAt(states: seq<Sys>, b: u64, x: SchedEntity, v: int, i: nat)
    requires i < |states|
  {
    x in states[i].q.ents && Key(states[i].q, b, x) == v
  }

  /** One event keeps the key, and accounts for the debts. */
  ghost predicate KeepsAt(states: seq<Sys>, b: u64, x: SchedEntity, v: int, i: nat)
    requires i + 1 < |states|
  {
    KeyAt(states, b, x, v, i) ==> KeyAt(states, b, x, v, i + 1) && PassAt(states, b, v, i)
  }

  lemma {:induction false} StretchKeeps(states: seq<Sys>, b: u64, x: SchedEntity, v: int, i: nat)
    requires Stretch(states, b, x) && i + 1 < |states|
    ensures KeepsAt(states, b, x, v, i)
  {
    assert WaitsAt(states, b, x, i) && WaitsAt(states, b, x, i + 1) && MovesAt(states, b, i);
    if KeyAt(states, b, x, v, i) { DebtStep(states, b, x, i, v); }
  }

  lemma {:induction false} KeyStays(states: seq<Sys>, b: u64, x: SchedEntity, i: nat, v: int)
    requires i < |states| && KeyAt(states, b, x, v, 0)
             && forall j :: 0 <= j < |states| - 1 ==> KeepsAt(states, b, x, v, j)
    ensures KeyAt(states, b, x, v, i) && (i > 0 ==> PassAt(states, b, v, i - 1))
  {
    if i > 0 {
      KeyStays(states, b, x, i - 1, v);
      assert KeepsAt(states, b, x, v, i - 1);
    }
  }

  ghost predicate Passes(states: seq<Sys>, b: u64, v: int)
  {
    forall i :: 0 <= i < |states| - 1 ==> PassAt(states, b, v, i)
  }

  lemma {:induction false} DebtFalls(states: seq<Sys>, b: u64, v: int, total: int, i: nat)
    requires Passes(states, b, v) && Gains(states, b) && i < |states| && DebtAt(states, b, v, total, 0)
    ensures DebtAt(states, b, v, total, i)
  {
    if i > 0 {
      DebtFalls(states, b, v, total, i - 1);
      assert PassAt(states, b, v, i - 1) && GainAt(states, b, i - 1);
      DebtNext(states, b, v, total, i - 1);
    }
  }

  lemma {:induction false} BackInLine(q: Rq, q': Rq, prev: SchedEntity, next: SchedEntity, back: bool, b: u64)
    requires Closed(q) && NoDup(q.line) && prev in q.ents && Hands(q, prev, q', next, back, b)
    ensures next != prev && next in q.line && (prev in q'.line <==> back)
  {
    if back {
      var i: nat :| i <= |q.line| && q'.line == Without(Link(q, prev, i).line, next);
      var f := map e | e in q.ents :: 0;
      LinkSums(f, q.line, prev, i);
      UnlinkSums(f, Link(q, prev, i).line, next);
    } else {
      WithoutInside(q.line, next);
    }
  }

  lemma {:induction false} WaitingSplits(s: Sys, b: u64, x: SchedEntity)
    requires Inv(s) && x in s.q.line
    ensures var v := Key(s.q, b, x); Waiting(s.q, b, v) + Debt(v, Key(s.q, b, s.current)) == Ahead(s, b, x) + 1
  {
    UnlinkSums(Debts(s.q, b, Key(s.q, b, x)), s.q.line, x);
  }

  lemma {:induction false} WaitingAtLeast(q: Rq, b: u64, v: int, x: SchedEntity)
    requires Closed(q) && NoDup(q.line) && x in q.line && Key(q, b, x) <= v
    ensures Waiting(q, b, v) >= 1
  {
    UnlinkSums(Debts(q, b, v), q.line, x);
  }

  /** While an entity waits, there are no more switches than the others were ahead of it. */
  lemma {:induction false} StretchIsBounded(states: seq<Sys>, b: u64, x: SchedEntity)
    requires Stretch(states, b, x) && Gains(states, b)
    ensures WaitsAt(states, b, x, 0) && Turns(states, |states| - 1) <= Ahead(states[0], b, x)
  {
    var n := |states| - 1;
    assert WaitsAt(states, b, x, 0);
    var v := Key(states[0].q, b, x);
    forall i | 0 <= i < n ensures KeepsAt(states, b, x, v, i) { StretchKeeps(states, b, x, v, i); }
    forall i | 0 <= i < n ensures PassAt(states, b, v, i) { KeyStays(states, b, x, i + 1, v); }
    KeyStays(states, b, x, n, v);
    assert WaitsAt(states, b, x, n);
    DebtFalls(states, b, v, Waiting(states[0].q, b, v) + Debt(v, Key(states[0].q, b, states[0].current)), n);
    WaitingSplits(states[0], b, x);
    WaitingAtLeast(states[n].q, b, v, x);
  }

  lemma {:induction false} RunIsStretch(states: seq<Sys>, events: seq<Label>, b: u64, x: SchedEntity)
    requires RoomyRun(states, events, b) && forall i :: 0 <= i < |events| ==> !events[i].Fork?
    requires forall i :: 0 <= i < |states| ==> x in states[i].q.line
    ensures Stretch(states, b, x)
  {
    forall i | 0 <= i < |states| ensures WaitsAt(states, b, x, i) { RunNeat(states, events, b, i); }
    forall i | 0 <= i < |states| - 1 ensures MovesAt(states, b, i) { RunStep(states, events, b, i); }
  }

  /** In a run without forks an entity that waits throughout is passed over no more often than the others were ahead of
      it when the run began, provided that they gain virtual time while they run. */
  lemma {:induction false} BoundedOvertaking(states: seq<Sys>, events: seq<Label>, b: u64, x: SchedEntity)
    requires RoomyRun(states, events, b) && forall i :: 0 <= i < |events| ==> !events[i].Fork?
    requires forall i :: 0 <= i < |states| ==> x in states[i].q.line
    requires Gains(states, b)
    ensures Turns(states, |events|) <= Ahead(states[0], b, x)
  {
    RunIsStretch(states, events, b, x);
    StretchIsBounded(states, b, x);
  }
}
