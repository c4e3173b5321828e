/** First in, first out: whoever waits behind another entity stays behind it until that one has been picked. */
module SchedFirst {
  import opened Entities
  import opened Seqs
  import opened Fixed
  import opened Wrap
  import opened FairModel
  import opened SchedModel
  import opened SchedInv
  import opened SchedOrder
  import opened Wrappers

  /** `x` stands before `y`. */
  ghost predicate StandsBefore(l: seq<SchedEntity>, x: SchedEntity, y: SchedEntity) {
    exists i, j :: 0 <= i < j < |l| && l[i] == x && l[j] == y
  }

  lemma {:induction false} LinkedBefore(l: seq<SchedEntity>, e: SchedEntity, n: nat, x: SchedEntity, y: SchedEntity)
    requires n <= |l| && StandsBefore(l, x, y)
    ensures StandsBefore(l[..n] + [e] + l[n..], x, y)
  {
    var i, j :| 0 <= i < j < |l| && l[i] == x && l[j] == y;
    var l' := l[..n] + [e] + l[n..];
    var i', j' := if i < n then i else i + 1, if j < n then j else j + 1;
    assert l'[i'] == x && l'[j'] == y;
  }

  lemma {:induction false} WithoutBefore(l: seq<SchedEntity>, z: SchedEntity, x: SchedEntity, y: SchedEntity)
    requires z in l && z != x && z != y && StandsBefore(l, x, y)
    ensures StandsBefore(Without(l, z), x, y)
  {
    var i, j :| 0 <= i < j < |l| && l[i] == x && l[j] == y;
    var n := WithoutAt(l, z);
    var i', j' := if i < n then i else i - 1, if j < n then j else j - 1;
    assert Without(l, z)[i'] == x && Without(l, z)[j'] == y;
  }

  /** The line after a switch: the running entity is linked if it is still on the queue, and the first one is taken
      out. */
  ghost predicate Switched(q: Rq, prev: SchedEntity, q': Rq, i: nat)
    requires i <= |q.line|
  {
    && q.line != [] && prev !in q.line && q'.curr == q.line[0]
    && (q'.line == Without(q.line, q.line[0]) || q'.line == Without(Link(q, prev, i).line, q.line[0]))
  }

  lemma {:induction false} ScheduleLine(s: Sys, s': Sys, i: nat)
    requires WellFormed(s) && Placed(s.q) && s.q.curr == s.current && i <= |s.q.line| && Schedule(s, i) == Some(s')
    ensures Switched(s.q, s.current, s'.q, i)
  {
    var q1 := ScheduleParts(s, s', i);
    assert s.q.line[0] in s.q.line;
    PutPrevLine(Preempt(s.q, s.current, 1), s.current, i);
  }

  lemma {:induction false} PutPrevLine(q: Rq, prev: SchedEntity, i: nat)
    requires Closed(q) && prev in q.ents && i <= |q.line|
    ensures var q' := PutPrevEntity(q, prev, i);
            && (q'.line == q.line || q'.line == Link(q, prev, i).line) && q'.ents.Keys == q.ents.Keys
            && forall e :: e in q.ents ==> q'.ents[e].onRq == q.ents[e].onRq
  {
    ChargeSame(q);
  }

  lemma {:induction false} SwitchedBefore(q: Rq, prev: SchedEntity, q': Rq, i: nat, x: SchedEntity, y: SchedEntity)
    requires i <= |q.line| && NoDup(q.line) && Switched(q, prev, q', i) && StandsBefore(q.line, x, y) && x in q'.line
    ensures StandsBefore(q'.line, x, y)
  {
    var z, l := q.line[0], Link(q, prev, i).line;
    var a, b :| 0 <= a < b < |q.line| && q.line[a] == x && q.line[b] == y;
    assert y != z;
    assert q.line == q.line[..i] + q.line[i..];
    NoDupSplit(q.line[..i], prev, q.line[i..]);
    if x == z {
      NotTwice(q.line, x);
      NotTwice(l, x);
    }
    LinkedBefore(q.line, prev, i, x, y);
    if q'.line == Without(q.line, z) { WithoutBefore(q.line, z, x, y); } else { WithoutBefore(l, z, x, y); }
  }

  lemma {:induction false} NotTwice(l: seq<SchedEntity>, x: SchedEntity)
    requires NoDup(l) && x in l
    ensures x !in Without(l, x)
  {
    var n := WithoutAt(l, x);
  }

  lemma {:induction false} SwitchBefore(s: Sys, s': Sys, x: SchedEntity, y: SchedEntity)
    requires Switches(s, s') && Placed(s.q) && s.q.curr == s.current && StandsBefore(s.q.line, x, y) && x in s'.q.line
    ensures StandsBefore(s'.q.line, x, y)
  {
    var i: nat :| MayLand(s, i) && Schedule(s, i) == Some(s');
    ScheduleLine(s, s', i);
    SwitchedBefore(s.q, s.current, s'.q, i, x, y);
  }

  lemma {:induction false} ForkLine(s: Sys, child: SchedEntity, now: u64, childFirst: bool, i: nat)
    requires Inv(s) && child !in s.q.ents
    requires var q := ForkPlace(NewTask(s, child), child, now); Closed(q) && i <= |q.line| && s.current in q.ents
    ensures ForkPlace(NewTask(s, child), child, now).line == s.q.line
    ensures ForkDone(s, ForkPlace(NewTask(s, child), child, now), child, childFirst, i).q.line == s.q.line[..i]
            + [child] + s.q.line[i..]
  {
    var q0 := NewTask(s, child);
    var q := ForkPlace(q0, child, now);
    ForkPlaceSame(q0, child, now);
    ForkEnqueueSame(q, child, childFirst, i);
  }

  /** No event lets a waiting entity pass another one that goes on waiting. */
  lemma {:induction false} StepBefore(s: Sys, l: Label, s': Sys, x: SchedEntity, y: SchedEntity)
    requires Inv(s) && Step(s, l, s') && StandsBefore(s.q.line, x, y) && x in s'.q.line
    ensures StandsBefore(s'.q.line, x, y)
  {
    match l
    case Tick(now) =>
      if s.q.ents[s.current].preemptCount <= 0 {
        TickChargeInv(s, now);
        var s1 := TickCharge(s, now).value;
        if s1.q.ents[s.current].needResched { SwitchBefore(s1, s', x, y); }
      }
    case Yield => SwitchBefore(Bump(s), s', x, y);
    case Exit =>
      ExitAccounts(s);
      SwitchBefore(Bump(ExitDequeue(s)), s', x, y);
    case Fork(child, now, childFirst) =>
      var q := ForkPlace(NewTask(s, child), child, now);
      var i: nat :| Gap(q, q.ents[child].vruntime, i) && s' == ForkDone(s, q, child, childFirst, i);
      ForkLine(s, child, now, childFirst, i);
      LinkedBefore(s.q.line, child, i, x, y);
    case ForkFails =>
  }

  ghost predicate WaitsIn(states: seq<Sys>, x: SchedEntity, i: nat)
    requires i < |states|
  {
    x in states[i].q.line
  }

  lemma {:induction false} RunBefore(states: seq<Sys>, events: seq<Label>, x: SchedEntity, y: SchedEntity, i: nat)
    requires Run(states, events) && Inv(states[0]) && i + 1 < |states| && StandsBefore(states[i].q.line, x, y)
             && WaitsIn(states, x, i + 1)
    ensures StandsBefore(states[i + 1].q.line, x, y)
  {
    RunInv(states, events, i);
    assert StepAt(states, events, i);
    StepBefore(states[i], events[i], states[i + 1], x, y);
  }

  lemma {:induction false} StaysBefore(states: seq<Sys>, events: seq<Label>, x: SchedEntity, y: SchedEntity, i: nat,
                                       j: nat)
    requires Run(states, events) && Inv(states[0]) && i <= j < |states| && StandsBefore(states[i].q.line, x, y)
    requires forall k :: i <= k <= j ==> WaitsIn(states, x, k)
    ensures StandsBefore(states[j].q.line, x, y)
    decreases j - i
  {
    if i < j {
      StaysBefore(states, events, x, y, i, j - 1);
      RunBefore(states, events, x, y, j - 1);
    }
  }

  /** While `x` waits, an entity behind it stays behind it and is never picked. */
  lemma {:induction false} FirstInFirstOut(states: seq<Sys>, events: seq<Label>, x: SchedEntity, y: SchedEntity, i: nat,
                                           j: nat)
    requires Run(states, events) && Inv(states[0]) && i <= j < |states| && StandsBefore(states[i].q.line, x, y)
    requires forall k :: i <= k <= j ==> WaitsIn(states, x, k)
    ensures StandsBefore(states[j].q.line, x, y) && states[j].current != y
  {
    StaysBefore(states, events, x, y, i, j);
    RunInv(states, events, j);
    NotCurrent(states[j], x, y);
  }

  lemma {:induction false} NotCurrent(s: Sys, x: SchedEntity, y: SchedEntity)
    requires Inv(s) && StandsBefore(s.q.line, x, y)
    ensures s.current != y
  {
    assert s.q.curr !in s.q.line;
  }

  /** In an ordered timeline an entity is linked behind all those whose keys are no greater: equal keys stand in the
      order of their arrival. */
  lemma {:induction false} LinkedBehind(q: Rq, b: u64, e: SchedEntity, i: nat, x: SchedEntity)
    requires Closed(q) && Ordered(q, b) && e in q.ents && In(b, q.ents[e].vruntime) && Gap(q, q.ents[e].vruntime, i)
    requires x in q.line && Key(q, b, x) <= Key(q, b, e)
    ensures StandsBefore(Link(q, e, i).line, x, e)
  {
    GapIsUnique(q, b, q.ents[e].vruntime, i);
    var j :| 0 <= j < |q.line| && q.line[j] == x;
    assert j < i;
    var l := Link(q, e, i).line;
    assert l[j] == x && l[i] == e;
  }
}
