/** The order of the timeline and the floor min_vruntime, for keys within a window shorter than 2^63. */
module SchedOrder {
  import opened Entities
  import opened Seqs
  import opened Fixed
  import opened Wrap
  import opened FairModel
  import opened SchedModel

  /** How far the key of `x` is past the base `b` of the window. */
  function Key(q: Rq, b: u64, x: SchedEntity): u64
    requires x in q.ents
  {
    Off(b, q.ents[x].vruntime)
  }

  /** The keys on the tree lie in the window and ascend. */
  ghost predicate Ordered(q: Rq, b: u64)
    requires Closed(q)
  {
    && (forall x :: x in q.line ==> Key(q, b, x) < HALF)
    && forall i, j :: 0 <= i < j < |q.line| ==> Key(q, b, q.line[i]) <= Key(q, b, q.line[j])
  }

  /** min_vruntime is at most the key of every entity on the queue. */
  ghost predicate Floor(q: Rq, b: u64)
    requires Closed(q)
  {
    && In(b, q.minV)
    && (forall x :: x in q.line ==> Off(b, q.minV) <= Key(q, b, x))
    && (Running(q) ==> Off(b, q.minV) <= Key(q, b, q.curr) < HALF)
  }

  ghost predicate Neat(q: Rq, b: u64) { Closed(q) && Ordered(q, b) && Floor(q, b) }

  // ----- min_vruntime -----

  /** Whatever the state, `update_min_vruntime` leaves min_vruntime alone or moves it forwards. */
  lemma {:induction false} MinNeverBack(q: Rq)
    requires Closed(q)
    ensures var q' := UpdateMinVruntime(q); q'.minV == q.minV || S64(Sub64(q'.minV, q.minV)) > 0
  {
  }

  /** In an ordered timeline it stays a floor. */
  lemma {:induction false} MinStaysFloor(q: Rq, b: u64)
    requires Neat(q, b)
    ensures Neat(UpdateMinVruntime(q), b)
    ensures Off(b, q.minV) <= Off(b, UpdateMinVruntime(q).minV)
  {
    assert q.line != [] ==> q.line[0] in q.line;
    if Running(q) {
      WindowOrder(b, q.minV, q.ents[q.curr].vruntime);
      if q.line != [] {
        WindowOrder(b, q.ents[q.curr].vruntime, q.ents[q.line[0]].vruntime);
        WindowOrder(b, q.minV, MinV(q.ents[q.curr].vruntime, q.ents[q.line[0]].vruntime));
      }
    } else if q.line != [] {
      WindowOrder(b, q.minV, q.ents[q.line[0]].vruntime);
    }
    assert q.line != [] ==> forall x :: x in q.line ==> Key(q, b, q.line[0]) <= Key(q, b, x);
  }

  /** What `update_curr` adds to the virtual time of the running entity. */
  function Gain(q: Rq): u64
    requires Closed(q)
  {
    if q.curr == null || S64(Sub64(q.clock, q.ents[q.curr].execStart)) <= 0 then 0
    else DeltaFair(Sub64(q.clock, q.ents[q.curr].execStart), q.ents[q.curr].load)
  }

  lemma {:induction false} ChargeStaysNeat(q: Rq, b: u64)
    requires Neat(q, b) && (q.curr != null ==> q.curr !in q.line)
    requires Running(q) ==> Key(q, b, q.curr) + Gain(q) < HALF
    ensures var q' := UpdateCurr(q);
            && Neat(q', b) && Off(b, q.minV) <= Off(b, q'.minV)
            && (q.curr != null && Key(q, b, q.curr) + Gain(q) < HALF
               ==> Key(q', b, q.curr) == Key(q, b, q.curr) + Gain(q))
  {
    if q.curr != null && S64(Sub64(q.clock, q.ents[q.curr].execStart)) > 0 {
      var e := q.ents[q.curr];
      var q1 := q.(ents := q.ents[q.curr := Charge(e, q.clock)]);
      if Key(q, b, q.curr) + Gain(q) < HALF { WindowAdd(b, e.vruntime, Gain(q)); }
      assert Neat(q1, b);
      MinStaysFloor(q1, b);
    }
  }

  // ----- where an entity is linked -----

  /** In an ordered timeline the descent ends behind all keys up to `v`, and so behind equal ones, and before all later
      ones; the timeline stays ordered. */
  lemma {:induction false} GapIsUnique(q: Rq, b: u64, v: u64, i: nat)
    requires Closed(q) && Ordered(q, b) && In(b, v) && Gap(q, v, i)
    ensures forall j :: 0 <= j < i ==> Key(q, b, q.line[j]) <= Off(b, v)
    ensures forall j :: i <= j < |q.line| ==> Off(b, v) < Key(q, b, q.line[j])
  {
    if i > 0 {
      assert q.line[i - 1] in q.line;
      WindowOrder(b, v, q.ents[q.line[i - 1]].vruntime);
    }
    if i < |q.line| {
      assert q.line[i] in q.line;
      WindowOrder(b, v, q.ents[q.line[i]].vruntime);
    }
  }

  lemma {:induction false} LinkedAt(q: Rq, e: SchedEntity, i: nat)
    requires i <= |q.line|
    ensures var l := Link(q, e, i).line;
            && |l| == |q.line| + 1 && l[i] == e
            && (forall k :: 0 <= k < i ==> l[k] == q.line[k]) && (forall k :: i < k < |l| ==> l[k] == q.line[k - 1])
            && (forall x :: x in l ==> x in q.line || x == e)
  {
  }

  lemma {:induction false} LinkStaysOrdered(q: Rq, b: u64, e: SchedEntity, i: nat)
    requires Closed(q) && Ordered(q, b) && e in q.ents && In(b, q.ents[e].vruntime) && Gap(q, q.ents[e].vruntime, i)
    ensures Closed(Link(q, e, i)) && Ordered(Link(q, e, i), b)
  {
    GapIsUnique(q, b, q.ents[e].vruntime, i);
    var q' := Link(q, e, i);
    LinkedAt(q, e, i);
    forall j, k | 0 <= j < k < |q'.line| ensures Key(q', b, q'.line[j]) <= Key(q', b, q'.line[k]) {
      LinkedKey(q, q', b, e, i, j);
      LinkedKey(q, q', b, e, i, k);
    }
  }

  /** Who stands at place `j` of the line. */
  lemma {:induction false} LinkedKey(q: Rq, q': Rq, b: u64, e: SchedEntity, i: nat, j: nat)
    requires Closed(q) && e in q.ents && i <= |q.line| && j < |q'.line| == |q.line| + 1 && q'.ents == q.ents
    requires q'.line[j] == if j < i then q.line[j] else if j == i then e else q.line[j - 1]
    ensures q'.line[j] in q'.ents
    ensures Key(q', b, q'.line[j]) == if j == i then Key(q, b, e) else Key(q, b, q.line[if j < i then j else j - 1])
  {
  }

  // ----- what the steps keep -----

  /** Nothing that the order looks at has changed. */
  ghost predicate SameKeys(q: Rq, q': Rq) {
    && q'.ents.Keys == q.ents.Keys && q'.line == q.line && q'.curr == q.curr && q'.minV == q.minV
    && forall e :: e in q.ents ==> q'.ents[e].vruntime == q.ents[e].vruntime && q'.ents[e].onRq == q.ents[e].onRq
  }

  lemma {:induction false} SameKeysNeat(q: Rq, q': Rq, b: u64)
    requires Neat(q, b) && SameKeys(q, q')
    ensures Neat(q', b)
  {
  }

  /** A second `update_curr` at the same clock reading adds nothing. */
  lemma {:induction false} ChargedOnce(q: Rq)
    requires Closed(q)
    ensures Gain(UpdateCurr(q)) == 0
  {
  }

  /** The running entity has room in the window for what it is about to be charged. */
  ghost predicate Room(q: Rq, b: u64)
    requires Closed(q)
  {
    Running(q) ==> Key(q, b, q.curr) + Gain(q) < HALF
  }

  lemma {:induction false} PutPrevNeat(q: Rq, b: u64, i: nat)
    requires Neat(q, b) && q.curr != null && q.curr !in q.line && Room(q, b) && i <= |q.line|
    requires Running(q) ==> Gap(UpdateCurr(q), UpdateCurr(q).ents[q.curr].vruntime, i)
    ensures var q' := PutPrevEntity(q, q.curr, i);
            Neat(q', b) && Off(b, q.minV) <= Off(b, q'.minV)
  {
    if Running(q) {
      ChargeStaysNeat(q, b);
      LinkStaysOrdered(UpdateCurr(q), b, q.curr, i);
    }
  }

  lemma {:induction false} WithoutOrdered(q: Rq, q': Rq, b: u64, e: SchedEntity)
    requires Closed(q) && Ordered(q, b) && Closed(q') && e in q.line && q'.line == Without(q.line, e)
    requires forall x :: x in q.line ==> x in q'.ents && Key(q', b, x) == Key(q, b, x)
    ensures Ordered(q', b)
  {
    var i := WithoutAt(q.line, e);
    forall j, k | 0 <= j < k < |q'.line| ensures Key(q', b, q'.line[j]) <= Key(q', b, q'.line[k])
        && Key(q', b, q'.line[j]) < HALF && Key(q', b, q'.line[k]) < HALF {
      KeptOrder(q, q', b, i, j, if j < i then j else j + 1);
      KeptOrder(q, q', b, i, k, if k < i then k else k + 1);
    }
    forall x | x in q'.line ensures Key(q', b, x) < HALF { WithoutInside(q.line, e); }
  }

  lemma {:induction false} KeptOrder(q: Rq, q': Rq, b: u64, i: nat, j: nat, j': nat)
    requires Closed(q) && Closed(q') && i < |q.line| && q'.line == q.line[..i] + q.line[i + 1..] && j < |q'.line|
             && j' == (if j < i then j else j + 1)
    requires forall x :: x in q.line ==> x in q'.ents && Key(q', b, x) == Key(q, b, x)
    ensures Key(q', b, q'.line[j]) == Key(q, b, q.line[j'])
  {
    assert q'.line[j] == q.line[j'];
  }

  /** `set_next_entity`, of any entity on the tree: the task that was put back may have been linked before the one that
      was picked. */
  lemma {:induction false} SetNextNeat(q: Rq, b: u64, e: SchedEntity)
    requires Neat(q, b) && q.curr == null && e in q.line && q.ents[e].onRq
    ensures var q' := SetNextEntity(q, e);
            && Neat(q', b) && q'.minV == q.minV
            && forall x :: x in q.ents ==> q'.ents[x].vruntime == q.ents[x].vruntime
  {
    WithoutInside(q.line, e);
    WithoutOrdered(q, SetNextEntity(q, e), b, e);
  }
}
