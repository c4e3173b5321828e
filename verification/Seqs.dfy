/** Sequences in which each element occurs once. */
module Seqs {
  import opened Entities

  ghost predicate NoDup<T>(s: seq<T>) {
    forall i, j :: 0 <= i < j < |s| ==> s[i] != s[j]
  }

  lemma {:induction false} NoDupSplit<T>(a: seq<T>, e: T, b: seq<T>)
    ensures NoDup(a + [e] + b) <==>
              NoDup(a) && NoDup(b) && e !in a && e !in b && forall x :: x in a ==> x !in b
  {
    var s := a + [e] + b;
    assert |s| == |a| + 1 + |b| && s[|a|] == e;
    assert forall i :: 0 <= i < |a| ==> a[i] == s[i];
    assert forall i :: 0 <= i < |b| ==> b[i] == s[|a| + 1 + i];
    if NoDup(s) {
      forall i, j | 0 <= i < |a| && 0 <= j < |b| ensures a[i] != b[j] {
        assert s[i] != s[|a| + 1 + j];
      }
    }
    if NoDup(a) && NoDup(b) && e !in a && e !in b && forall x :: x in a ==> x !in b {
      forall i, j | 0 <= i < j < |s| ensures s[i] != s[j] {
        assert i < |a| ==> s[i] in a;
        assert j > |a| ==> s[j] in b;
      }
    }
  }

  function First(s: seq<SchedEntity>): SchedEntity? { if s == [] then null else s[0] }

  /** `s` with the first `x` taken out. */
  function Without(s: seq<SchedEntity>, x: SchedEntity): seq<SchedEntity> {
    if s == [] then [] else if s[0] == x then s[1..] else [s[0]] + Without(s[1..], x)
  }

  lemma {:induction false} WithoutMiddle(a: seq<SchedEntity>, x: SchedEntity, b: seq<SchedEntity>)
    requires x !in a
    ensures Without(a + [x] + b, x) == a + b
  {
    if a == [] {
      assert [] + [x] + b == [x] + b;
    } else {
      WithoutMiddle(a[1..], x, b);
      assert (a + [x] + b)[1..] == a[1..] + [x] + b;
      assert a + b == [a[0]] + (a[1..] + b);
    }
  }

  lemma {:induction false} WithoutAt(s: seq<SchedEntity>, x: SchedEntity) returns (i: nat)
    requires x in s
    ensures i < |s| && s[i] == x && x !in s[..i] && Without(s, x) == s[..i] + s[i + 1..]
  {
    if s[0] == x {
      i := 0;
    } else {
      i := WithoutAt(s[1..], x);
      i := i + 1;
      assert s[..i] == [s[0]] + s[1..][..i - 1];
    }
  }

  lemma {:induction false} OthersStay(l: seq<SchedEntity>, x: SchedEntity, e: SchedEntity)
    requires x in l && e in l && e != x
    ensures e in Without(l, x)
  {
    var n := WithoutAt(l, x);
    var j :| 0 <= j < |l| && l[j] == e;
    assert Without(l, x)[if j < n then j else j - 1] == e;
  }

  lemma {:induction false} NoDupConcat(a: seq<SchedEntity>, e: SchedEntity, b: seq<SchedEntity>)
    requires NoDup(a + [e] + b)
    ensures NoDup(a + b)
    ensures forall x :: x in a + b ==> x in a + [e] + b && x != e
    ensures forall x :: x in a + [e] + b && x != e ==> x in a + b
  {
    NoDupSplit(a, e, b);
    forall i, j | 0 <= i < j < |a + b| ensures (a + b)[i] != (a + b)[j] {
      assert i < |a| ==> (a + b)[i] in a;
      assert j >= |a| ==> (a + b)[j] in b;
    }
  }

  lemma {:induction false} NoDupCard<T>(l: seq<T>, m: set<T>)
    requires NoDup(l) && forall e :: e in l ==> e in m
    ensures |l| <= |m|
  {
    if l != [] {
      assert forall e :: e in l[1..] ==> e in m - {l[0]};
      NoDupCard(l[1..], m - {l[0]});
    }
  }

  // ----- sums -----

  /** The sum of `f` over the entities of `s`. */
  function Sums(f: map<SchedEntity, nat>, s: seq<SchedEntity>): nat
    requires forall e :: e in s ==> e in f
  {
    if s == [] then 0 else f[s[0]] + Sums(f, s[1..])
  }

  lemma {:induction false} SumsSame(f: map<SchedEntity, nat>, f': map<SchedEntity, nat>, s: seq<SchedEntity>)
    requires forall e :: e in s ==> e in f && e in f' && f'[e] == f[e]
    ensures Sums(f', s) == Sums(f, s)
  {
    if s != [] { SumsSame(f, f', s[1..]); }
  }

  lemma {:induction false} SumsConcat(f: map<SchedEntity, nat>, s: seq<SchedEntity>, t: seq<SchedEntity>)
    requires forall e :: e in s + t ==> e in f
    ensures forall e :: e in s ==> e in f
    ensures forall e :: e in t ==> e in f
    ensures Sums(f, s + t) == Sums(f, s) + Sums(f, t)
  {
    assert forall e :: e in s ==> e in s + t;
    assert forall e :: e in t ==> e in s + t;
    if s == [] {
      assert s + t == t;
    } else {
      assert (s + t)[1..] == s[1..] + t;
      SumsConcat(f, s[1..], t);
    }
  }

  lemma {:induction false} SumsMiddle(f: map<SchedEntity, nat>, a: seq<SchedEntity>, e: SchedEntity,
                                      b: seq<SchedEntity>)
    requires forall x :: x in a + [e] + b ==> x in f
    ensures forall x :: x in a + b ==> x in f
    ensures e in f && Sums(f, a + [e] + b) == Sums(f, a + b) + f[e]
  {
    assert e in a + [e] + b;
    assert forall x :: x in a + b ==> x in a + [e] + b;
    SumsConcat(f, a, b);
    SumsConcat(f, a + [e], b);
    SumsConcat(f, a, [e]);
  }

  /** Linking an entity at position `i`. */
  lemma {:induction false} LinkSums(f: map<SchedEntity, nat>, s: seq<SchedEntity>, e: SchedEntity, i: nat)
    requires NoDup(s) && e !in s && i <= |s| && e in f && forall x :: x in s ==> x in f
    ensures var l := s[..i] + [e] + s[i..];
            && NoDup(l) && (forall x :: x in l ==> x in s || x == e) && (forall x :: x in s || x == e ==> x in l)
            && Sums(f, l) == Sums(f, s) + f[e]
  {
    var a, b := s[..i], s[i..];
    assert s == a + b;
    assert forall x :: x in a + [e] + b ==> x in s || x == e;
    NoDupSplit(a, e, b);
    SumsMiddle(f, a, e, b);
  }

  /** Taking an entity off. */
  lemma {:induction false} UnlinkSums(f: map<SchedEntity, nat>, s: seq<SchedEntity>, e: SchedEntity)
    requires NoDup(s) && e in s && forall x :: x in s ==> x in f
    ensures NoDup(Without(s, e)) && |Without(s, e)| == |s| - 1
    ensures forall x :: x in Without(s, e) ==> x in s && x != e
    ensures forall x :: x in s && x != e ==> x in Without(s, e)
    ensures Sums(f, Without(s, e)) == Sums(f, s) - f[e]
  {
    var i :| 0 <= i < |s| && s[i] == e;
    var a, b := s[..i], s[i + 1..];
    assert s == a + [e] + b;
    NoDupSplit(a, e, b);
    WithoutMiddle(a, e, b);
    NoDupConcat(a, e, b);
    SumsMiddle(f, a, e, b);
  }
}
