/** The list of the tables of an address space. */
module PageLists {
  import opened PageTables
  import opened Seqs

  /** The tables that a page `vpn` more has made, from the highest level down: those missing on the way to it. */
  ghost predicate Made(tags: map<nat, Tag>, tags': map<nat, Tag>, made: seq<nat>, vpn: nat) {
    && (forall p :: p in tags ==> p in tags' && tags'[p] == tags[p])
    && (forall p :: p in tags' ==> p in tags || p in made)
    && (forall k :: 0 <= k < |made| ==> made[k] !in tags && made[k] in tags'
                                        && tags'[made[k]] == Tag(|made| - 1 - k, Prefix(vpn, |made| - 1 - k)))
  }

  lemma {:induction false} MadeFirst(tags: map<nat, Tag>, tags1: map<nat, Tag>, tags': map<nat, Tag>, next: nat,
                                     lower: seq<nat>, vpn: nat)
    requires tags1 == tags[next := Tag(|lower|, Prefix(vpn, |lower|))] && next !in tags
             && Made(tags1, tags', lower, vpn)
    ensures Made(tags, tags', [next] + lower, vpn)
  {
    var made := [next] + lower;
    assert next in tags1 && made[0] == next;
    forall p | p in tags' ensures p in tags || p in made {
      if p in lower {
        var k :| 0 <= k < |lower| && lower[k] == p;
        assert made[k + 1] == p;
      }
    }
    forall k | 0 < k < |made| ensures made[k] == lower[k - 1] { }
  }

  /** A table of level `l`, if it is new, and those below it. */
  lemma {:induction false} MadeStep(tags: map<nat, Tag>, tags1: map<nat, Tag>, tags': map<nat, Tag>, isNew: bool,
                                    next: nat, lower: seq<nat>, vpn: nat, l: nat)
    requires tags1 == if isNew then tags[next := Tag(l, Prefix(vpn, l))] else tags
    requires Made(tags1, tags', lower, vpn) && (isNew ==> next !in tags && |lower| == l)
    ensures Made(tags, tags', (if isNew then [next] else []) + lower, vpn)
  {
    if isNew {
      MadeFirst(tags, tags1, tags', next, lower, vpn);
    } else {
      assert [] + lower == lower;
    }
  }

  lemma {:induction false} MadeLast(tags: map<nat, Tag>, tags': map<nat, Tag>, isNew: bool, next: nat, vpn: nat)
    requires tags' == (if isNew then tags[next := Tag(0, Prefix(vpn, 0))] else tags) && (isNew ==> next !in tags)
    ensures Made(tags, tags', if isNew then [next] else [], vpn)
  {
    var none: seq<nat> := [];
    MadeStep(tags, tags', tags', isNew, next, none, vpn, 0);
    assert (if isNew then [next] else []) + none == if isNew then [next] else [];
  }

  /** The list holds the tables, each once. */
  ghost predicate Listed(ks: seq<nat>, tags: map<nat, Tag>) {
    NoDup(ks) && (forall p :: p in ks ==> p in tags) && forall p :: p in tags ==> p in ks
  }

  lemma {:induction false} ListedMore(ks: seq<nat>, tags: map<nat, Tag>, made: seq<nat>, tags': map<nat, Tag>, vpn: nat)
    requires Listed(ks, tags) && Made(tags, tags', made, vpn)
    ensures Listed(ks + made, tags')
  {
    forall i, j | 0 <= i < j < |ks + made| ensures (ks + made)[i] != (ks + made)[j] {
      assert i < |ks| ==> (ks + made)[i] in tags;
      assert j >= |ks| ==> (ks + made)[j] == made[j - |ks|];
      assert i >= |ks| ==> (ks + made)[i] == made[i - |ks|];
    }
  }

  /** From the list `ks` to `ks'`: the tables made, in the order in which they were. */
  ghost predicate Grew(tags: map<nat, Tag>, ks: seq<nat>, tags': map<nat, Tag>, ks': seq<nat>, vpn: nat, n: nat) {
    ks <= ks' && |ks'| == |ks| + n && Made(tags, tags', ks'[|ks|..], vpn)
  }

  lemma {:induction false} GrewBy(tags: map<nat, Tag>, ks: seq<nat>, tags': map<nat, Tag>, made: seq<nat>, vpn: nat)
    requires Listed(ks, tags) && Made(tags, tags', made, vpn)
    ensures Grew(tags, ks, tags', ks + made, vpn, |made|) && Listed(ks + made, tags')
  {
    assert (ks + made)[|ks|..] == made;
    ListedMore(ks, tags, made, tags', vpn);
  }

  /** The first-level table, and those below it. */
  lemma {:induction false} GrewRoot(tags: map<nat, Tag>, ks: seq<nat>, pgd: nat, tags': map<nat, Tag>, ks': seq<nat>,
                                    vpn: nat)
    requires pgd !in tags && vpn < Span(4) && Grew(tags[pgd := Tag(3, 0)], ks + [pgd], tags', ks', vpn, 3)
    ensures Grew(tags, ks, tags', ks', vpn, 4)
  {
    RootPrefix(vpn);
    var lower := ks'[|ks| + 1..];
    MadeStep(tags, tags[pgd := Tag(3, 0)], tags', true, pgd, lower, vpn, 3);
    assert (ks + [pgd])[|ks|] == pgd && ks'[..|ks| + 1] == ks + [pgd];
    assert ks'[|ks|..] == [pgd] + lower;
  }

  /** The tables made for a page are determined by the tables there are now. */
  lemma {:induction false} MadeOnce(tags: map<nat, Tag>, tags': map<nat, Tag>, made: seq<nat>, made': seq<nat>,
                                    vpn: nat)
    requires Made(tags, tags', made, vpn) && Made(tags, tags', made', vpn)
    ensures made == made'
  {
    MadeLess(tags, tags', made, made', vpn);
    MadeLess(tags, tags', made', made, vpn);
    forall k | 0 <= k < |made| ensures made[k] == made'[k] {
      var j := MadeAs(tags, tags', made, made', vpn, k);
    }
  }

  lemma {:induction false} MadeAs(tags: map<nat, Tag>, tags': map<nat, Tag>, made: seq<nat>, made': seq<nat>, vpn: nat,
                                  k: nat)
    returns (j: nat)
    requires Made(tags, tags', made, vpn) && Made(tags, tags', made', vpn) && k < |made|
    ensures j < |made'| && made'[j] == made[k] && |made| - k == |made'| - j
  {
    assert made[k] in tags' && made[k] in made';
    j :| 0 <= j < |made'| && made'[j] == made[k];
  }

  lemma {:induction false} MadeLess(tags: map<nat, Tag>, tags': map<nat, Tag>, made: seq<nat>, made': seq<nat>,
                                    vpn: nat)
    requires Made(tags, tags', made, vpn) && Made(tags, tags', made', vpn)
    ensures |made| <= |made'|
  {
    if made != [] { var j := MadeAs(tags, tags', made, made', vpn, 0); }
  }
}
