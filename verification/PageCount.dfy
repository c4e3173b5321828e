/** How many tables an address space has got, and how many more a page needs. */
module PageCount {
  import opened PageTables
  import opened Wrappers

  /** The tables that are missing on the way to page `vpn`, from the table `at` of that level on. */
  function Missing(m: Mem, at: nat, level: nat, vpn: nat): nat
    decreases level
  {
    if level == 0 then 0
    else if at !in m || |m[at]| != PTRS || m[at][Index(vpn, level)] == 0 then level
    else Missing(m, Target(m[at][Index(vpn, level)]), level - 1, vpn)
  }

  /** The same for an address space that may not even have its first-level table. */
  function TablesFor(m: Mem, pgd: nat, vpn: nat): nat { if pgd == 0 then 4 else Missing(m, pgd, 3, vpn) }

  /** It depends on the tables alone. */
  lemma {:induction false} MissingAgrees(m: Mem, m': Mem, tags: map<nat, Tag>, at: nat, level: nat, vpn: nat)
    requires Tables(m, tags) && at in tags && tags[at] == Tag(level, Prefix(vpn, level))
    requires forall p :: p in tags ==> p in m' && m'[p] == m[p]
    ensures Missing(m', at, level, vpn) == Missing(m, at, level, vpn)
    decreases level
  {
    if level > 0 && m[at][Index(vpn, level)] != 0 {
      NextPrefix(vpn, level);
      assert Leads(tags, tags[at], Index(vpn, level), m[at][Index(vpn, level)]);
      MissingAgrees(m, m', tags, Target(m[at][Index(vpn, level)]), level - 1, vpn);
    }
  }

  // ----- counting from the pages -----

  /** None of the pages shares the table of level `l` with page `v`. */
  ghost predicate NewAt(vs: seq<nat>, v: nat, l: nat) { forall j :: 0 <= j < |vs| ==> Prefix(vs[j], l) != Prefix(v, l) }

  /** On how many levels below `l` that is so. */
  ghost function NewTables(vs: seq<nat>, v: nat, l: nat): nat {
    if l == 0 then 0 else NewTables(vs, v, l - 1) + if NewAt(vs, v, l - 1) then 1 else 0
  }

  /** Pages that share a table share those above it. */
  lemma {:induction false} SharedAbove(u: nat, v: nat, l: nat)
    requires l > 0 && Prefix(u, l - 1) == Prefix(v, l - 1)
    ensures Prefix(u, l) == Prefix(v, l) && Index(u, l) == Index(v, l)
  {
    NextPrefix(u, l);
    NextPrefix(v, l);
    SameDigits(Prefix(u, l), Index(u, l), Prefix(v, l), Index(v, l));
  }

  lemma {:induction false} SameDigits(a: nat, i: nat, b: nat, j: nat)
    requires a * PTRS + i == b * PTRS + j && i < PTRS && j < PTRS
    ensures a == b && i == j
  {
  }

  lemma {:induction false} NewBelow(vs: seq<nat>, v: nat, l: nat)
    requires l > 0 && NewAt(vs, v, l - 1)
    ensures NewTables(vs, v, l) == l
  {
    if l > 1 {
      forall j | 0 <= j < |vs| ensures Prefix(vs[j], l - 2) != Prefix(v, l - 2) {
        if Prefix(vs[j], l - 2) == Prefix(v, l - 2) { SharedAbove(vs[j], v, l - 1); }
      }
      NewBelow(vs, v, l - 1);
    }
  }

  /** A table with the tag `t` is on the way to one of the pages. */
  ghost predicate OnTheWay(t: Tag, vs: seq<nat>) { exists j :: 0 <= j < |vs| && Prefix(vs[j], t.level) == t.prefix }

  ghost predicate Lean(tags: map<nat, Tag>, vs: seq<nat>)
  {
    forall p {:trigger OnTheWay(tags[p], vs)} :: p in tags ==> OnTheWay(tags[p], vs)
  }

  ghost predicate HasFrame(m: Mem, at: nat, level: nat, v: nat) { Walk(m, at, level, v) != None }

  /** Of these pages, those below the table `at` have a frame. */
  ghost predicate MappedBelow(m: Mem, at: nat, level: nat, vs: seq<nat>, v: nat) {
    forall j {:trigger HasFrame(m, at, level, vs[j])} :: 0 <= j < |vs| && Prefix(vs[j], level) == Prefix(v, level) ==>
      HasFrame(m, at, level, vs[j])
  }

  /** A table is missing if and only if page `v` shares it with none of the pages that have a frame. */
  lemma {:induction false} MissingIs(m: Mem, tags: map<nat, Tag>, at: nat, level: nat, vs: seq<nat>, v: nat)
    requires Tables(m, tags) && at in tags && tags[at] == Tag(level, Prefix(v, level)) && Lean(tags, vs)
             && MappedBelow(m, at, level, vs, v)
    ensures Missing(m, at, level, v) == NewTables(vs, v, level)
    decreases level
  {
    if level > 0 {
      var e, l := m[at][Index(v, level)], level - 1;
      forall j | 0 <= j < |vs| && Prefix(vs[j], l) == Prefix(v, l) ensures e != 0 && HasFrame(m, Target(e), l, vs[j]) {
        SharedAbove(vs[j], v, level);
        assert HasFrame(m, at, level, vs[j]);
      }
      if e == 0 {
        NewBelow(vs, v, level);
      } else {
        NextPrefix(v, level);
        assert Leads(tags, tags[at], Index(v, level), e);
        assert OnTheWay(tags[Target(e)], vs) && !NewAt(vs, v, l);
        MissingIs(m, tags, Target(e), l, vs, v);
      }
    }
  }

  /** An address space with tables for the pages `vs`, all of which have a frame, and for no others. */
  ghost predicate Serves(m: Mem, pgd: nat, tags: map<nat, Tag>, vs: seq<nat>) {
    && (pgd == 0 <==> vs == []) && Lean(tags, vs)
    && forall j {:trigger HasFrame(m, pgd, 3, vs[j])} :: 0 <= j < |vs| ==> vs[j] < Span(4) && HasFrame(m, pgd, 3, vs[j])
  }

  lemma {:induction false} TablesForIs(m: Mem, tags: map<nat, Tag>, pgd: nat, vs: seq<nat>, v: nat)
    requires Tables(m, tags) && (pgd != 0 ==> pgd in tags && tags[pgd] == Tag(3, 0)) && Serves(m, pgd, tags, vs)
             && v < Span(4)
    ensures TablesFor(m, pgd, v) == NewTables(vs, v, 4)
  {
    if pgd == 0 {
      NewBelow(vs, v, 4);
    } else {
      RootPrefix(v);
      assert HasFrame(m, pgd, 3, vs[0]);
      RootPrefix(vs[0]);
      MissingIs(m, tags, pgd, 3, vs, v);
      assert !NewAt(vs, v, 3);
    }
  }

  /** Another page, and the tables that were missing on its way. */
  lemma {:induction false} ServesMore(m: Mem, pgd: nat, tags: map<nat, Tag>, vs: seq<nat>, m': Mem, pgd': nat,
                                      tags': map<nat, Tag>, v: nat)
    requires Serves(m, pgd, tags, vs) && v < Span(4) && pgd' != 0
    requires forall p :: p in tags' ==>
               (p in tags && tags'[p] == tags[p]) || tags'[p].prefix == Prefix(v, tags'[p].level)
    requires forall j {:trigger HasFrame(m', pgd', 3, vs[j])} :: 0 <= j < |vs| ==> HasFrame(m', pgd', 3, vs[j])
    requires HasFrame(m', pgd', 3, v)
    ensures Serves(m', pgd', tags', vs + [v])
  {
    var vs' := vs + [v];
    forall p | p in tags' ensures OnTheWay(tags'[p], vs') {
      if p in tags && tags'[p] == tags[p] {
        assert OnTheWay(tags[p], vs);
        var j :| 0 <= j < |vs| && Prefix(vs[j], tags[p].level) == tags[p].prefix;
        assert vs'[j] == vs[j];
      } else {
        assert vs'[|vs|] == v;
      }
    }
    forall j | 0 <= j < |vs'| ensures vs'[j] < Span(4) && HasFrame(m', pgd', 3, vs'[j]) {
      if j < |vs| { assert HasFrame(m, pgd, 3, vs[j]) && HasFrame(m', pgd', 3, vs[j]); }
    }
  }

  // ----- a whole address space -----

  /** The pages of memory that an address space with the pages `vs` takes, frames and tables. */
  ghost function PagesFor(vs: seq<nat>): nat {
    if vs == [] then 0
    else var n := |vs| - 1; PagesFor(vs[..n]) + 1 + NewTables(vs[..n], vs[n], 4)
  }

  /** The tables of level `l` that they need. */
  ghost function TablesAt(vs: seq<nat>, l: nat): set<nat> { set j | 0 <= j < |vs| :: Prefix(vs[j], l) }

  ghost function TablesBelow(vs: seq<nat>, l: nat): nat
  {
    if l == 0 then 0 else TablesBelow(vs, l - 1) + |TablesAt(vs, l - 1)|
  }

  lemma {:induction false} OneMoreAt(vs: seq<nat>, v: nat, l: nat)
    ensures |TablesAt(vs + [v], l)| == |TablesAt(vs, l)| + if NewAt(vs, v, l) then 1 else 0
  {
    var vs' := vs + [v];
    assert vs'[|vs|] == v;
    forall x | x in TablesAt(vs, l) ensures x in TablesAt(vs', l) {
      var j :| 0 <= j < |vs| && x == Prefix(vs[j], l);
      assert vs'[j] == vs[j];
    }
    assert TablesAt(vs', l) == TablesAt(vs, l) + {Prefix(v, l)};
    if !NewAt(vs, v, l) {
      var j :| 0 <= j < |vs| && Prefix(vs[j], l) == Prefix(v, l);
      assert TablesAt(vs', l) == TablesAt(vs, l);
    }
  }

  lemma {:induction false} OneMoreBelow(vs: seq<nat>, v: nat, l: nat)
    ensures TablesBelow(vs + [v], l) == TablesBelow(vs, l) + NewTables(vs, v, l)
  {
    if l > 0 {
      OneMoreBelow(vs, v, l - 1);
      OneMoreAt(vs, v, l - 1);
    }
  }

  /** One page for each frame, and for each of the four levels as many as the pages have different tables there. */
  lemma {:induction false} PagesForIs(vs: seq<nat>)
    ensures PagesFor(vs) == |vs| + TablesBelow(vs, 4)
  {
    if vs == [] {
      NoTables(vs, 4);
    } else {
      var n := |vs| - 1;
      PagesForIs(vs[..n]);
      OneMoreBelow(vs[..n], vs[n], 4);
      assert vs == vs[..n] + [vs[n]];
    }
  }

  lemma {:induction false} NoTables(vs: seq<nat>, l: nat)
    requires vs == []
    ensures TablesBelow(vs, l) == 0
  {
    if l > 0 {
      NoTables(vs, l - 1);
      assert TablesAt(vs, l - 1) == {};
    }
  }

  lemma {:induction false} PagesGrow(vs: seq<nat>, j: nat, k: nat)
    requires j <= k <= |vs|
    ensures PagesFor(vs[..j]) <= PagesFor(vs[..k]) && (j < k ==> PagesFor(vs[..j]) < PagesFor(vs[..k]))
    decreases k - j
  {
    if j < k {
      PagesGrow(vs, j, k - 1);
      assert vs[..k][..k - 1] == vs[..k - 1];
    }
  }
}
