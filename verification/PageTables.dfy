/** Four levels of translation tables as src/mm.c lays them out in memory. */
module PageTables {
  import opened Arith
  import opened Fixed
  import opened Wrappers

  const PAGE_SIZE := 4096
  const PTRS := 512
  /** `MM_TYPE_PAGE_TABLE` and `MMU_PTE_FLAGS` */
  const TABLE_FLAGS := 0x3
  const PTE_FLAGS := 0x447

  type Page = seq<u64>
  type Mem = map<nat, Page>

  function EmptyPage(): Page { seq(PTRS, i => 0) }

  /** How many pages lie below one entry of a table at that level. */
  function Span(level: nat): (n: nat)
    ensures n > 0
  {
    if level == 0 then 1 else PTRS * Span(level - 1)
  }

  /** The index into the table at that level, and the number of the table among those of its level. */
  function Index(vpn: nat, level: nat): (k: nat)
    ensures k < PTRS
  {
    vpn / Span(level) % PTRS
  }

  function Prefix(vpn: nat, level: nat): nat { vpn / Span(level) / PTRS }

  /** The address in an entry, `entry & PAGE_MASK` */
  function Target(e: u64): nat { e - e % PAGE_SIZE }

  /** What the hardware finds for page number `vpn`, from the table `at` of that level on. */
  function Walk(m: Mem, at: nat, level: nat, vpn: nat): Option<nat>
    decreases level
  {
    if at !in m || |m[at]| != PTRS || m[at][Index(vpn, level)] == 0 then None
    else
      var next := Target(m[at][Index(vpn, level)]);
      if level == 0 then Some(next) else Walk(m, next, level - 1, vpn)
  }

  // ----- tables -----

  /** The level of a table, and its number among those of the level. */
  datatype Tag = Tag(level: nat, prefix: nat)

  /** Every table of the address space is reached in one way only: by the entries that lead to its tag. */
  ghost predicate Tables(m: Mem, tags: map<nat, Tag>) {
    && (forall p :: p in tags ==> p in m && |m[p]| == PTRS && p % PAGE_SIZE == 0 && p > 0 && tags[p].level <= 3)
    && (forall p, k :: p in tags && 0 <= k < PTRS && tags[p].level > 0 && m[p][k] != 0 ==>
          Leads(tags, tags[p], k, m[p][k]))
  }

  /** Entry `k` of a table with the tag `t` leads to the table that belongs there. */
  ghost predicate Leads(tags: map<nat, Tag>, t: Tag, k: nat, e: u64)
    requires t.level > 0
  {
    e % PAGE_SIZE == TABLE_FLAGS && Target(e) in tags && tags[Target(e)] == Tag(t.level - 1, t.prefix * PTRS + k)
  }

  lemma {:induction false} NextPrefix(vpn: nat, level: nat)
    requires level > 0
    ensures Prefix(vpn, level) * PTRS + Index(vpn, level) == Prefix(vpn, level - 1)
  {
    DivDiv(vpn, Span(level - 1), PTRS);
  }

  lemma {:induction false} DivDiv(x: nat, a: nat, b: nat)
    requires a > 0 && b > 0
    ensures b * a > 0 && x / (b * a) == x / a / b
  {
    var q, r := x / a, x % a;
    DivDivIs(x, a, b, q, r, q / b, q % b);
  }

  lemma {:induction false} DivDivIs(x: nat, a: nat, b: nat, q: nat, r: nat, q': nat, r': nat)
    requires a > 0 && x == q * a + r && r < a && q == q' * b + r' && r' < b
    ensures b * a > 0 && x / (b * a) == q'
  {
    MulAtLeast(b, a);
    Expand(q', b, r', a);
    MulUp(r' + 1, a, b, a);
    assert (r' + 1) * a == r' * a + a;
    DivModIs(x, q', r' * a + r, b * a);
  }

  lemma {:induction false} Expand(q: nat, b: nat, r: nat, a: nat)
    ensures (q * b + r) * a == q * (b * a) + r * a
  {
  }

  /** Two page numbers with the same way down are the same. */
  lemma {:induction false} SamePage(vpn: nat, v: nat)
    requires Prefix(vpn, 0) == Prefix(v, 0) && Index(vpn, 0) == Index(v, 0)
    ensures vpn == v
  {
  }

  /** The way to page `vpn` leads through entry `k` of a table with the tag `t`. */
  predicate Passes(vpn: nat, t: Tag, k: nat) { Prefix(vpn, t.level) == t.prefix && Index(vpn, t.level) == k }

  /** A walk that does not pass an entry does not notice that it changes, nor what happens to other pages. */
  lemma {:induction false} WalkStays(m: Mem, m': Mem, tags: map<nat, Tag>, at: nat, level: nat, vpn: nat, q: nat,
                                     k: nat)
    requires Tables(m, tags) && at in tags && tags[at] == Tag(level, Prefix(vpn, level))
    requires forall p :: p in tags && p != q ==> p in m' && m'[p] == m[p]
    requires q in tags ==>
               && k < PTRS && q in m' && |m'[q]| == PTRS && !Passes(vpn, tags[q], k)
               && (forall j :: 0 <= j < PTRS && j != k ==> m'[q][j] == m[q][j])
    ensures Walk(m', at, level, vpn) == Walk(m, at, level, vpn)
    decreases level
  {
    var i := Index(vpn, level);
    assert m'[at][i] == m[at][i];
    if level > 0 && m[at][i] != 0 {
      NextPrefix(vpn, level);
      assert Leads(tags, tags[at], i, m[at][i]);
      WalkStays(m, m', tags, Target(m[at][i]), level - 1, vpn, q, k);
    }
  }

  // ----- a new table -----

  function WithEntry(m: Mem, t: nat, k: nat, e: u64): Mem
    requires t in m && k < |m[t]|
  {
    var page: Page := m[t][k := e];
    m[t := page]
  }

  lemma {:induction false} TargetOf(n: nat, flags: nat)
    requires n % PAGE_SIZE == 0 && flags < PAGE_SIZE && n + flags < TWO_64
    ensures Target(n + flags) == n && (n + flags) % PAGE_SIZE == flags
  {
  }

  /** The table `n`, which is empty, below entry `k` of the table `t`. */
  lemma {:induction false} NewTable(m: Mem, tags: map<nat, Tag>, t: nat, k: nat, n: nat)
    requires Tables(m, tags) && t in tags && tags[t].level > 0 && k < PTRS && m[t][k] == 0
    requires n !in tags && n % PAGE_SIZE == 0 && 0 < n && n + TABLE_FLAGS < TWO_64
    ensures Tables(WithEntry(m[n := EmptyPage()], t, k, n + TABLE_FLAGS),
            tags[n := Tag(tags[t].level - 1, tags[t].prefix * PTRS + k)])
  {
    var m' := WithEntry(m[n := EmptyPage()], t, k, n + TABLE_FLAGS);
    var tags' := tags[n := Tag(tags[t].level - 1, tags[t].prefix * PTRS + k)];
    TargetOf(n, TABLE_FLAGS);
    forall p, j | p in tags' && 0 <= j < PTRS && tags'[p].level > 0 && m'[p][j] != 0
        ensures Leads(tags', tags'[p], j, m'[p][j]) {
      if !(p == t && j == k) {
        assert p in tags && m'[p][j] == m[p][j];
        assert Leads(tags, tags[p], j, m[p][j]);
      }
    }
  }

  /** A new table changes no translation: what led to nothing leads to an empty table. */
  lemma {:induction false} NewTableWalk(m: Mem, tags: map<nat, Tag>, t: nat, k: nat, n: nat, at: nat, level: nat,
                                        v: nat)
    requires Tables(m, tags) && t in tags && tags[t].level > 0 && k < PTRS && m[t][k] == 0
    requires n !in tags && n % PAGE_SIZE == 0 && 0 < n && n + TABLE_FLAGS < TWO_64
    requires at in tags && tags[at] == Tag(level, Prefix(v, level))
    ensures Walk(WithEntry(m[n := EmptyPage()], t, k, n + TABLE_FLAGS), at, level, v) == Walk(m, at, level, v)
    decreases level
  {
    var m', i := WithEntry(m[n := EmptyPage()], t, k, n + TABLE_FLAGS), Index(v, level);
    if at == t && i == k {
      TargetOf(n, TABLE_FLAGS);
      assert m'[n] == EmptyPage();
    } else if level > 0 && m[at][i] != 0 {
      NextPrefix(v, level);
      assert Leads(tags, tags[at], i, m[at][i]);
      NewTableWalk(m, tags, t, k, n, Target(m[at][i]), level - 1, v);
    }
  }

  // ----- the way to a table -----

  /** The way down from `at` to page `vpn` comes to the table `t` at level `l`. */
  predicate Reaches(m: Mem, at: nat, level: nat, vpn: nat, t: nat, l: nat)
    decreases level
  {
    if level <= l then at == t && level == l
    else
      && at in m && |m[at]| == PTRS && m[at][Index(vpn, level)] != 0
      && Reaches(m, Target(m[at][Index(vpn, level)]), level - 1, vpn, t, l)
  }

  lemma {:induction false} ReachesWalk(m: Mem, at: nat, level: nat, vpn: nat, t: nat, l: nat)
    requires Reaches(m, at, level, vpn, t, l)
    ensures Walk(m, at, level, vpn) == Walk(m, t, l, vpn)
    decreases level
  {
    if level > l { ReachesWalk(m, Target(m[at][Index(vpn, level)]), level - 1, vpn, t, l); }
  }

  lemma {:induction false} ReachesNext(m: Mem, at: nat, level: nat, vpn: nat, t: nat, l: nat)
    requires Reaches(m, at, level, vpn, t, l) && l > 0 && t in m && |m[t]| == PTRS && m[t][Index(vpn, l)] != 0
    ensures Reaches(m, at, level, vpn, Target(m[t][Index(vpn, l)]), l - 1)
    decreases level
  {
    if level > l { ReachesNext(m, Target(m[at][Index(vpn, level)]), level - 1, vpn, t, l); }
  }

  /** The way to a table depends on the tables above it. */
  lemma {:induction false} ReachesStays(m: Mem, m': Mem, tags: map<nat, Tag>, at: nat, level: nat, vpn: nat, t: nat,
                                        l: nat)
    requires Tables(m, tags) && at in tags && tags[at] == Tag(level, Prefix(vpn, level))
             && Reaches(m, at, level, vpn, t, l)
    requires forall p :: p in tags && tags[p].level > l ==> p in m' && m'[p] == m[p]
    ensures Reaches(m', at, level, vpn, t, l) && t in tags && tags[t] == Tag(l, Prefix(vpn, l))
    decreases level
  {
    if level > l {
      NextPrefix(vpn, level);
      assert Leads(tags, tags[at], Index(vpn, level), m[at][Index(vpn, level)]);
      ReachesStays(m, m', tags, Target(m[at][Index(vpn, level)]), level - 1, vpn, t, l);
    }
  }

  /** The whole effect of `map_table` where the table is missing. */
  lemma {:induction false} TableAdded(m: Mem, tags: map<nat, Tag>, root: nat, vpn: nat, t: nat, l: nat, n: nat)
    requires Tables(m, tags) && root in tags && tags[root] == Tag(3, 0) && vpn < Span(4)
             && Reaches(m, root, 3, vpn, t, l) && 0 < l <= 3
    requires t in m && |m[t]| == PTRS && m[t][Index(vpn, l)] == 0 && n !in tags && n % PAGE_SIZE == 0 && 0 < n
             && n + TABLE_FLAGS < TWO_64
    ensures t in tags && tags[t].level == l
    ensures var m' := WithEntry(m[n := EmptyPage()], t, Index(vpn, l), n + TABLE_FLAGS);
            && Tables(m', tags[n := Tag(l - 1, tags[t].prefix * PTRS + Index(vpn, l))])
            && Reaches(m', root, 3, vpn, n, l - 1)
            && forall v :: 0 <= v < Span(4) ==> Walk(m', root, 3, v) == Walk(m, root, 3, v)
  {
    var k := Index(vpn, l);
    var m' := WithEntry(m[n := EmptyPage()], t, k, n + TABLE_FLAGS);
    RootPrefix(vpn);
    ReachesStays(m, m, tags, root, 3, vpn, t, l);
    NewTable(m, tags, t, k, n);
    forall v | 0 <= v < Span(4) ensures Walk(m', root, 3, v) == Walk(m, root, 3, v) {
      RootPrefix(v);
      NewTableWalk(m, tags, t, k, n, root, 3, v);
    }
    ReachesStays(m, m', tags, root, 3, vpn, t, l);
    TargetOf(n, TABLE_FLAGS);
    ReachesNext(m', root, 3, vpn, t, l);
  }

  // ----- the last entry -----

  lemma {:induction false} EntryTables(m: Mem, tags: map<nat, Tag>, t: nat, k: nat, e: u64)
    requires Tables(m, tags) && t in tags && tags[t].level == 0 && k < PTRS
    ensures Tables(WithEntry(m, t, k, e), tags)
  {
    var m' := WithEntry(m, t, k, e);
    forall p, j | p in tags && 0 <= j < PTRS && tags[p].level > 0 && m'[p][j] != 0
        ensures Leads(tags, tags[p], j, m'[p][j]) {
      assert m'[p] == m[p];
    }
  }

  /** The entry that `map_table_entry` writes gives page `vpn` its frame, and no other page another one. */
  lemma {:induction false} EntryWalk(m: Mem, tags: map<nat, Tag>, root: nat, t: nat, vpn: nat, frame: nat, v: nat)
    requires Tables(m, tags) && root in tags && tags[root] == Tag(3, 0) && vpn < Span(4) && v < Span(4)
    requires Reaches(m, root, 3, vpn, t, 0) && frame % PAGE_SIZE == 0 && frame + PTE_FLAGS < TWO_64
    ensures t in tags && tags[t].level == 0
    ensures Walk(WithEntry(m, t, Index(vpn, 0), frame + PTE_FLAGS), root, 3, v) == if v == vpn then Some(frame)
            else Walk(m, root, 3, v)
  {
    RootPrefix(vpn);
    RootPrefix(v);
    ReachesStays(m, m, tags, root, 3, vpn, t, 0);
    var k, e := Index(vpn, 0), frame + PTE_FLAGS;
    var m' := WithEntry(m, t, k, e);
    if v == vpn {
      ReachesStays(m, m', tags, root, 3, vpn, t, 0);
      ReachesWalk(m', root, 3, vpn, t, 0);
      TargetOf(frame, PTE_FLAGS);
    } else {
      if Passes(v, tags[t], k) { SamePage(vpn, v); }
      WalkStays(m, m', tags, root, 3, v, t, k);
    }
  }

  lemma {:induction false} EntryAdded(m: Mem, tags: map<nat, Tag>, root: nat, t: nat, vpn: nat, frame: nat)
    requires Tables(m, tags) && root in tags && tags[root] == Tag(3, 0) && vpn < Span(4)
    requires Reaches(m, root, 3, vpn, t, 0) && frame % PAGE_SIZE == 0 && frame + PTE_FLAGS < TWO_64
    ensures t in tags && Tables(WithEntry(m, t, Index(vpn, 0), frame + PTE_FLAGS), tags)
    ensures forall v :: 0 <= v < Span(4) ==>
              Walk(WithEntry(m, t, Index(vpn, 0), frame + PTE_FLAGS), root, 3, v) == if v == vpn then Some(frame)
                  else Walk(m, root, 3, v)
  {
    EntryWalk(m, tags, root, t, vpn, frame, vpn);
    EntryTables(m, tags, t, Index(vpn, 0), frame + PTE_FLAGS);
    forall v | 0 <= v < Span(4)
      ensures Walk(WithEntry(m, t, Index(vpn, 0), frame + PTE_FLAGS), root, 3, v) == if v == vpn then Some(frame)
              else Walk(m, root, 3, v)
    {
      EntryWalk(m, tags, root, t, vpn, frame, v);
    }
  }

  lemma {:induction false} RootPrefix(v: nat)
    requires v < Span(4)
    ensures Prefix(v, 3) == 0
  {
    DivDiv(v, Span(3), PTRS);
  }

  /** A walk depends on the tables alone. */
  lemma {:induction false} WalkAgrees(m: Mem, m': Mem, tags: map<nat, Tag>, at: nat, level: nat, vpn: nat)
    requires Tables(m, tags) && at in tags && tags[at] == Tag(level, Prefix(vpn, level))
    requires forall p :: p in tags ==> p in m' && m'[p] == m[p]
    ensures Walk(m', at, level, vpn) == Walk(m, at, level, vpn)
    decreases level
  {
    if level > 0 && m[at][Index(vpn, level)] != 0 {
      NextPrefix(vpn, level);
      assert Leads(tags, tags[at], Index(vpn, level), m[at][Index(vpn, level)]);
      WalkAgrees(m, m', tags, Target(m[at][Index(vpn, level)]), level - 1, vpn);
    }
  }
}
