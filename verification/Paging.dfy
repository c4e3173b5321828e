/** src/mm.c: the pages of memory, and the address spaces built from them. */
module Paging {
  import opened Fixed
  import opened PageCount
  import opened PageLists
  import opened PageTables
  import opened Wrappers

  const LOW_MEMORY := 0x40_0000

  function Addr(i: nat): nat { LOW_MEMORY + i * PAGE_SIZE }

  /** How many entries of `mem_map` are clear. */
  function FreeIn(used: seq<bool>): nat { if used == [] then 0 else FreeIn(used[1..]) + if used[0] then 0 else 1 }

  /** The first page whose entry is clear. */
  ghost predicate Lowest(used: seq<bool>, page: nat) {
    exists i :: 0 <= i < |used| && !used[i] && page == Addr(i) && forall k :: 0 <= k < i ==> used[k]
  }

  ghost function UsedPages(used: seq<bool>): set<nat> { set i | 0 <= i < |used| && used[i] :: Addr(i) }

  lemma {:induction false} TakePage(used: seq<bool>, i: nat)
    requires i < |used| && !used[i]
    ensures Addr(i) !in UsedPages(used) && UsedPages(used[i := true]) == UsedPages(used) + {Addr(i)}
  {
    var used' := used[i := true];
    forall p | p in UsedPages(used) + {Addr(i)} ensures p in UsedPages(used') {
      var j :| 0 <= j < |used'| && used'[j] && p == Addr(j);
    }
  }

  lemma {:induction false} DropPage(used: seq<bool>, i: nat)
    requires i < |used|
    ensures UsedPages(used[i := false]) == UsedPages(used) - {Addr(i)}
  {
    forall p | p in UsedPages(used) - {Addr(i)} ensures p in UsedPages(used[i := false]) {
      var j :| 0 <= j < |used| && used[j] && p == Addr(j);
      assert used[i := false][j];
    }
  }

  lemma {:induction false} TakeOne(used: seq<bool>, i: nat)
    requires i < |used| && !used[i]
    ensures FreeIn(used[i := true]) + 1 == FreeIn(used)
  {
    if i > 0 {
      TakeOne(used[1..], i - 1);
      assert used[i := true][1..] == used[1..][i - 1 := true];
    } else {
      assert used[i := true][1..] == used[1..];
    }
  }

  lemma {:induction false} DropOne(used: seq<bool>, i: nat)
    requires i < |used| && used[i]
    ensures FreeIn(used[i := false]) == FreeIn(used) + 1
  {
    var used' := used[i := false];
    TakeOne(used', i);
    assert used'[i := true] == used;
  }

  lemma {:induction false} NoneFree(used: seq<bool>)
    requires forall i :: 0 <= i < |used| ==> used[i]
    ensures FreeIn(used) == 0
  {
    if used != [] { NoneFree(used[1..]); }
  }

  lemma {:induction false} SameTables(m: Mem, m': Mem, tags: map<nat, Tag>, pgd: nat)
    requires Tables(m, tags) && (pgd != 0 ==> pgd in tags && tags[pgd] == Tag(3, 0))
             && forall p :: p in tags ==> p in m' && m'[p] == m[p]
    ensures Tables(m', tags) && forall v :: 0 <= v < Span(4) ==> Frame(m', pgd, v) == Frame(m, pgd, v)
  {
    forall p, k | p in tags && 0 <= k < PTRS && tags[p].level > 0 && m'[p][k] != 0
        ensures Leads(tags, tags[p], k, m'[p][k]) {
      assert m'[p][k] == m[p][k];
    }
    if pgd != 0 {
      forall v | 0 <= v < Span(4) ensures Walk(m', pgd, 3, v) == Walk(m, pgd, 3, v) {
        RootPrefix(v);
        WalkAgrees(m, m', tags, pgd, 3, v);
      }
    }
  }

  lemma {:induction false} MissingSame(m: Mem, m': Mem, tags: map<nat, Tag>, pgd: nat, v: nat)
    requires Tables(m, tags) && (pgd != 0 ==> pgd in tags && tags[pgd] == Tag(3, 0))
             && (forall p :: p in tags ==> p in m' && m'[p] == m[p]) && v < Span(4)
    ensures TablesFor(m', pgd, v) == TablesFor(m, pgd, v)
  {
    if pgd != 0 {
      RootPrefix(v);
      MissingAgrees(m, m', tags, pgd, 3, v);
    }
  }

  /** An entry of `user_pages` */
  datatype UserPage = UserPage(frame: nat, va: u64)

  /** The frame of page number `v`, if it has one. */
  ghost function Frame(m: Mem, pgd: nat, v: nat): Option<nat> { if pgd == 0 then None else Walk(m, pgd, 3, v) }

  /** Page `c` of the copy: at the address of `u`, in a frame that was not in use when the memory was `m0`, with the
      contents that the frame of `u` had then. */
  ghost predicate Copy(m0: Mem, used0: set<nat>, m: Mem, used: set<nat>, pgd: nat, tags: map<nat, Tag>, u: UserPage,
                       c: UserPage) {
    && c.va == u.va && Frame(m, pgd, u.va / PAGE_SIZE) == Some(c.frame) && c.frame in used - used0 - tags.Keys
    && u.frame in m0 && c.frame in m && m[c.frame] == m0[u.frame]
  }

  /** The pages `cs` are copies of the first ones of `us`, in different frames, and no other page has one. */
  ghost predicate Copies(us: seq<UserPage>, m0: Mem, used0: set<nat>, m: Mem, used: set<nat>, pgd: nat,
                         tags: map<nat, Tag>, cs: seq<UserPage>) {
    && |cs| <= |us| && tags.Keys !! used0 && used0 <= used
    && (forall p :: p in used0 && p in m0 ==> p in m && m[p] == m0[p])
    && (forall j :: 0 <= j < |cs| ==> Copy(m0, used0, m, used, pgd, tags, us[j], cs[j]))
    && (forall i, j :: 0 <= i < j < |cs| ==> cs[i].frame != cs[j].frame)
    && (forall v :: 0 <= v < Span(4) && (forall j :: 0 <= j < |cs| ==> v != us[j].va / PAGE_SIZE) ==>
          Frame(m, pgd, v) == None)
  }

  /** Their page numbers. */
  function Numbers(us: seq<UserPage>): (vs: seq<nat>)
    ensures |vs| == |us|
  {
    seq(|us|, j requires 0 <= j < |us| => us[j].va / PAGE_SIZE)
  }

  /** Free pages enough for all of `vs`, or exactly for the first few of them. */
  ghost predicate AtFrame(vs: seq<nat>, free: nat)
  {
    free >= PagesFor(vs) || exists k :: 0 <= k < |vs| && free == PagesFor(vs[..k])
  }

  /** When none are left, or there are pages enough for the next frame and its tables. */
  lemma {:induction false} RoomForNext(vs: seq<nat>, free: nat, i: nat) returns (need: nat)
    requires i < |vs| && AtFrame(vs, free) && free >= PagesFor(vs[..i])
    ensures need == 1 + NewTables(vs[..i], vs[i], 4) && PagesFor(vs[..i + 1]) == PagesFor(vs[..i]) + need
    ensures (free == PagesFor(vs[..i]) || free >= PagesFor(vs[..i]) + need) && vs[..i + 1] == vs[..i] + [vs[i]]
  {
    need := 1 + NewTables(vs[..i], vs[i], 4);
    assert vs[..i + 1][..i] == vs[..i];
    assert vs[..|vs|] == vs;
    PagesGrow(vs, i + 1, |vs|);
    if free < PagesFor(vs) {
      var k :| 0 <= k < |vs| && free == PagesFor(vs[..k]);
      if k < i { PagesGrow(vs, k, i); }
      if i < k { PagesGrow(vs, i + 1, k); }
    }
  }

  lemma {:induction false} AllCopied(vs: seq<nat>, i: nat, ok: bool, before: nat, now: nat)
    requires i <= |vs| && now + PagesFor(vs[..i]) == before && (if ok then i == |vs| else i < |vs| && now == 0)
    ensures ok <==> before >= PagesFor(vs)
  {
    assert vs[..|vs|] == vs;
    PagesGrow(vs, i, |vs|);
  }

  /** The pages to be copied, each at an address of its own. */
  ghost predicate Sources(us: seq<UserPage>, m0: Mem, used0: set<nat>) {
    && (forall j :: 0 <= j < |us| ==>
          us[j].va / PAGE_SIZE < Span(4) && us[j].frame in used0 && us[j].frame in m0 && |m0[us[j].frame]| == PTRS)
    && forall i, j :: 0 <= i < j < |us| ==> us[i].va / PAGE_SIZE != us[j].va / PAGE_SIZE
  }

  lemma {:induction false} OneMoreCopy(us: seq<UserPage>, m0: Mem, used0: set<nat>, m: Mem, used: set<nat>, pgd: nat,
                                       tags: map<nat, Tag>, cs: seq<UserPage>,
                                       m': Mem, used': set<nat>, pgd': nat, tags': map<nat, Tag>, page: nat)
    requires Copies(us, m0, used0, m, used, pgd, tags, cs) && |cs| < |us|
    requires Sources(us, m0, used0) && us[|cs|].frame in m
    requires used <= used' && (tags'.Keys - tags.Keys) !! used
             && forall p :: p in used && p !in tags && p in m ==> p in m' && m'[p] == m[p]
    requires page !in used && page in used' && page !in tags' && page in m' && m'[page] == m[us[|cs|].frame]
    requires forall v :: 0 <= v < Span(4) ==>
               Frame(m', pgd', v) == if v == us[|cs|].va / PAGE_SIZE then Some(page) else Frame(m, pgd, v)
    ensures Copies(us, m0, used0, m', used', pgd', tags', cs + [UserPage(page, us[|cs|].va)])
  {
    var n := |cs|;
    var cs' := cs + [UserPage(page, us[n].va)];
    forall j | 0 <= j < n ensures Copy(m0, used0, m', used', pgd', tags', us[j], cs'[j]) {
      assert Copy(m0, used0, m, used, pgd, tags, us[j], cs[j]);
    }
    forall i, j | 0 <= i < j < |cs'| ensures cs'[i].frame != cs'[j].frame {
      assert Copy(m0, used0, m, used, pgd, tags, us[i], cs[i]);
    }
    forall v | 0 <= v < Span(4) && (forall j :: 0 <= j < |cs'| ==> v != us[j].va / PAGE_SIZE)
        ensures Frame(m', pgd', v) == None {
      assert v != us[n].va / PAGE_SIZE;
    }
  }

  /** The next frame to be copied is still there, and is not a table of the copy. */
  lemma {:induction false} SourceReady(us: seq<UserPage>, i: nat, m0: Mem, used0: set<nat>, m: Mem, used: set<nat>,
                                       pgd: nat, tags: map<nat, Tag>, cs: seq<UserPage>)
    requires i < |us| && Sources(us, m0, used0) && Copies(us, m0, used0, m, used, pgd, tags, cs)
    ensures us[i].va / PAGE_SIZE < Span(4) && us[i].frame in used && us[i].frame !in tags && us[i].frame in m
            && |m[us[i].frame]| == PTRS
  {
    assert us[i].frame in used0;
  }

  lemma {:induction false} FramesKept(m: Mem, pgd: nat, tags: map<nat, Tag>, m': Mem, pgd': nat, vs: seq<nat>, v: nat,
                                      page: nat)
    requires Serves(m, pgd, tags, vs) && v < Span(4) && pgd' != 0
    requires forall u :: 0 <= u < Span(4) ==> Frame(m', pgd', u) == if u == v then Some(page) else Frame(m, pgd, u)
    ensures (forall j {:trigger HasFrame(m', pgd', 3, vs[j])} :: 0 <= j < |vs| ==> HasFrame(m', pgd', 3, vs[j]))
            && HasFrame(m', pgd', 3, v)
  {
    forall j | 0 <= j < |vs| ensures HasFrame(m', pgd', 3, vs[j]) {
      assert HasFrame(m, pgd, 3, vs[j]);
      assert Frame(m', pgd', vs[j]) != None;
    }
    assert Frame(m', pgd', v) == Some(page);
  }

  /** The way to page `vpn` leads to the table `next` of level `l`; any new tables are on that way, and nothing else has
      changed. */
  ghost predicate LedTo(m: Mem, used: set<nat>, m': Mem, used': set<nat>, root: nat, tags: map<nat, Tag>,
                        tags': map<nat, Tag>, vpn: nat, next: nat, l: nat) {
    && used <= used' && (forall p :: p in used && p !in tags && p in m ==> p in m' && m'[p] == m[p])
    && Tables(m', tags') && tags'.Keys <= used' && (forall p :: p in tags ==> p in tags' && tags'[p] == tags[p])
    && (tags'.Keys - tags.Keys) !! used
    && (forall p :: p in tags' && p !in tags ==> tags'[p].prefix == Prefix(vpn, tags'[p].level))
    && Reaches(m', root, 3, vpn, next, l)
    && (forall v :: 0 <= v < Span(4) ==> Walk(m', root, 3, v) == Walk(m, root, 3, v))
  }

  /** What a new table at `n`, entered into `t`, leaves as it was. */
  lemma {:induction false} NewFrame(m: Mem, used: set<nat>, tags: map<nat, Tag>, vpn: nat, t: nat, k: nat, w: u64,
                                    n: nat, level: nat, m': Mem, used': set<nat>, tags': map<nat, Tag>)
    requires t in m && t in tags && k < PTRS && |m[t]| == PTRS && tags.Keys <= used && n !in used && used' == used + {n}
    requires m' == WithEntry(m[n := EmptyPage()], t, k, w) && tags' == tags[n := Tag(level, Prefix(vpn, level))]
    ensures used <= used' && forall p :: p in used && p !in tags && p in m ==> p in m' && m'[p] == m[p]
    ensures tags'.Keys <= used' && forall p :: p in tags ==> p in tags' && tags'[p] == tags[p]
    ensures (tags'.Keys - tags.Keys) !! used
    ensures forall p :: p in tags' && p !in tags ==> tags'[p].prefix == Prefix(vpn, tags'[p].level)
    ensures Missing(m', n, level, vpn) == level
  {
    assert m'[n] == EmptyPage();
  }

  lemma {:induction false} NewTableLed(m: Mem, used: set<nat>, tags: map<nat, Tag>, root: nat, vpn: nat, t: nat, l: nat,
                                       n: nat, m': Mem, used': set<nat>, tags': map<nat, Tag>)
    requires Tables(m, tags) && root in tags && tags[root] == Tag(3, 0) && vpn < Span(4)
             && Reaches(m, root, 3, vpn, t, l) && 0 < l <= 3
    requires t in tags && m[t][Index(vpn, l)] == 0 && tags.Keys <= used
    requires n !in used && n % PAGE_SIZE == 0 && 0 < n && n + TABLE_FLAGS < TWO_64 && used' == used + {n}
    requires m' == WithEntry(m[n := EmptyPage()], t, Index(vpn, l), n + TABLE_FLAGS)
             && tags' == tags[n := Tag(l - 1, Prefix(vpn, l - 1))]
    ensures LedTo(m, used, m', used', root, tags, tags', vpn, n, l - 1) && Missing(m', n, l - 1, vpn) == l - 1
  {
    RootPrefix(vpn);
    ReachesStays(m, m, tags, root, 3, vpn, t, l);
    NextPrefix(vpn, l);
    TableAdded(m, tags, root, vpn, t, l, n);
    NewFrame(m, used, tags, vpn, t, Index(vpn, l), n + TABLE_FLAGS, n, l - 1, m', used', tags');
  }

  lemma {:induction false} LedThen(m: Mem, used: set<nat>, m1: Mem, used1: set<nat>, m2: Mem, used2: set<nat>,
                                   root: nat,
                                   tags: map<nat, Tag>, tags1: map<nat, Tag>, tags2: map<nat, Tag>, vpn: nat, next: nat,
                                       l: nat, last: nat, k: nat)
    requires LedTo(m, used, m1, used1, root, tags, tags1, vpn, next, l)
             && LedTo(m1, used1, m2, used2, root, tags1, tags2, vpn, last, k)
    ensures LedTo(m, used, m2, used2, root, tags, tags2, vpn, last, k)
  {
  }

  /** Page `v` has got the frame `page`, which was not in use; of what was in use only tables may have changed, and the
      new tables are on the way to page `v`. */
  ghost predicate MappedTo(m: Mem, used: set<nat>, pgd: nat, tags: map<nat, Tag>, m': Mem, used': set<nat>, pgd': nat,
                           tags': map<nat, Tag>, v: nat, page: nat) {
    && page !in used && page in used' && page !in tags' && pgd' != 0
    && used <= used' && (tags'.Keys - tags.Keys) !! used
    && (forall p :: p in used && p !in tags && p in m ==> p in m' && m'[p] == m[p])
    && (forall p :: p in tags' ==> (p in tags && tags'[p] == tags[p]) || tags'[p].prefix == Prefix(v, tags'[p].level))
    && (forall u :: 0 <= u < Span(4) ==> Frame(m', pgd', u) == if u == v then Some(page) else Frame(m, pgd, u))
  }

  /** What is then written to the frame does not matter. */
  lemma {:induction false} FrameFilled(m: Mem, used: set<nat>, pgd: nat, tags: map<nat, Tag>, m': Mem, used': set<nat>,
                                       pgd': nat, tags': map<nat, Tag>, v: nat, page: nat, c: Page)
    requires MappedTo(m, used, pgd, tags, m', used', pgd', tags', v, page) && Tables(m', tags') && pgd' in tags'
             && tags'[pgd'] == Tag(3, 0)
    ensures Tables(m'[page := c], tags') && MappedTo(m, used, pgd, tags, m'[page := c], used', pgd', tags', v, page)
  {
    SameTables(m', m'[page := c], tags', pgd');
  }

  lemma {:induction false} ServedNext(m: Mem, used: set<nat>, pgd: nat, tags: map<nat, Tag>, m': Mem, used': set<nat>,
                                      pgd': nat, tags': map<nat, Tag>, v: nat, page: nat, vs: seq<nat>)
    requires MappedTo(m, used, pgd, tags, m', used', pgd', tags', v, page) && Serves(m, pgd, tags, vs) && v < Span(4)
    ensures Serves(m', pgd', tags', vs + [v])
  {
    FramesKept(m, pgd, tags, m', pgd', vs, v, page);
    ServesMore(m, pgd, tags, vs, m', pgd', tags', v);
  }

  lemma {:induction false} CopiedNext(us: seq<UserPage>, m0: Mem, used0: set<nat>, m: Mem, used: set<nat>, pgd: nat,
                                      tags: map<nat, Tag>, cs: seq<UserPage>,
                                      m': Mem, used': set<nat>, pgd': nat, tags': map<nat, Tag>, page: nat,
                                          vs: seq<nat>)
    requires Copies(us, m0, used0, m, used, pgd, tags, cs) && |cs| < |us| && Sources(us, m0, used0)
             && Serves(m, pgd, tags, vs)
    requires MappedTo(m, used, pgd, tags, m', used', pgd', tags', us[|cs|].va / PAGE_SIZE, page)
    requires us[|cs|].frame in m && page in m' && m'[page] == m[us[|cs|].frame]
    ensures Copies(us, m0, used0, m', used', pgd', tags', cs + [UserPage(page, us[|cs|].va)])
    ensures Serves(m', pgd', tags', vs + [us[|cs|].va / PAGE_SIZE])
  {
    ServedNext(m, used, pgd, tags, m', used', pgd', tags', us[|cs|].va / PAGE_SIZE, page, vs);
    OneMoreCopy(us, m0, used0, m, used, pgd, tags, cs, m', used', pgd', tags', page);
  }

  /** `task->mm`; `tags` are its tables. */
  class AddressSpace {
    var pgd: nat
    var kernelPages: seq<nat>
    var userPages: seq<UserPage>
    ghost var tags: map<nat, Tag>

    constructor ()
      ensures pgd == 0 && kernelPages == [] && userPages == [] && tags == map[]
    {
      pgd, kernelPages, userPages, tags := 0, [], [], map[];
    }

    /** The lists of pages, with the tables `made` and the page `u`. */
    method Enter(made: seq<nat>, u: UserPage, ghost tags': map<nat, Tag>)
      modifies this`kernelPages, this`userPages, this`tags
      ensures kernelPages == old(kernelPages) + made && userPages == old(userPages) + [u] && tags == tags'
    {
      kernelPages := kernelPages + made;
      userPages := userPages + [u];
      tags := tags';
    }
  }

  /** Physical memory above `LOW_MEMORY`, and the map of the pages in use. */
  class Memory {
    var memMap: seq<bool>
    var pages: Mem

    ghost predicate Valid()
      reads this
    {
      && Addr(|memMap|) + PTE_FLAGS < TWO_64
      && (forall i :: 0 <= i < |memMap| ==> Addr(i) in pages && |pages[Addr(i)]| == PTRS)
    }

    /** The pages whose entries are set. */
    ghost function InUse(): set<nat>
      reads this`memMap
    {
      UsedPages(memMap)
    }

    /** The pages that are free, or in the lists of the address space. */
    ghost function Stock(space: AddressSpace): nat
      reads this, space
    {
      FreeIn(memMap) + |space.kernelPages| + |space.userPages|
    }

    /** `get_free_page`: the first page that is not in use, zeroed; 0 if there is none. */
    method GetFreePage() returns (page: nat)
      requires Valid()
      modifies this
      ensures Valid() && (page == 0 <==> FreeIn(old(memMap)) == 0)
      ensures page == 0 ==> memMap == old(memMap) && pages == old(pages)
      ensures page != 0 ==>
                && Lowest(old(memMap), page) && page !in old(InUse()) && InUse() == old(InUse()) + {page}
                && page % PAGE_SIZE == 0 && page + PTE_FLAGS < TWO_64 && pages == old(pages)[page := EmptyPage()]
                && FreeIn(memMap) + 1 == FreeIn(old(memMap))
    {
      var i := 0;
      while i < |memMap|
        invariant 0 <= i <= |memMap| && memMap == old(memMap) && pages == old(pages)
        invariant forall k :: 0 <= k < i ==> memMap[k]
      {
        if !memMap[i] {
          TakeOne(memMap, i);
          TakePage(memMap, i);
          memMap := memMap[i := true];
          page := Addr(i);
          pages := pages[page := EmptyPage()];
          return;
        }
        i := i + 1;
      }
      NoneFree(memMap);
      page := 0;
    }

    /** `free_page` */
    method FreePage(page: nat)
      requires Valid() && exists i :: 0 <= i < |memMap| && page == Addr(i)
      modifies this`memMap
      ensures Valid() && InUse() == old(InUse()) - {page}
      ensures page in old(InUse()) ==> FreeIn(memMap) == FreeIn(old(memMap)) + 1
    {
      var n := (page - LOW_MEMORY) / PAGE_SIZE;
      DropPage(memMap, n);
      if memMap[n] { DropOne(memMap, n); }
      memMap := memMap[n := false];
    }

    /** What is not a table of the address space with the tags `tags` is as it was, and nothing has been freed. */
    twostate predicate Spares(tags: map<nat, Tag>)
      reads this
    {
      old(InUse()) <= InUse() && forall p :: p in old(InUse()) && p !in tags && p in old(pages) ==>
                                   p in pages && pages[p] == old(pages)[p]
    }

    /** The table to which a table `t` of level `l` on the way to page `vpn` leads. */
    twostate predicate Led(root: nat, tags: map<nat, Tag>, tags': map<nat, Tag>, vpn: nat, next: nat, l: nat)
      reads this
    {
      Valid() && LedTo(old(pages), old(InUse()), pages, InUse(), root, tags, tags', vpn, next, l)
    }

    /** A new page, entered in the table. */
    method AddTable(table: nat, index: nat) returns (next: nat)
      requires Valid() && FreeIn(memMap) > 0 && index < PTRS && table in InUse() && table in pages
               && |pages[table]| == PTRS
      modifies this
      ensures Valid() && FreeIn(memMap) + 1 == FreeIn(old(memMap)) && next !in old(InUse())
              && InUse() == old(InUse()) + {next}
      ensures next > 0 && next % PAGE_SIZE == 0 && next + PTE_FLAGS < TWO_64 && next != table
      ensures pages == WithEntry(old(pages)[next := EmptyPage()], table, index, next + TABLE_FLAGS)
    {
      next := GetFreePage();
      pages := WithEntry(pages, table, index, next + TABLE_FLAGS);
    }

    method NewTable(table: nat, l: nat, vpn: nat, ghost root: nat, ghost tags: map<nat, Tag>)
      returns (next: nat, ghost tags': map<nat, Tag>)
      requires Valid() && FreeIn(memMap) > 0 && 0 < l <= 3 && vpn < Span(4)
      requires Tables(pages, tags) && tags.Keys <= InUse() && root in tags && tags[root] == Tag(3, 0)
               && Reaches(pages, root, 3, vpn, table, l)
      requires table in tags && pages[table][Index(vpn, l)] == 0
      modifies this
      ensures FreeIn(memMap) + 1 == FreeIn(old(memMap)) && Led(root, tags, tags', vpn, next, l - 1)
      ensures Missing(pages, next, l - 1, vpn) == l - 1
      ensures next !in tags && tags' == tags[next := Tag(l - 1, Prefix(vpn, l - 1))]
    {
      next := AddTable(table, Index(vpn, l));
      tags' := tags[next := Tag(l - 1, Prefix(vpn, l - 1))];
      NewTableLed(old(pages), old(InUse()), tags, root, vpn, table, l, next, pages, InUse(), tags');
    }

    /** `map_table`: the table that the entry for page `vpn` in the table `table` of level `l` leads to; if there is
        none, a new one. */
    method MapTable(table: nat, l: nat, vpn: nat, ghost root: nat, ghost tags: map<nat, Tag>)
      returns (next: nat, isNew: bool, ghost tags': map<nat, Tag>)
      requires Valid() && FreeIn(memMap) >= Missing(pages, table, l, vpn) && 0 < l <= 3 && vpn < Span(4)
      requires Tables(pages, tags) && tags.Keys <= InUse() && root in tags && tags[root] == Tag(3, 0)
               && Reaches(pages, root, 3, vpn, table, l)
      modifies this
      ensures FreeIn(memMap) + (if isNew then 1 else 0) == FreeIn(old(memMap))
              && Led(root, tags, tags', vpn, next, l - 1)
      ensures Missing(pages, next, l - 1, vpn) + (if isNew then 1 else 0) == Missing(old(pages), table, l, vpn)
      ensures tags' == if isNew then tags[next := Tag(l - 1, Prefix(vpn, l - 1))] else tags
      ensures isNew ==> next !in tags && Missing(pages, next, l - 1, vpn) == l - 1
    {
      RootPrefix(vpn);
      ReachesStays(pages, pages, tags, root, 3, vpn, table, l);
      var index := Index(vpn, l);
      isNew := pages[table][index] == 0;
      if isNew {
        next, tags' := NewTable(table, l, vpn, root, tags);
        return;
      }
      next, tags' := Target(pages[table][index]), tags;
      ReachesNext(pages, root, 3, vpn, table, l);
    }

    /** The three calls of `map_table` in `map_page`, and the tables they have made. */
    method MapTables(pgd: nat, vpn: nat, ghost tags: map<nat, Tag>)
      returns (pte: nat, made: seq<nat>, ghost tags': map<nat, Tag>)
      requires Valid() && FreeIn(memMap) >= Missing(pages, pgd, 3, vpn) && vpn < Span(4)
      requires Tables(pages, tags) && tags.Keys <= InUse() && pgd in tags && tags[pgd] == Tag(3, 0)
      modifies this
      ensures FreeIn(memMap) + |made| == FreeIn(old(memMap)) && |made| == Missing(old(pages), pgd, 3, vpn)
      ensures Led(pgd, tags, tags', vpn, pte, 0) && Made(tags, tags', made, vpn)
    {
      var pud, isNew;
      pud, isNew, tags' := MapTable(pgd, 3, vpn, pgd, tags);
      ghost var m, used, tags1 := pages, InUse(), tags';
      var lower;
      pte, lower, tags' := MapLower(pud, vpn, pgd, tags1);
      LedThen(old(pages), old(InUse()), m, used, pages, InUse(), pgd, tags, tags1, tags', vpn, pud, 2, pte, 0);
      made := (if isNew then [pud] else []) + lower;
      MadeStep(tags, tags1, tags', isNew, pud, lower, vpn, 2);
    }

    /** The last two of them. */
    method MapLower(pud: nat, vpn: nat, ghost pgd: nat, ghost tags: map<nat, Tag>)
      returns (pte: nat, made: seq<nat>, ghost tags': map<nat, Tag>)
      requires Valid() && FreeIn(memMap) >= Missing(pages, pud, 2, vpn) && vpn < Span(4)
      requires Tables(pages, tags) && tags.Keys <= InUse() && pgd in tags && tags[pgd] == Tag(3, 0)
               && Reaches(pages, pgd, 3, vpn, pud, 2)
      modifies this
      ensures FreeIn(memMap) + |made| == FreeIn(old(memMap)) && |made| == Missing(old(pages), pud, 2, vpn)
      ensures Led(pgd, tags, tags', vpn, pte, 0) && Made(tags, tags', made, vpn)
    {
      var pmd, isNew, last;
      pmd, isNew, tags' := MapTable(pud, 2, vpn, pgd, tags);
      ghost var m, used, tags1 := pages, InUse(), tags';
      pte, last, tags' := MapTable(pmd, 1, vpn, pgd, tags1);
      LedThen(old(pages), old(InUse()), m, used, pages, InUse(), pgd, tags, tags1, tags', vpn, pmd, 1, pte, 0);
      made := if last then [pte] else [];
      MadeLast(tags1, tags', last, pte, vpn);
      MadeStep(tags, tags1, tags', isNew, pmd, made, vpn, 1);
      made := (if isNew then [pmd] else []) + made;
    }

    /** `map_table_entry` */
    method MapTableEntry(pte: nat, vpn: nat, frame: nat, ghost root: nat, ghost tags: map<nat, Tag>)
      requires Valid() && vpn < Span(4) && Tables(pages, tags) && root in tags && tags[root] == Tag(3, 0)
               && Reaches(pages, root, 3, vpn, pte, 0)
      requires frame % PAGE_SIZE == 0 && frame + PTE_FLAGS < TWO_64
      modifies this`pages
      ensures Valid() && Tables(pages, tags) && Spares(tags)
      ensures forall v :: 0 <= v < Span(4) ==>
                Walk(pages, root, 3, v) == if v == vpn then Some(frame) else Walk(old(pages), root, 3, v)
    {
      EntryAdded(pages, tags, root, pte, vpn, frame);
      pages := WithEntry(pages, pte, Index(vpn, 0), frame + PTE_FLAGS);
    }

    /** The address space has tables of its own, all of them in pages in use. */
    ghost predicate Holds(space: AddressSpace)
      reads this, space
    {
      && Tables(pages, space.tags) && space.tags.Keys <= InUse() && Listed(space.kernelPages, space.tags)
      && if space.pgd == 0 then space.tags == map[] else space.pgd in space.tags && space.tags[space.pgd] == Tag(3, 0)
    }

    /** The tables of an address space after a page `vpn` more: the new ones are on the way to it. */
    twostate predicate TablesMore(tags: map<nat, Tag>, tags': map<nat, Tag>, vpn: nat)
      reads this
    {
      && Spares(tags) && (tags'.Keys - tags.Keys) !! old(InUse()) && tags.Keys <= tags'.Keys
      && forall p :: p in tags' ==> (p in tags && tags'[p] == tags[p]) || tags'[p].prefix == Prefix(vpn, tags'[p].level)
    }

    /** `map_page`, with as many free pages as tables are missing. */
    method MapPage(space: AddressSpace, va: u64, page: nat)
      requires Valid() && Holds(space) && va / PAGE_SIZE < Span(4)
               && FreeIn(memMap) >= TablesFor(pages, space.pgd, va / PAGE_SIZE)
      requires page % PAGE_SIZE == 0 && page + PTE_FLAGS < TWO_64 && page in InUse() && page !in space.tags
      modifies this, space
      ensures Valid() && Holds(space) && FreeIn(memMap) + old(TablesFor(pages, space.pgd, va / PAGE_SIZE)) ==
              FreeIn(old(memMap))
      ensures TablesMore(old(space.tags), space.tags, va / PAGE_SIZE)
      ensures forall v :: 0 <= v < Span(4) ==>
                Frame(pages, space.pgd, v) == if v == va / PAGE_SIZE then Some(page)
                    else Frame(old(pages), old(space.pgd), v)
      ensures space.userPages == old(space.userPages) + [UserPage(page, va)] && space.pgd != 0
      ensures Grew(old(space.tags), old(space.kernelPages), space.tags, space.kernelPages, va / PAGE_SIZE,
              old(TablesFor(pages, space.pgd, va / PAGE_SIZE)))
      ensures old(space.pgd) != 0 ==> space.pgd == old(space.pgd)
    {
      if space.pgd != 0 {
        MapBelow(space, va, page);
        return;
      }
      MapRoot(space);
      RootPrefix(va / PAGE_SIZE);
      MapBelow(space, va, page);
      GrewRoot(old(space.tags), old(space.kernelPages), space.pgd, space.tags, space.kernelPages, va / PAGE_SIZE);
    }

    /** The tables on the way to page `vpn`, and its entry in the last one. */
    method MapFrame(pgd: nat, vpn: nat, frame: nat, ghost tags: map<nat, Tag>)
      returns (made: seq<nat>, ghost tags': map<nat, Tag>)
      requires Valid() && FreeIn(memMap) >= Missing(pages, pgd, 3, vpn) && vpn < Span(4)
      requires Tables(pages, tags) && tags.Keys <= InUse() && pgd in tags && tags[pgd] == Tag(3, 0)
      requires frame % PAGE_SIZE == 0 && frame + PTE_FLAGS < TWO_64
      modifies this
      ensures Valid() && FreeIn(memMap) + Missing(old(pages), pgd, 3, vpn) == FreeIn(old(memMap))
      ensures Made(tags, tags', made, vpn) && |made| == Missing(old(pages), pgd, 3, vpn)
      ensures Tables(pages, tags') && tags'.Keys <= InUse() && pgd in tags' && tags'[pgd] == Tag(3, 0)
              && TablesMore(tags, tags', vpn)
      ensures forall v :: 0 <= v < Span(4) ==>
                Walk(pages, pgd, 3, v) == if v == vpn then Some(frame) else Walk(old(pages), pgd, 3, v)
    {
      var pte;
      pte, made, tags' := MapTables(pgd, vpn, tags);
      MapTableEntry(pte, vpn, frame, pgd, tags');
    }

    method MapBelow(space: AddressSpace, va: u64, page: nat)
      requires Valid() && Holds(space) && space.pgd != 0 && va / PAGE_SIZE < Span(4)
               && FreeIn(memMap) >= Missing(pages, space.pgd, 3, va / PAGE_SIZE)
      requires page % PAGE_SIZE == 0 && page + PTE_FLAGS < TWO_64 && page in InUse() && page !in space.tags
      modifies this, space`kernelPages, space`userPages, space`tags
      ensures Valid() && Holds(space) && FreeIn(memMap) + Missing(old(pages), space.pgd, 3, va / PAGE_SIZE) ==
              FreeIn(old(memMap))
      ensures TablesMore(old(space.tags), space.tags, va / PAGE_SIZE)
      ensures forall v :: 0 <= v < Span(4) ==>
                Walk(pages, space.pgd, 3, v) == if v == va / PAGE_SIZE then Some(page)
                    else Walk(old(pages), space.pgd, 3, v)
      ensures space.userPages == old(space.userPages) + [UserPage(page, va)]
      ensures Grew(old(space.tags), old(space.kernelPages), space.tags, space.kernelPages, va / PAGE_SIZE,
              Missing(old(pages), space.pgd, 3, va / PAGE_SIZE))
    {
      var made;
      ghost var tags;
      made, tags := MapFrame(space.pgd, va / PAGE_SIZE, page, space.tags);
      GrewBy(space.tags, space.kernelPages, tags, made, va / PAGE_SIZE);
      space.Enter(made, UserPage(page, va), tags);
    }

    /** The first-level table of an address space that has none yet. */
    method MapRoot(space: AddressSpace)
      requires Valid() && Holds(space) && FreeIn(memMap) > 0 && space.pgd == 0
      modifies this, space`pgd, space`kernelPages, space`tags
      ensures Valid() && Holds(space) && Spares(map[]) && FreeIn(memMap) + 1 == FreeIn(old(memMap)) && space.pgd != 0
      ensures space.tags == map[space.pgd := Tag(3, 0)] && space.pgd !in old(InUse())
              && space.kernelPages == old(space.kernelPages) + [space.pgd]
      ensures forall v :: 0 <= v < Span(4) ==>
                Walk(pages, space.pgd, 3, v) == None && Missing(pages, space.pgd, 3, v) == 3
    {
      space.pgd := GetFreePage();
      space.kernelPages := space.kernelPages + [space.pgd];
      space.tags := map[space.pgd := Tag(3, 0)];
      assert pages[space.pgd] == EmptyPage();
    }

    /** `page` is a frame that was free, now at `va`, with the contents `c`; it and the tables it needed have been
        taken. */
    twostate predicate FrameTaken(space: AddressSpace, va: u64, page: nat, c: Page)
      reads this, space
    {
      && MappedTo(old(pages), old(InUse()), old(space.pgd), old(space.tags), pages, InUse(), space.pgd, space.tags,
      va / PAGE_SIZE, page)
      && page in pages && pages[page] == c && space.userPages == old(space.userPages) + [UserPage(page, va)]
      && FreeIn(memMap) + 1 + old(TablesFor(pages, space.pgd, va / PAGE_SIZE)) == old(FreeIn(memMap))
      && Grew(old(space.tags), old(space.kernelPages), space.tags, space.kernelPages, va / PAGE_SIZE,
      old(TablesFor(pages, space.pgd, va / PAGE_SIZE)))
    }

    /** Nothing has happened. */
    twostate predicate NothingTaken(space: AddressSpace)
      reads this, space
    {
      && memMap == old(memMap) && pages == old(pages)
      && space.userPages == old(space.userPages) && space.kernelPages == old(space.kernelPages)
      && space.pgd == old(space.pgd) && space.tags == old(space.tags)
    }

    /** `allocate_user_page`: a zeroed frame at `va`, or 0 if there is none. */
    method AllocateUserPage(space: AddressSpace, va: u64) returns (page: nat)
      requires Valid() && Holds(space) && va / PAGE_SIZE < Span(4)
      requires FreeIn(memMap) == 0 || FreeIn(memMap) >= 1 + TablesFor(pages, space.pgd, va / PAGE_SIZE)
      modifies this, space
      ensures Valid() && Holds(space) && (page == 0 <==> old(FreeIn(memMap)) == 0)
      ensures if page == 0 then NothingTaken(space) else FrameTaken(space, va, page, EmptyPage())
    {
      page := GetFreePage();
      if page == 0 {
        return;
      }
      SameTables(old(pages), pages, space.tags, space.pgd);
      MissingSame(old(pages), pages, space.tags, space.pgd, va / PAGE_SIZE);
      MapPage(space, va, page);
    }

    // ----- copying an address space -----

    /** One turn of the loop in `copy_virt_memory`: a frame for `dst` at the address of `u`, with the contents of its
        frame. */
    method CopyPage(dst: AddressSpace, u: UserPage) returns (page: nat)
      requires Valid() && Holds(dst) && u.va / PAGE_SIZE < Span(4)
      requires FreeIn(memMap) == 0 || FreeIn(memMap) >= 1 + TablesFor(pages, dst.pgd, u.va / PAGE_SIZE)
      requires u.frame in InUse() && u.frame !in dst.tags && u.frame in pages && |pages[u.frame]| == PTRS
      modifies this, dst
      ensures Valid() && Holds(dst) && (page == 0 <==> old(FreeIn(memMap)) == 0)
      ensures if page == 0 then NothingTaken(dst) else FrameTaken(dst, u.va, page, old(pages)[u.frame])
    {
      page := AllocateUserPage(dst, u.va);
      if page != 0 {
        FrameFilled(old(pages), old(InUse()), old(dst.pgd), old(dst.tags), pages, InUse(), dst.pgd, dst.tags,
            u.va / PAGE_SIZE, page, pages[u.frame]);
        pages := pages[page := pages[u.frame]];
      }
    }

    /** The user pages of the address space, each at an address of its own. */
    ghost predicate Populated(space: AddressSpace)
      reads this, space
    {
      && (forall i :: 0 <= i < |space.userPages| ==>
            var u := space.userPages[i];
            && u.va % PAGE_SIZE == 0 && u.va / PAGE_SIZE < Span(4)
            && Frame(pages, space.pgd, u.va / PAGE_SIZE) == Some(u.frame)
            && u.frame in InUse() && u.frame !in space.tags && u.frame in pages && |pages[u.frame]| == PTRS)
      && forall i, j :: 0 <= i < j < |space.userPages| ==>
           space.userPages[i].va / PAGE_SIZE != space.userPages[j].va / PAGE_SIZE
    }

    /** `dst` holds copies of the first pages of `us`, and tables for these, their numbers being `vs`. */
    ghost predicate Copying(us: seq<UserPage>, m0: Mem, used0: set<nat>, dst: AddressSpace, vs: seq<nat>)
      reads this, dst
    {
      && Valid() && Holds(dst) && Sources(us, m0, used0)
      && Copies(us, m0, used0, pages, InUse(), dst.pgd, dst.tags, dst.userPages) && Serves(pages, dst.pgd, dst.tags, vs)
    }

    /** The next page is there to be copied. */
    lemma {:induction false} CopyReady(us: seq<UserPage>, m0: Mem, used0: set<nat>, dst: AddressSpace, vs: seq<nat>,
                                       u: UserPage)
      requires Copying(us, m0, used0, dst, vs) && |dst.userPages| < |us| && u == us[|dst.userPages|]
      ensures Valid() && Holds(dst) && u.va / PAGE_SIZE < Span(4)
              && TablesFor(pages, dst.pgd, u.va / PAGE_SIZE) == NewTables(vs, u.va / PAGE_SIZE, 4)
      ensures u.frame in InUse() && u.frame !in dst.tags && u.frame in pages && |pages[u.frame]| == PTRS
    {
      SourceReady(us, |dst.userPages|, m0, used0, pages, InUse(), dst.pgd, dst.tags, dst.userPages);
      TablesForIs(pages, dst.tags, dst.pgd, vs, u.va / PAGE_SIZE);
    }

    /** The next page: it is copied, or there is no frame for it. */
    method CopyNext(us: seq<UserPage>, i: nat, dst: AddressSpace, ghost m0: Mem, ghost used0: set<nat>,
                    ghost vs: seq<nat>, ghost need: nat) returns (ok: bool)
      requires Copying(us, m0, used0, dst, vs) && |dst.userPages| == i < |us|
      requires (FreeIn(memMap) == 0 || FreeIn(memMap) >= need) && need == 1 + NewTables(vs, us[i].va / PAGE_SIZE, 4)
      modifies this, dst
      ensures Copying(us, m0, used0, dst, if ok then vs + [us[i].va / PAGE_SIZE] else vs)
      ensures (ok <==> old(FreeIn(memMap)) > 0) && FreeIn(memMap) + (if ok then need else 0) == old(FreeIn(memMap))
      ensures |dst.userPages| == (if ok then i + 1 else i) && Stock(dst) == old(Stock(dst))
    {
      CopyReady(us, m0, used0, dst, vs, us[i]);
      ghost var m, used, pgd, tags, cs := pages, InUse(), dst.pgd, dst.tags, dst.userPages;
      var page := CopyPage(dst, us[i]);
      ok := page != 0;
      if ok { CopiedNext(us, m0, used0, m, used, pgd, tags, cs, pages, InUse(), dst.pgd, dst.tags, page, vs); }
    }

    lemma {:induction false} CopyStarts(src: AddressSpace, dst: AddressSpace)
      requires Valid() && Populated(src) && Holds(dst) && dst.pgd == 0 && dst.userPages == []
      ensures Copying(src.userPages, pages, InUse(), dst, [])
    {
    }

    /** The address space that is copied does not notice. */
    lemma {:induction false} SourceKept(us: seq<UserPage>, m0: Mem, used0: set<nat>, dst: AddressSpace, vs: seq<nat>,
                                        src: AddressSpace)
      requires Copying(us, m0, used0, dst, vs)
      requires Tables(m0, src.tags) && src.tags.Keys <= used0 && Listed(src.kernelPages, src.tags)
               && if src.pgd == 0 then src.tags == map[] else src.pgd in src.tags && src.tags[src.pgd] == Tag(3, 0)
      ensures Holds(src) && forall v :: 0 <= v < Span(4) ==> Frame(pages, src.pgd, v) == Frame(m0, src.pgd, v)
    {
      SameTables(m0, pages, src.tags, src.pgd);
    }

    /** `copy_virt_memory` into an address space that is still empty. It copies all the pages if and only if there are
        enough for the frames and the tables; the source does not handle a table that gets no page, so the pages must
        not run out behind a frame. */
    method CopyVirtMemory(src: AddressSpace, dst: AddressSpace) returns (ok: bool)
      requires Valid() && src != dst && Holds(src) && Populated(src) && Holds(dst) && dst.pgd == 0
               && dst.userPages == []
      requires AtFrame(Numbers(src.userPages), FreeIn(memMap))
      modifies this, dst
      ensures Valid() && Holds(src) && Holds(dst) && (ok <==> old(FreeIn(memMap)) >= PagesFor(Numbers(src.userPages)))
      ensures Stock(dst) == old(Stock(dst)) && (dst.pgd == 0 <==> dst.userPages == [])
      ensures |dst.userPages| <= |src.userPages| && (ok <==> |dst.userPages| == |src.userPages|)
              && (!ok ==> FreeIn(memMap) == 0)
      ensures FreeIn(memMap) + PagesFor(Numbers(src.userPages)[..|dst.userPages|]) == old(FreeIn(memMap))
      ensures Copies(src.userPages, old(pages), old(InUse()), pages, InUse(), dst.pgd, dst.tags, dst.userPages)
      ensures forall v :: 0 <= v < Span(4) ==> Frame(pages, src.pgd, v) == Frame(old(pages), src.pgd, v)
    {
      ghost var m0, used0, free := pages, InUse(), FreeIn(memMap);
      var us := src.userPages;
      ghost var vs := Numbers(us);
      CopyStarts(src, dst);
      assert vs[..0] == [];
      var i := 0;
      ok := true;
      while i < |us| && ok
        invariant 0 <= i <= |us| && |dst.userPages| == i && Copying(us, m0, used0, dst, vs[..i])
        invariant FreeIn(memMap) + PagesFor(vs[..i]) == free && (!ok ==> i < |us| && FreeIn(memMap) == 0)
        invariant Stock(dst) == old(Stock(dst))
        decreases |us| - i, ok
      {
        ghost var need := RoomForNext(vs, free, i);
        ok := CopyNext(us, i, dst, m0, used0, vs[..i], need);
        if ok {
          i := i + 1;
        }
      }
      AllCopied(vs, i, ok, free, FreeIn(memMap));
      SourceKept(us, m0, used0, dst, vs[..i], src);
    }
  }
}
