/** What `exit_process` gives back of the memory of a task. */
module PageRelease {
  import opened Paging
  import opened PageCount
  import opened PageTables
  import opened Seqs

  function Frames(us: seq<UserPage>): (ps: seq<nat>)
    ensures |ps| == |us|
  {
    seq(|us|, j requires 0 <= j < |us| => us[j].frame)
  }

  lemma {:induction false} FrameIn(us: seq<UserPage>, p: nat) returns (j: nat)
    requires p in Frames(us)
    ensures j < |us| && us[j].frame == p
  {
    j :| 0 <= j < |Frames(us)| && Frames(us)[j] == p;
  }

  /** The frames of the address space are in use, all different, and none of its tables. */
  ghost predicate Framed(mem: Memory, space: AddressSpace)
    reads mem, space
  {
    && NoDup(Frames(space.userPages))
    && forall p :: p in Frames(space.userPages) ==> p in mem.InUse() && p !in space.tags
  }

  /** From the free pages of `before`, `used` and so many free, the pages `ps` have been freed. */
  ghost predicate Freed(used: set<nat>, before: nat, mem: Memory, ps: seq<nat>)
    reads mem`memMap
  {
    && (forall p :: p in mem.InUse() <==> p in used && p !in ps)
    && FreeIn(mem.memMap) == before + |ps|
  }

  /** One more page of the list. */
  method FreeNext(mem: Memory, ps: seq<nat>, i: nat, ghost used: set<nat>, ghost before: nat)
    requires mem.Valid() && i < |ps| && NoDup(ps) && (forall p :: p in ps ==> p in used)
             && Freed(used, before, mem, ps[..i])
    modifies mem`memMap
    ensures mem.Valid() && Freed(used, before, mem, ps[..i + 1])
  {
    assert ps[..i + 1] == ps[..i] + [ps[i]];
    assert ps[i] in mem.InUse();
    mem.FreePage(ps[i]);
  }

  /** The loop over `kernel_pages`. The tables are in its entries from 1 on, and it frees entry 0, which is no page, and
      those before entry `|ks|`. */
  method FreeTables(mem: Memory, ks: seq<nat>)
    requires mem.Valid() && NoDup(ks) && forall p :: p in ks ==> p in mem.InUse()
    modifies mem`memMap
    ensures mem.Valid()
    ensures Freed(old(mem.InUse()), old(FreeIn(mem.memMap)), mem, if ks == [] then ks else ks[..|ks| - 1])
  {
    ghost var used, before := mem.InUse(), FreeIn(mem.memMap);
    var i := 0;
    while i < |ks|
      invariant 0 <= i <= |ks| && mem.Valid() && Freed(used, before, mem, if i == 0 then [] else ks[..i - 1])
    {
      if i > 0 {
        FreeNext(mem, ks, i - 1, used, before);
      }
      i := i + 1;
    }
  }

  /** The loop over `user_pages`. */
  method FreeFrames(mem: Memory, us: seq<UserPage>)
    requires mem.Valid() && NoDup(Frames(us)) && forall p :: p in Frames(us) ==> p in mem.InUse()
    modifies mem`memMap
    ensures mem.Valid() && Freed(old(mem.InUse()), old(FreeIn(mem.memMap)), mem, Frames(us))
  {
    ghost var used, before := mem.InUse(), FreeIn(mem.memMap);
    var ps := Frames(us);
    var i := 0;
    while i < |us|
      invariant 0 <= i <= |us| && mem.Valid() && Freed(used, before, mem, ps[..i])
    {
      FreeNext(mem, ps, i, used, before);
      i := i + 1;
    }
    assert ps[..|us|] == ps;
  }

  /** From `used` to `used'` the frames `ps` and the tables `ks` have been given back, but for the table made last. */
  ghost predicate Returned(used: set<nat>, ps: seq<nat>, ks: seq<nat>, used': set<nat>) {
    forall p :: p in used' <==> p in used && p !in ps && (p in ks ==> p == ks[|ks| - 1])
  }

  lemma {:induction false} AllButLast(ks: seq<nat>, p: nat)
    requires NoDup(ks) && ks != []
    ensures p in ks[..|ks| - 1] <==> p in ks && p != ks[|ks| - 1]
  {
    assert ks == ks[..|ks| - 1] + [ks[|ks| - 1]];
  }

  /** The two loops of `exit_process` over the pages of the task. All of them come back if and only if it has no
      tables. */
  method ReleasePages(mem: Memory, space: AddressSpace)
    requires mem.Valid() && mem.Holds(space) && Framed(mem, space)
    modifies mem`memMap
    ensures mem.Valid() && Returned(old(mem.InUse()), Frames(space.userPages), space.kernelPages, mem.InUse())
    ensures FreeIn(mem.memMap) + (if space.kernelPages == [] then 0 else 1) == old(mem.Stock(space))
    ensures (forall p :: p in space.tags || p in Frames(space.userPages) ==> p !in mem.InUse()) <==>
            space.tags == map[]
  {
    var ks, us := space.kernelPages, space.userPages;
    FreeTables(mem, ks);
    if ks != [] {
      forall p ensures p in ks[..|ks| - 1] <==> p in ks && p != ks[|ks| - 1] { AllButLast(ks, p); }
    }
    FreeFrames(mem, us);
    if ks != [] { assert ks[|ks| - 1] in space.tags && ks[|ks| - 1] in mem.InUse(); }
  }

  // ----- a task that is forked and exits -----

  lemma {:induction false} CopyFramed(us: seq<UserPage>, m0: Mem, used0: set<nat>, mem: Memory, dst: AddressSpace)
    requires Copies(us, m0, used0, mem.pages, mem.InUse(), dst.pgd, dst.tags, dst.userPages)
    ensures Framed(mem, dst) && forall p :: p in Frames(dst.userPages) ==> p !in used0
  {
    var cs := dst.userPages;
    forall p | p in Frames(cs) ensures p in mem.InUse() && p !in dst.tags && p !in used0 {
      var j := FrameIn(cs, p);
      assert Copy(m0, used0, mem.pages, mem.InUse(), dst.pgd, dst.tags, us[j], cs[j]);
    }
  }

  lemma {:induction false} NoneCopied(vs: seq<nat>, n: nat, ok: bool, before: nat, now: nat)
    requires n <= |vs| && now + PagesFor(vs[..n]) == before && (ok <==> n == |vs|) && (!ok ==> now == 0)
    ensures n == 0 <==> |vs| == 0 || before == 0
  {
    assert vs[..0] == [];
    PagesGrow(vs, 0, n);
  }

  /** The pages in use at first still are; if there are tables, the one made last is in use as well. */
  ghost predicate OneLost(used: set<nat>, ks: seq<nat>, used': set<nat>) {
    used <= used' && (ks != [] ==> ks[|ks| - 1] in used' - used)
  }

  /** The frames `ps` and the tables `ks` have been taken since `used0` were in use. */
  ghost predicate TakenSince(used0: set<nat>, used: set<nat>, ps: seq<nat>, ks: seq<nat>) {
    && used0 <= used && (forall p :: p in ps ==> p !in used0 && p !in ks) && forall p :: p in ks ==> p in used - used0
  }

  lemma {:induction false} OneLostIs(used0: set<nat>, used: set<nat>, ps: seq<nat>, ks: seq<nat>, used': set<nat>)
    requires Returned(used, ps, ks, used') && TakenSince(used0, used, ps, ks)
    ensures OneLost(used0, ks, used')
  {
    if ks != [] { assert ks[|ks| - 1] in ks; }
  }

  lemma {:induction false} NoTables(mem: Memory, space: AddressSpace)
    requires mem.Holds(space)
    ensures space.kernelPages == [] <==> space.pgd == 0
  {
    if space.kernelPages != [] { assert space.kernelPages[0] in space.tags; }
    if space.pgd != 0 { assert space.pgd in space.kernelPages; }
  }

  /** `copy_virt_memory` for a new task. */
  method CopyTask(mem: Memory, src: AddressSpace, dst: AddressSpace) returns (ok: bool)
    requires mem.Valid() && src != dst && mem.Holds(src) && mem.Populated(src) && mem.Holds(dst) && dst.pgd == 0
             && dst.userPages == []
    requires AtFrame(Numbers(src.userPages), FreeIn(mem.memMap))
    modifies mem, dst
    ensures mem.Valid() && mem.Holds(dst) && Framed(mem, dst) && mem.Stock(dst) == old(FreeIn(mem.memMap))
    ensures TakenSince(old(mem.InUse()), mem.InUse(), Frames(dst.userPages), dst.kernelPages)
    ensures dst.kernelPages == [] <==> src.userPages == [] || old(FreeIn(mem.memMap)) == 0
  {
    NoTables(mem, dst);
    ok := mem.CopyVirtMemory(src, dst);
    NoTables(mem, dst);
    NoneCopied(Numbers(src.userPages), |dst.userPages|, ok, old(FreeIn(mem.memMap)), FreeIn(mem.memMap));
    CopyFramed(src.userPages, old(mem.pages), old(mem.InUse()), mem, dst);
  }

  /** That, and later the exit of the task: of the pages that were free, one is not free any more, the table made last,
      unless there was no page to copy or none free. */
  method CopyAndExit(mem: Memory, src: AddressSpace, dst: AddressSpace) returns (ok: bool)
    requires mem.Valid() && src != dst && mem.Holds(src) && mem.Populated(src) && mem.Holds(dst) && dst.pgd == 0
             && dst.userPages == []
    requires AtFrame(Numbers(src.userPages), FreeIn(mem.memMap))
    modifies mem, dst
    ensures mem.Valid() && OneLost(old(mem.InUse()), dst.kernelPages, mem.InUse())
    ensures FreeIn(mem.memMap) + (if dst.kernelPages == [] then 0 else 1) == old(FreeIn(mem.memMap))
    ensures dst.kernelPages == [] <==> src.userPages == [] || old(FreeIn(mem.memMap)) == 0
  {
    ok := CopyTask(mem, src, dst);
    ghost var used := mem.InUse();
    ReleasePages(mem, dst);
    OneLostIs(old(mem.InUse()), used, Frames(dst.userPages), dst.kernelPages, mem.InUse());
  }
}
