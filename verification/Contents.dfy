/** What the data blocks of a file hold, as one sequence of bytes, and what a write makes of it. */
module Contents {
  import opened Arith
  import opened Bytes
  import opened Seqs

  function BlockOf(d: seq<Block>, n: nat): Block { if n < |d| then d[n] else [] }

  function Text(d: seq<Block>, ns: seq<nat>): seq<byte> {
    if ns == [] then [] else Text(d, ns[..|ns| - 1]) + BlockOf(d, ns[|ns| - 1])
  }

  ghost predicate Sized(d: seq<Block>, ns: seq<nat>, size: nat)
  {
    forall k :: 0 <= k < |ns| ==> |BlockOf(d, ns[k])| == size
  }

  lemma {:induction false} TextSize(d: seq<Block>, ns: seq<nat>, size: nat)
    requires Sized(d, ns, size)
    ensures |Text(d, ns)| == |ns| * size
  {
    if ns != [] {
      TextSize(d, ns[..|ns| - 1], size);
      assert |ns| * size == (|ns| - 1) * size + size;
    }
  }

  lemma {:induction false} SameText(d: seq<Block>, d': seq<Block>, ns: seq<nat>)
    requires forall k :: 0 <= k < |ns| ==> BlockOf(d', ns[k]) == BlockOf(d, ns[k])
    ensures Text(d', ns) == Text(d, ns)
  {
    if ns != [] { SameText(d, d', ns[..|ns| - 1]); }
  }

  lemma {:induction false} OneMore(d: seq<Block>, ns: seq<nat>, n: nat)
    ensures Text(d, ns + [n]) == Text(d, ns) + BlockOf(d, n)
  {
    assert (ns + [n])[..|ns|] == ns;
  }

  /** Block `q` holds the bytes from `q * size` on. */
  lemma {:induction false} BlockIn(d: seq<Block>, ns: seq<nat>, size: nat, q: nat, lo: nat)
    requires Sized(d, ns, size) && q < |ns| && lo == q * size
    ensures lo + size <= |Text(d, ns)| && Text(d, ns)[lo..lo + size] == BlockOf(d, ns[q])
  {
    var m := |ns| - 1;
    TextSize(d, ns[..m], size);
    if q < m {
      BlockIn(d, ns[..m], size, q, lo);
      assert Text(d, ns)[lo..lo + size] == Text(d, ns[..m])[lo..lo + size];
    }
  }

  lemma {:induction false} SpliceMore(a: seq<byte>, z: seq<byte>, lo: nat, hi: nat, b: seq<byte>)
    requires lo <= hi <= |a|
    ensures a[..lo] + b + a[hi..] + z == (a + z)[..lo] + b + (a + z)[hi..]
  {
    assert (a + z)[..lo] == a[..lo] && (a + z)[hi..] == a[hi..] + z;
  }

  /** A block of a file replaced by another one. */
  lemma {:induction false} BlockPut(d: seq<Block>, ns: seq<nat>, size: nat, q: nat, lo: nat, b: Block)
    requires Sized(d, ns, size) && q < |ns| && lo == q * size && NoDup(ns) && ns[q] < |d|
    ensures lo + size <= |Text(d, ns)| && Text(d[ns[q] := b], ns) == Text(d, ns)[..lo] + b + Text(d, ns)[lo + size..]
  {
    var m := |ns| - 1;
    var before, last := ns[..m], ns[m];
    TextSize(d, before, size);
    if q < m {
      assert before[q] == ns[q];
      BlockPut(d, before, size, q, lo, b);
      SpliceMore(Text(d, before), BlockOf(d, last), lo, lo + size, b);
    } else {
      LastPut(d, before, last, b);
      assert Text(d, ns)[..lo] == Text(d, before) && Text(d, ns)[lo + size..] == [];
    }
  }

  lemma {:induction false} LastPut(d: seq<Block>, before: seq<nat>, last: nat, b: Block)
    requires last < |d| && last !in before
    ensures Text(d[last := b], before) == Text(d, before)
  {
    SameText(d, d[last := b], before);
  }

  /** `n` blocks of zeros. */
  function ZeroBlocks(n: nat, size: nat): seq<byte> { if n == 0 then [] else ZeroBlocks(n - 1, size) + Zeros(size) }

  // ----- what a write does -----

  /** How many blocks the first `n` bytes of a file take. */
  function BlocksFor(n: nat, size: nat): nat
    requires size > 0
  {
    n / size + if n % size > 0 then 1 else 0
  }

  lemma {:induction false} BlocksHold(n: nat, size: nat, k: nat)
    requires size > 0 && BlocksFor(n, size) <= k
    ensures n <= k * size && (n % size > 0 ==> n - n % size + size <= k * size)
  {
    DivMod(n, size);
    assert n == n / size * size + n % size;
    MulUp(BlocksFor(n, size), size, k, size);
    assert (n / size + 1) * size == n / size * size + size;
  }

  /** How many bytes behind its end `ext2_write` zeroes: a write that goes on into a further block starts that with an
      empty buffer. */
  function Gap(offset: nat, length: nat, size: nat): nat
    requires size > 0
  {
    var e := offset + length;
    if offset % size + length <= size || e % size == 0 then 0 else size - e % size
  }

  function Overwritten(c: seq<byte>, offset: nat, buffer: seq<byte>, gap: nat): seq<byte>
    requires offset + |buffer| + gap <= |c|
  {
    c[..offset] + buffer + Zeros(gap) + c[offset + |buffer| + gap..]
  }

  lemma {:induction false} GapFits(offset: nat, length: nat, size: nat, k: nat)
    requires size > 0 && BlocksFor(offset + length, size) <= k
    ensures offset + length + Gap(offset, length, size) <= k * size
  {
    BlocksHold(offset + length, size, k);
  }

  /** Reading the range that was written returns the buffer, and the bytes before it are the old ones. */
  lemma {:induction false} ReadBack(c: seq<byte>, offset: nat, buffer: seq<byte>, gap: nat)
    requires offset + |buffer| + gap <= |c|
    ensures var w := Overwritten(c, offset, buffer, gap);
            |w| == |c| && w[offset..offset + |buffer|] == buffer && w[..offset] == c[..offset]
                && w[..offset + |buffer|] == c[..offset] + buffer
  {
  }

  /** The bytes behind the write are the old ones if and only if none are zeroed or those that are were zero before. */
  lemma {:induction false} TailKeptIff(c: seq<byte>, offset: nat, buffer: seq<byte>, gap: nat)
    requires offset + |buffer| + gap <= |c|
    ensures var e := offset + |buffer|;
            Overwritten(c, offset, buffer, gap)[e..] == c[e..] <==> c[e..e + gap] == Zeros(gap)
  {
    var e, w := offset + |buffer|, Overwritten(c, offset, buffer, gap);
    assert w[e..] == Zeros(gap) + c[e + gap..];
    assert c[e..] == c[e..e + gap] + c[e + gap..];
    if w[e..] == c[e..] {
      assert w[e..][..gap] == Zeros(gap) && c[e..][..gap] == c[e..e + gap];
    }
  }

  /** What `w`, which a write has made of `c`, has of the buffer and of the old bytes: those behind the write are kept
      if and only if those that were zeroed were zero. */
  ghost predicate ReadsBack(c: seq<byte>, w: seq<byte>, offset: nat, buffer: seq<byte>, gap: nat) {
    var e := offset + |buffer|;
    && e + gap <= |c| == |w| && w[offset..e] == buffer && w[..offset] == c[..offset] && w[..e] == c[..offset] + buffer
    && (w[e..] == c[e..] <==> c[e..e + gap] == Zeros(gap))
  }

  lemma {:induction false} OverwrittenReads(c: seq<byte>, offset: nat, buffer: seq<byte>, gap: nat)
    requires offset + |buffer| + gap <= |c|
    ensures ReadsBack(c, Overwritten(c, offset, buffer, gap), offset, buffer, gap)
  {
    ReadBack(c, offset, buffer, gap);
    TailKeptIff(c, offset, buffer, gap);
  }

  /** `w` is `c` after the first `done` bytes of the buffer have been written. */
  ghost predicate Partly(w: seq<byte>, c: seq<byte>, offset: nat, buffer: seq<byte>, done: nat)
    requires offset + |buffer| <= |c| && done <= |buffer|
  {
    |w| == |c| && forall p {:trigger w[p]} :: 0 <= p < |c| ==>
                    w[p] == if offset <= p < offset + done then buffer[p - offset] else c[p]
  }

  lemma {:induction false} PartlyAll(w: seq<byte>, c: seq<byte>, offset: nat, buffer: seq<byte>)
    requires offset + |buffer| <= |c| && Partly(w, c, offset, buffer, |buffer|)
    ensures w == Overwritten(c, offset, buffer, 0)
  {
  }

  /** The first block keeps what is before the offset, and what is behind the write if that ends there. */
  lemma {:induction false} PutFirst(c: seq<byte>, lo: nat, size: nat, begin: nat, buffer: seq<byte>, done: nat)
    requires lo + size <= |c| && done <= |buffer| && begin + done <= size && lo + begin + |buffer| <= |c|
    ensures var b := c[lo..lo + size];
            Partly(c[..lo] + (b[..begin] + buffer[..done] + b[begin + done..]) + c[lo + size..], c, lo + begin, buffer,
                done)
  {
  }

  /** A whole block more. */
  lemma {:induction false} PutNext(w: seq<byte>, c: seq<byte>, offset: nat, buffer: seq<byte>, done: nat, size: nat)
    requires done + size <= |buffer| && offset + |buffer| <= |c| && Partly(w, c, offset, buffer, done)
    ensures var lo := offset + done;
            Partly(w[..lo] + buffer[done..done + size] + w[lo + size..], c, offset, buffer, done + size)
  {
  }

  /** The last bytes, with zeros behind them. */
  lemma {:induction false} PutLast(w: seq<byte>, c: seq<byte>, offset: nat, buffer: seq<byte>, done: nat, gap: nat)
    requires done <= |buffer| && offset + |buffer| + gap <= |c| && Partly(w, c, offset, buffer, done)
    ensures w[..offset + done] + (buffer[done..] + Zeros(gap)) + w[offset + |buffer| + gap..] ==
            Overwritten(c, offset, buffer, gap)
  {
  }

  // ----- counting blocks -----

  /** Byte `lo`, at the start of block `q`, is one of the bytes of `n` blocks. */
  lemma {:induction false} BlockBefore(q: nat, size: nat, lo: nat, n: nat)
    requires lo == q * size < n * size
    ensures q < n && lo + size == (q + 1) * size && lo + size <= n * size
  {
    Cancel(q, n, size);
    MulStep(q, n, size);
  }

  /** At the start of block `b`, with `n` whole blocks and `rest` bytes to go. */
  predicate AtBlock(b: nat, size: nat, lo: nat, n: nat, rest: nat, todo: nat)
  {
    lo == b * size && todo == n * size + rest
  }

  lemma {:induction false} NextBlock(b: nat, size: nat, lo: nat, n: nat, rest: nat, todo: nat, total: nat)
    requires AtBlock(b, size, lo, n, rest, todo) && lo + todo <= total * size && size > 0
    ensures n > 0 ==> b < total && todo >= size && AtBlock(b + 1, size, lo + size, n - 1, rest, todo - size)
    ensures n == 0 ==> todo == rest
    ensures n == 0 && rest > 0 ==> b < total
  {
    if n > 0 {
      assert n * size == (n - 1) * size + size;
      MulAtLeast(n, size);
    }
    if n > 0 || rest > 0 { BlockBefore(b, size, lo, total); }
  }

  lemma {:induction false} MulZero(n: nat, size: nat, rest: nat, x: nat)
    requires x == n * size + rest && rest < size <= x
    ensures n >= 1
  {
  }

  /** How a write that reaches the end of its first block goes on. */
  lemma {:induction false} FirstEnds(offset: nat, b: nat, begin: nat, length: nat, size: nat, count: nat, rest: nat)
    requires size > 0 && offset == b * size + begin && begin < size && begin + length == count * size + rest
             && rest < size && begin + length >= size
    ensures count >= 1 && AtBlock(b + 1, size, offset + size - begin, count - 1, rest, length - (size - begin))
    ensures Gap(offset, length, size) == if rest == 0 then 0 else size - rest
  {
    DivModIs(offset, b, begin, size);
    DivModIs(begin + length, count, rest, size);
    ModShift(begin + length, b, size);
    assert b * size + (begin + length) == offset + length;
    MulZero(count, size, rest, begin + length);
    assert (b + 1) * size == b * size + size;
    assert count * size == (count - 1) * size + size;
    if begin + length == size {
      DivModIs(size, 1, 0, size);
    }
  }

  lemma {:induction false} FirstHolds(offset: nat, b: nat, begin: nat, length: nat, size: nat)
    requires size > 0 && offset == b * size + begin && begin < size && begin + length < size
    ensures Gap(offset, length, size) == 0
  {
    DivModIs(offset, b, begin, size);
  }
}
