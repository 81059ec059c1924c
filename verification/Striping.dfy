/** How one flat file is cut into objects, and the arithmetic of its allocation. */
module Striping {
  import opened Wrappers
  import opened Rados

  /** Bytes per object: 1 << object_size. */
  const STRIPE: nat := 0x40_0000
  const MIN_GROWTH: nat := 0x800_0000

  datatype Extent = Extent(stripe: nat, off: nat, len: nat)

  /** The first piece of the byte range [off, off + len): the part inside one object. */
  function NextExtent(off: nat, len: nat): (e: Extent)
    ensures e.stripe * STRIPE + e.off == off && e.off + e.len <= STRIPE
    ensures e.len <= len && (0 < len ==> 0 < e.len)
    ensures e.len < len ==> e.off + e.len == STRIPE
  {
    var o := off % STRIPE;
    Extent(off / STRIPE, o, if len < STRIPE - o then len else STRIPE - o)
  }

  /** A byte range cut at object boundaries. */
  function Extents(off: nat, len: nat): (es: seq<Extent>)
    decreases len
  {
    if len == 0 then []
    else
      var e := NextExtent(off, len);
      [e] + Extents(off + e.len, len - e.len)
  }

  /** The pieces are exactly the bytes of the range, in order: each piece starts where the one before
      it ended, no piece crosses an object boundary, and their lengths add up. */
  lemma {:induction false} ExtentsTile(off: nat, len: nat, i: nat)
    requires i < |Extents(off, len)|
    ensures var es := Extents(off, len);
            && 0 < es[i].len && es[i].off + es[i].len <= STRIPE
            && (i == 0 ==> es[i].stripe * STRIPE + es[i].off == off)
            && (0 < i ==> es[i].off == 0 && es[i].stripe == es[i - 1].stripe + 1 && es[i - 1].off + es[i - 1].len == STRIPE)
            && (i == |es| - 1 ==> es[i].stripe * STRIPE + es[i].off + es[i].len == off + len)
    decreases len
  {
    var e := NextExtent(off, len);
    if e.len < len {
      var tl := Extents(off + e.len, len - e.len);
      if i > 0 {
        ExtentsTile(off + e.len, len - e.len, i - 1);
        assert Extents(off, len)[i] == tl[i - 1];
        if i > 1 { assert Extents(off, len)[i - 1] == tl[i - 2]; }
      }
    }
  }

  function RoundUp(n: nat): (r: nat)
    ensures r % STRIPE == 0 && n <= r < n + STRIPE
  {
    (n + STRIPE - 1) / STRIPE * STRIPE
  }

  /** The allocation chosen whenever the file outgrows the one it has. It looks at the current size,
      not at the size asked for. */
  function GrownAlloc(size: nat): (a: nat)
    ensures a % STRIPE == 0 && size + MIN_GROWTH <= a < size + MIN_GROWTH + STRIPE
  {
    MIN_GROWTH + RoundUp(size)
  }

  /** The exact condition under which the allocation covers the first `end` bytes afterwards. */
  predicate Fits(size: nat, alloc: nat, end: nat) {
    end <= alloc || end <= GrownAlloc(size)
  }

  function AllocFor(size: nat, alloc: nat, end: nat): nat {
    if alloc < end then GrownAlloc(size) else alloc
  }

  lemma GrowthCoversExactly(size: nat, alloc: nat, end: nat)
    ensures end <= AllocFor(size, alloc, end) <==> Fits(size, alloc, end)
    ensures Fits(size, alloc, end) ==> alloc <= AllocFor(size, alloc, end)
    ensures end <= size + MIN_GROWTH ==> Fits(size, alloc, end)
  {
  }

  /** What happens otherwise: an empty file written at 256 MB is left with an allocation of half that, and
      a file that once was large loses allocation by growing. */
  lemma GrowthFallsShort()
    ensures !Fits(0, 0, 0x1000_0001) && AllocFor(0, 0, 0x1000_0001) == MIN_GROWTH
    ensures !Fits(1, 0x1000_0000, 0x1000_0001) && AllocFor(1, 0x1000_0000, 0x1000_0001) < 0x1000_0000
  {
  }

  /** The allocation a shrink would settle on, if it is worth one. */
  function ShrunkAlloc(size: nat, alloc: nat): (a: nat)
    ensures a <= alloc
  {
    if size == 0 then 0
    else if alloc > GrownAlloc(size) && alloc - GrownAlloc(size) > MIN_GROWTH then GrownAlloc(size)
    else alloc
  }

  /** A shrink settles: a second one finds nothing to do, and it never cuts into the file.  The allocation of a file
      that is not empty is kept exactly if it is at most MIN_GROWTH above what growth would choose. */
  lemma ShrinkSettles(size: nat, alloc: nat)
    ensures ShrunkAlloc(size, ShrunkAlloc(size, alloc)) == ShrunkAlloc(size, alloc)
    ensures size <= alloc ==> size <= ShrunkAlloc(size, alloc)
    ensures ShrunkAlloc(size, alloc) <= 2 * MIN_GROWTH + RoundUp(size)
    ensures AllocOk(alloc) ==> AllocOk(ShrunkAlloc(size, alloc))
    ensures size > 0 ==> (ShrunkAlloc(size, alloc) == alloc <==> alloc <= 2 * MIN_GROWTH + RoundUp(size))
    ensures ShrunkAlloc(size, alloc) != alloc ==> ShrunkAlloc(size, alloc) == if size == 0 then 0 else GrownAlloc(size)
  {
  }

  ghost predicate AllocOk(alloc: nat) {
    alloc % STRIPE == 0 && (alloc == 0 || MIN_GROWTH <= alloc)
  }

  /** A byte of the file, in the pool's objects as they will be when all queued operations landed. */
  ghost predicate HasByte(o: Option<Object>, i: nat, b: Byte) {
    o.Some? && i < |o.value.data| && o.value.data[i] == b
  }

  ghost predicate Holds(p: Pool, f: seq<Byte>) {
    forall i :: 0 <= i < |f| ==> HasByte(Final(At(p, i / STRIPE)), i % STRIPE, f[i])
  }

  /** The same of the objects as they are stored now. */
  ghost predicate Stores(p: Pool, f: seq<Byte>) {
    forall i :: 0 <= i < |f| ==> HasByte(At(p, i / STRIPE).obj, i % STRIPE, f[i])
  }

  /** `f` with the bytes from `off` on replaced by `d`. */
  function Splice(f: seq<Byte>, off: nat, d: seq<Byte>): (r: seq<Byte>)
    requires off <= |f|
    ensures |r| == if |f| < off + |d| then off + |d| else |f|
    ensures forall i :: 0 <= i < |r| ==> r[i] == if off <= i < off + |d| then d[i - off] else f[i]
  {
    f[..off] + d + (if off + |d| <= |f| then f[off + |d|..] else [])
  }

  /** Every object but the first that exists or may come to exist lies below every value of
      `allocated` that may be stored. */
  ghost predicate NoDangling(p: Pool) {
    forall k, a :: k > 0 && Occupied(At(p, k)) && a in Allocs(At(p, 0)) ==> k * STRIPE < a
  }
}
