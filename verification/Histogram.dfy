/** A histogram over any number of axes, kept in one linear array of counters. */
module Histogram {

  /** The number of buckets on each axis. */
  predicate ValidDims(dims: seq<nat>) {
    forall i :: 0 <= i < |dims| ==> dims[i] > 0
  }

  /** One bucket on each axis. */
  predicate ValidTuple(dims: seq<nat>, b: seq<nat>) {
    |b| == |dims| && forall i :: 0 <= i < |dims| ==> b[i] < dims[i]
  }

  function RawSize(dims: seq<nat>): nat {
    if dims == [] then 1 else dims[0] * RawSize(dims[1..])
  }

  lemma {:induction false} RawSizePositive(dims: seq<nat>)
    requires ValidDims(dims)
    ensures RawSize(dims) > 0
    decreases |dims|
  {
    if dims != [] {
      RawSizePositive(dims[1..]);
      MulPositive(dims[0], RawSize(dims[1..]));
    }
  }

  lemma MulPositive(a: nat, b: nat)
    requires a > 0 && b > 0
    ensures a * b > 0
  {
  }

  lemma {:induction false} RawSizeSnoc(dims: seq<nat>, d: nat)
    ensures RawSize(dims + [d]) == RawSize(dims) * d
    decreases |dims|
  {
    if dims == [] {
      assert [d][1..] == [];
    } else {
      assert (dims + [d])[1..] == dims[1..] + [d];
      RawSizeSnoc(dims[1..], d);
      MulAssoc(dims[0], RawSize(dims[1..]), d);
    }
  }

  lemma MulAssoc(a: int, b: int, c: int)
    ensures a * (b * c) == (a * b) * c
  {
  }

  const INT64_MAX: nat := 0x7fff_ffff_ffff_ffff

  /** The number of counters, and whether it could be computed in 64 bits. */
  method GetRawSize(dims: seq<nat>) returns (ret: nat, fits: bool)
    ensures ret == RawSize(dims)
    ensures ValidDims(dims) ==> (fits <==> ret <= INT64_MAX)
  {
    ret, fits := 1, true;
    for i := 0 to |dims|
      invariant ret == RawSize(dims[..i])
      invariant ValidDims(dims) ==> (fits <==> ret <= INT64_MAX)
    {
      RawSizeSnoc(dims[..i], dims[i]);
      assert dims[..i] + [dims[i]] == dims[..i + 1];
      if dims[i] > 0 { MulGrows(ret, dims[i]); }
      ret := ret * dims[i];
      fits := fits && ret <= INT64_MAX;
    }
    assert dims[..|dims|] == dims;
  }

  lemma MulGrows(a: nat, b: nat)
    requires b > 0
    ensures a <= a * b
  {
  }

  /** get_raw_index_internal(): one axis after the other. */
  function IndexFrom(dims: seq<nat>, b: seq<nat>, start: nat): nat
    requires |b| == |dims|
    decreases |dims|
  {
    if dims == [] then start else IndexFrom(dims[1..], b[1..], dims[0] * start + b[0])
  }

  function Index(dims: seq<nat>, b: seq<nat>): nat
    requires |b| == |dims|
  {
    IndexFrom(dims, b, 0)
  }

  /** The start moves all indices by whole blocks. */
  lemma {:induction false} IndexShift(dims: seq<nat>, b: seq<nat>, start: nat)
    requires |b| == |dims|
    ensures IndexFrom(dims, b, start) == start * RawSize(dims) + Index(dims, b)
    decreases |dims|
  {
    if dims != [] {
      var d, r := dims[0], RawSize(dims[1..]);
      IndexShift(dims[1..], b[1..], d * start + b[0]);
      IndexShift(dims[1..], b[1..], d * 0 + b[0]);
      Distribute(d, start, b[0], r);
    }
  }

  lemma Distribute(d: int, start: int, x: int, r: int)
    ensures (d * start + x) * r == start * (d * r) + x * r
  {
    calc {
      (d * start + x) * r;
      (d * start) * r + x * r;
      { MulAssoc(start, d, r); }
      start * (d * r) + x * r;
    }
  }

  /** The first bucket picks the block, the others the place in it. */
  lemma IndexSplit(dims: seq<nat>, b: seq<nat>)
    requires |b| == |dims| > 0
    ensures Index(dims, b) == b[0] * RawSize(dims[1..]) + Index(dims[1..], b[1..])
  {
    IndexShift(dims[1..], b[1..], dims[0] * 0 + b[0]);
  }

  lemma {:induction false} IndexInRange(dims: seq<nat>, b: seq<nat>)
    requires ValidTuple(dims, b)
    ensures Index(dims, b) < RawSize(dims)
    decreases |dims|
  {
    if dims != [] {
      IndexSplit(dims, b);
      IndexInRange(dims[1..], b[1..]);
      BlockBound(b[0], dims[0], RawSize(dims[1..]), Index(dims[1..], b[1..]));
    }
  }

  lemma BlockBound(x: nat, d: nat, r: nat, i: nat)
    requires x < d && i < r
    ensures x * r + i < d * r
  {
    assert (x + 1) * r <= d * r;
  }

  /** The buckets that an index stands for. */
  function Tuple(dims: seq<nat>, i: nat): (b: seq<nat>)
    requires ValidDims(dims)
    ensures |b| == |dims|
    decreases |dims|
  {
    if dims == [] then []
    else
      RawSizePositive(dims[1..]);
      [i / RawSize(dims[1..])] + Tuple(dims[1..], i % RawSize(dims[1..]))
  }

  lemma MulCompare(a: int, b: int, r: nat)
    ensures a <= b ==> a * r <= b * r
    ensures a < b ==> (a + 1) * r == a * r + r && (a + 1) * r <= b * r
  {
  }

  /** Places in blocks of size r compare by block first. */
  lemma BlockCompare(x: nat, i: nat, y: nat, j: nat, r: nat)
    requires i < r && j < r
    ensures x * r + i < y * r + j <==> x < y || (x == y && i < j)
  {
    MulCompare(x, y, r);
    MulCompare(y, x, r);
  }

  lemma DivModUnique(x: nat, r: nat, i: nat)
    requires i < r
    ensures (x * r + i) / r == x && (x * r + i) % r == i
  {
    var q, m := (x * r + i) / r, (x * r + i) % r;
    assert q * r + m == x * r + i;
    BlockCompare(q, m, x, i, r);
    BlockCompare(x, i, q, m, r);
  }

  /** From buckets to index and back. */
  lemma {:induction false} TupleOfIndex(dims: seq<nat>, b: seq<nat>)
    requires ValidDims(dims) && ValidTuple(dims, b)
    ensures Tuple(dims, Index(dims, b)) == b
    decreases |dims|
  {
    if dims != [] {
      IndexSplit(dims, b);
      IndexInRange(dims[1..], b[1..]);
      DivModUnique(b[0], RawSize(dims[1..]), Index(dims[1..], b[1..]));
      TupleOfIndex(dims[1..], b[1..]);
    }
  }

  /** From index to buckets and back. */
  lemma {:induction false} IndexOfTuple(dims: seq<nat>, i: nat)
    requires ValidDims(dims) && i < RawSize(dims)
    ensures ValidTuple(dims, Tuple(dims, i)) && Index(dims, Tuple(dims, i)) == i
    decreases |dims|
  {
    if dims != [] {
      var r := RawSize(dims[1..]);
      RawSizePositive(dims[1..]);
      DivBelow(i, dims[0], r);
      IndexOfTuple(dims[1..], i % r);
      IndexSplit(dims, Tuple(dims, i));
    }
  }

  lemma DivBelow(i: nat, d: nat, r: nat)
    requires r > 0 && i < d * r
    ensures i / r < d && i / r * r + i % r == i && i % r < r
  {
    MulCompare(d, i / r, r);
  }

  predicate LexLess(a: seq<nat>, b: seq<nat>)
    requires |a| == |b|
    decreases |a|
  {
    a != [] && (a[0] < b[0] || (a[0] == b[0] && LexLess(a[1..], b[1..])))
  }

  /** The linear order of the counters is the lexicographic order of the buckets. */
  lemma {:induction false} IndexIsLexicographic(dims: seq<nat>, a: seq<nat>, b: seq<nat>)
    requires ValidTuple(dims, a) && ValidTuple(dims, b)
    ensures LexLess(a, b) <==> Index(dims, a) < Index(dims, b)
    decreases |dims|
  {
    if dims != [] {
      IndexSplit(dims, a);
      IndexSplit(dims, b);
      IndexInRange(dims[1..], a[1..]);
      IndexInRange(dims[1..], b[1..]);
      IndexIsLexicographic(dims[1..], a[1..], b[1..]);
      BlockCompare(a[0], Index(dims[1..], a[1..]), b[0], Index(dims[1..], b[1..]), RawSize(dims[1..]));
    }
  }

  // ---- traversal ----

  newtype int32 = x: int | -0x8000_0000 <= x < 0x8000_0000

  datatype Event = Enter(level: nat) | Visit(index: nat) | Leave(level: nat)

  function Visits(trace: seq<Event>): seq<nat> {
    if trace == [] then []
    else Visits(trace[..|trace| - 1])
         + (if trace[|trace| - 1].Visit? then [trace[|trace| - 1].index] else [])
  }

  function Range(from: nat, n: nat): seq<nat> {
    seq(n, i requires 0 <= i => from + i)
  }

  /** How deep one is after the events, if each axis is entered from the one before it and left again
      in turn, and counters are visited only below the last axis. */
  function Depth(trace: seq<Event>, depth: nat, dim: nat): (r: int)
    decreases |trace|
  {
    if trace == [] then depth
    else
      var d := Depth(trace[..|trace| - 1], depth, dim);
      match trace[|trace| - 1]
      case Enter(l) => if d == l && l < dim then d + 1 else -1
      case Visit(_) => if d == dim then d else -1
      case Leave(l) => if d == l + 1 then d - 1 else -1
  }

  lemma {:induction false} VisitsConcat(a: seq<Event>, b: seq<Event>)
    ensures Visits(a + b) == Visits(a) + Visits(b)
    decreases |b|
  {
    if b == [] {
      assert a + b == a;
    } else {
      var t := a + b;
      assert t[..|t| - 1] == a + b[..|b| - 1] && t[|t| - 1] == b[|b| - 1];
      VisitsConcat(a, b[..|b| - 1]);
    }
  }

  lemma {:induction false} DepthConcat(a: seq<Event>, b: seq<Event>, depth: nat, dim: nat)
    requires Depth(a, depth, dim) >= 0
    ensures Depth(a + b, depth, dim) == Depth(b, Depth(a, depth, dim), dim)
    decreases |b|
  {
    if b == [] {
      assert a + b == a;
    } else {
      var t := a + b;
      assert t[..|t| - 1] == a + b[..|b| - 1] && t[|t| - 1] == b[|b| - 1];
      DepthConcat(a, b[..|b| - 1], depth, dim);
    }
  }

  lemma VisitsOne(e: Event)
    ensures Visits([e]) == if e.Visit? then [e.index] else []
  {
    assert [e][..0] == [];
  }

  lemma DepthOne(e: Event, depth: nat, dim: nat)
    ensures Depth([e], depth, dim) == match e
                                      case Enter(l) => if depth == l && l < dim then depth + 1 else -1
                                      case Visit(_) => if depth == dim then depth else -1
                                      case Leave(l) => if depth == l + 1 then depth - 1 else -1
  {
    assert [e][..0] == [];
  }

  /** The events visit the counters [from, from + n) in order and lead from one depth to another. */
  predicate Walks(trace: seq<Event>, depth: nat, depth': nat, dim: nat, from: nat, n: nat) {
    Visits(trace) == Range(from, n) && Depth(trace, depth, dim) == depth'
  }

  lemma WalksVisit(dim: nat, index: nat)
    ensures Walks([Visit(index)], dim, dim, dim, index * 1, 1)
  {
    VisitsOne(Visit(index));
    DepthOne(Visit(index), dim, dim);
  }

  lemma WalksEnter(level: nat, dim: nat, first: nat, r: nat)
    requires level < dim
    ensures Walks([Enter(level)], level, level + 1, dim, first * r, 0 * r)
  {
    VisitsOne(Enter(level));
    DepthOne(Enter(level), level, dim);
  }

  lemma WalksInner(trace: seq<Event>, inner: seq<Event>, level: nat, dim: nat, first: nat, i: nat, r: nat)
    requires Walks(trace, level, level + 1, dim, first * r, i * r)
    requires Walks(inner, level + 1, level + 1, dim, (first + i) * r, r)
    ensures Walks(trace + inner, level, level + 1, dim, first * r, (i + 1) * r)
  {
    hide Visits, Depth;
    VisitsConcat(trace, inner);
    DepthConcat(trace, inner, level, dim);
    RangeConcat(first, i, r);
  }

  lemma RangeConcat(first: nat, i: nat, r: nat)
    ensures Range(first * r, i * r) + Range((first + i) * r, r) == Range(first * r, (i + 1) * r)
  {
    assert (first + i) * r == first * r + i * r;
    assert (i + 1) * r == i * r + r;
  }

  lemma WalksLeave(trace: seq<Event>, level: nat, dim: nat, from: nat, n: nat)
    requires Walks(trace, level, level + 1, dim, from, n)
    ensures Walks(trace + [Leave(level)], level, level, dim, from, n)
  {
    hide Visits, Depth;
    VisitsConcat(trace, [Leave(level)]);
    DepthConcat(trace, [Leave(level)], level, dim);
    VisitsOne(Leave(level));
    DepthOne(Leave(level), level + 1, dim);
  }

  /** A block of d blocks of size r lies at a multiple of its own size, and so do they. */
  lemma BlockFits(start: nat, d: nat, r: nat, max: nat)
    requires (start + 1) * (d * r) <= max && r > 0
    ensures (start * d + d) * r <= max && start * d + d <= max
    ensures start * (d * r) == (start * d) * r
  {
    MulAssoc(start, d, r);
    MulAssoc(start + 1, d, r);
    var m := start * d + d;
    assert (start + 1) * d == m;
    MulCompare(1, r, m);
  }

  const INT_MAX: nat := 0x7fff_ffff

  /** startIndex *= m_buckets, in 32 bits */
  method BlockStart(start: int32, buckets: nat) returns (index: int32)
    requires 0 <= start && start as int * buckets + buckets <= INT_MAX
    ensures index as int == start as int * buckets
  {
    index := (start as int * buckets) as int32;
  }

  /** Visits all counters below `level`, in the block that `start` picks: every index exactly once, in
      increasing order, with the axes entered and left like brackets, and without 32-bit overflow. */
  method VisitValues(dims: seq<nat>, level: nat, start: int32) returns (trace: seq<Event>)
    requires ValidDims(dims) && level <= |dims| && start >= 0
    requires (start as int + 1) * RawSize(dims[level..]) <= INT_MAX
    ensures Walks(trace, level, level, |dims|, start as int * RawSize(dims[level..]), RawSize(dims[level..]))
    decreases |dims| - level
  {
    hide Walks;
    if level == |dims| {
      WalksVisit(|dims|, start as int);
      return [Visit(start as int)];
    }
    assert dims[level..][1..] == dims[level + 1..];
    ghost var d, r := dims[level], RawSize(dims[level + 1..]);
    RawSizePositive(dims[level + 1..]);
    BlockFits(start as int, d, r, INT_MAX);
    var index := BlockStart(start, dims[level]);
    ghost var first := index as int;
    trace := [Enter(level)];
    WalksEnter(level, |dims|, first, r);
    for i := 0 to dims[level]
      invariant index as int == first + i
      invariant Walks(trace, level, level + 1, |dims|, first * r, i * r)
    {
      MulCompare(first + i + 1, first + d, r);
      var inner := VisitValues(dims, level + 1, index);
      WalksInner(trace, inner, level, |dims|, first, i, r);
      trace := trace + inner;
      index := index + 1;
    }
    WalksLeave(trace, level, |dims|, first * r, d * r);
    trace := trace + [Leave(level)];
  }

  // ---- counting ----

  const WRAP: nat := 0x1_0000_0000_0000_0000

  function Count(inputs: seq<seq<nat>>, b: seq<nat>): nat {
    if inputs == [] then 0
    else Count(inputs[..|inputs| - 1], b) + if inputs[|inputs| - 1] == b then 1 else 0
  }

  lemma CountSnoc(inputs: seq<seq<nat>>, x: seq<nat>, b: seq<nat>)
    ensures Count(inputs + [x], b) == Count(inputs, b) + if x == b then 1 else 0
  {
    assert (inputs + [x])[..|inputs|] == inputs;
  }

  /** The counters hold how often each tuple of buckets was counted, modulo 2^64. */
  ghost predicate Tally(dims: seq<nat>, data: seq<nat>, inputs: seq<seq<nat>>)
    requires ValidDims(dims)
  {
    |data| == RawSize(dims) && forall i :: 0 <= i < |data| ==> data[i] == Count(inputs, Tuple(dims, i)) % WRAP
  }

  /** Counting one more tuple changes one counter. */
  lemma {:induction false} TallyInc(dims: seq<nat>, data: seq<nat>, inputs: seq<seq<nat>>, b: seq<nat>)
    requires ValidDims(dims) && ValidTuple(dims, b) && Tally(dims, data, inputs) && Index(dims, b) < |data|
    ensures Tally(dims, data[Index(dims, b) := (data[Index(dims, b)] + 1) % WRAP], inputs + [b])
  {
    hide Index, Tuple, Count, RawSize;
    var k := Index(dims, b);
    var data' := data[k := (data[k] + 1) % WRAP];
    forall i | 0 <= i < |data'| ensures data'[i] == Count(inputs + [b], Tuple(dims, i)) % WRAP {
      CountSnoc(inputs, b, Tuple(dims, i));
      if i == k {
        TupleOfIndex(dims, b);
      } else {
        IndexOfTuple(dims, i);
      }
    }
  }

  class PerfHistogram {
    const dims: seq<nat>
    const data: array<nat>
    ghost var inputs: seq<seq<nat>>

    ghost predicate Valid()
      reads this, data
    {
      ValidDims(dims) && Tally(dims, data[..], inputs) && forall x :: x in inputs ==> ValidTuple(dims, x)
    }

    /** The counters are allocated but not cleared. */
    constructor (buckets: seq<nat>)
      requires ValidDims(buckets)
      ensures dims == buckets && data.Length == RawSize(dims) && fresh(data)
    {
      dims := buckets;
      var size, _ := GetRawSize(buckets);
      data := new nat[size];
      inputs := [];
    }

    method Reset()
      requires ValidDims(dims) && data.Length == RawSize(dims)
      modifies this, data
      ensures Valid() && inputs == []
    {
      var i := data.Length;
      while i > 0
        invariant 0 <= i <= data.Length
        invariant forall j :: i <= j < data.Length ==> data[j] == 0
      {
        i := i - 1;
        data[i] := 0;
      }
      inputs := [];
    }

    /** Counts a tuple of buckets, or aborts if one is negative or too large. */
    method IncBucket(b: seq<int>) returns (ok: bool)
      requires Valid() && |b| == |dims|
      modifies this, data
      ensures Valid() && (ok <==> InRange(dims, b))
      ensures inputs == if ok then old(inputs) + [b] else old(inputs)
    {
      if exists i :: 0 <= i < |dims| && (b[i] < 0 || b[i] >= dims[i]) { return false; }
      var tuple: seq<nat> := b;
      var index := Index(dims, tuple);
      IndexInRange(dims, tuple);
      TallyInc(dims, data[..], inputs, tuple);
      ghost var was := data[..];
      data[index] := (data[index] + 1) % WRAP;
      assert data[..] == was[index := (was[index] + 1) % WRAP];
      inputs := inputs + [tuple];
      ok := true;
    }

    method ReadBucket(b: seq<int>) returns (ok: bool, n: nat)
      requires Valid() && |b| == |dims|
      ensures ok <==> InRange(dims, b)
      ensures ok ==> n == Count(inputs, b) % WRAP
    {
      n := 0;
      if exists i :: 0 <= i < |dims| && (b[i] < 0 || b[i] >= dims[i]) { return false, n; }
      var tuple: seq<nat> := b;
      IndexInRange(dims, tuple);
      TupleOfIndex(dims, tuple);
      assert data[..][Index(dims, tuple)] == data[Index(dims, tuple)];
      ok, n := true, data[Index(dims, tuple)];
    }
  }

  /** Numbers that are buckets, one on each axis. */
  predicate InRange(dims: seq<nat>, b: seq<int>) {
    |b| == |dims| && forall i :: 0 <= i < |dims| ==> 0 <= b[i] < dims[i]
  }

  // ---- fewer dimensions ----

  /** The buckets on the axes one is interested in. */
  function Project(b: seq<nat>, keep: seq<bool>): seq<nat>
    requires |b| == |keep|
    decreases |b|
  {
    if b == [] then [] else (if keep[0] then [b[0]] else []) + Project(b[1..], keep[1..])
  }

  /** Sums the first n counters whose buckets agree with `u` on the kept axes. */
  function SumOut(dims: seq<nat>, data: seq<nat>, keep: seq<bool>, u: seq<nat>, n: nat): nat
    requires ValidDims(dims) && |keep| == |dims| && n <= |data|
  {
    if n == 0 then 0
    else SumOut(dims, data, keep, u, n - 1) + if Project(Tuple(dims, n - 1), keep) == u then data[n - 1] else 0
  }

  function Projected(inputs: seq<seq<nat>>, keep: seq<bool>): seq<seq<nat>>
    requires forall x :: x in inputs ==> |x| == |keep|
  {
    seq(|inputs|, i requires 0 <= i < |inputs| => Project(inputs[i], keep))
  }

  /** The exact counts, without wrap-around. */
  function Counts(dims: seq<nat>, inputs: seq<seq<nat>>): (c: seq<nat>)
    requires ValidDims(dims)
    ensures |c| == RawSize(dims)
  {
    seq(RawSize(dims), i requires 0 <= i => Count(inputs, Tuple(dims, i)))
  }

  lemma {:induction false} SumOutNone(dims: seq<nat>, keep: seq<bool>, u: seq<nat>, n: nat)
    requires ValidDims(dims) && |keep| == |dims| && n <= RawSize(dims)
    ensures SumOut(dims, Counts(dims, []), keep, u, n) == 0
    decreases n
  {
    if n > 0 { SumOutNone(dims, keep, u, n - 1); }
  }

  lemma {:induction false} SumOutInc(dims: seq<nat>, inputs: seq<seq<nat>>, x: seq<nat>, keep: seq<bool>, u: seq<nat>, n: nat)
    requires ValidDims(dims) && |keep| == |dims| && n <= RawSize(dims) && ValidTuple(dims, x)
    ensures SumOut(dims, Counts(dims, inputs + [x]), keep, u, n)
         == SumOut(dims, Counts(dims, inputs), keep, u, n) + if Index(dims, x) < n && Project(x, keep) == u then 1 else 0
    decreases n
  {
    hide Index, Tuple, Count, RawSize, Project;
    if n > 0 {
      SumOutInc(dims, inputs, x, keep, u, n - 1);
      CountSnoc(inputs, x, Tuple(dims, n - 1));
      TupleOfIndex(dims, x);
      IndexOfTuple(dims, n - 1);
      assert Tuple(dims, n - 1) == x <==> Index(dims, x) == n - 1;
    }
  }

  lemma ProjectedSnoc(inputs: seq<seq<nat>>, x: seq<nat>, keep: seq<bool>)
    requires |x| == |keep| && forall y :: y in inputs ==> |y| == |keep|
    ensures Projected(inputs + [x], keep) == Projected(inputs, keep) + [Project(x, keep)]
  {
    hide Project;
  }

  lemma SumOutStep(dims: seq<nat>, inputs: seq<seq<nat>>, x: seq<nat>, keep: seq<bool>, u: seq<nat>)
    requires ValidDims(dims) && |keep| == |dims| && ValidTuple(dims, x)
    ensures SumOut(dims, Counts(dims, inputs + [x]), keep, u, RawSize(dims))
         == SumOut(dims, Counts(dims, inputs), keep, u, RawSize(dims)) + if Project(x, keep) == u then 1 else 0
  {
    hide SumOut, Counts, Index, Project;
    SumOutInc(dims, inputs, x, keep, u, RawSize(dims));
    IndexInRange(dims, x);
  }

  lemma {:induction false} SumOutExact(dims: seq<nat>, inputs: seq<seq<nat>>, keep: seq<bool>, u: seq<nat>)
    requires ValidDims(dims) && |keep| == |dims|
    requires forall x :: x in inputs ==> ValidTuple(dims, x) && |x| == |keep|
    ensures SumOut(dims, Counts(dims, inputs), keep, u, RawSize(dims)) == Count(Projected(inputs, keep), u)
    decreases |inputs|
  {
    hide SumOut, Counts, Project, RawSize, Projected;
    if inputs == [] {
      SumOutNone(dims, keep, u, RawSize(dims));
      assert Projected([], keep) == [] by { ProjectedNone(keep); }
    } else {
      var init, x := inputs[..|inputs| - 1], inputs[|inputs| - 1];
      assert inputs == init + [x];
      SumOutExact(dims, init, keep, u);
      SumOutStep(dims, init, x, keep, u);
      ProjectedSnoc(init, x, keep);
      CountSnoc(Projected(init, keep), Project(x, keep), u);
    }
  }

  lemma ProjectedNone(keep: seq<bool>)
    ensures Projected([], keep) == []
  {
  }

  lemma {:induction false} SumOutModulo(dims: seq<nat>, data: seq<nat>, inputs: seq<seq<nat>>, keep: seq<bool>, u: seq<nat>, n: nat)
    requires ValidDims(dims) && |keep| == |dims| && Tally(dims, data, inputs) && n <= |data|
    ensures SumOut(dims, data, keep, u, n) % WRAP == SumOut(dims, Counts(dims, inputs), keep, u, n) % WRAP
    decreases n
  {
    hide Index, Tuple, Count, RawSize, Project;
    if n > 0 {
      SumOutModulo(dims, data, inputs, keep, u, n - 1);
      AddModulo(SumOut(dims, data, keep, u, n - 1), SumOut(dims, Counts(dims, inputs), keep, u, n - 1),
                Count(inputs, Tuple(dims, n - 1)));
    }
  }

  lemma AddModulo(a: nat, b: nat, c: nat)
    requires a % WRAP == b % WRAP
    ensures (a + c % WRAP) % WRAP == (b + c) % WRAP
  {
  }

  /** Summing over the axes one is not interested in gives the histogram of the others. */
  lemma SumOutIsProjection(dims: seq<nat>, data: seq<nat>, inputs: seq<seq<nat>>, keep: seq<bool>, u: seq<nat>)
    requires ValidDims(dims) && |keep| == |dims| && Tally(dims, data, inputs)
    requires forall x :: x in inputs ==> ValidTuple(dims, x) && |x| == |keep|
    ensures SumOut(dims, data, keep, u, |data|) % WRAP == Count(Projected(inputs, keep), u) % WRAP
  {
    SumOutModulo(dims, data, inputs, keep, u, |data|);
    SumOutExact(dims, inputs, keep, u);
  }
}
