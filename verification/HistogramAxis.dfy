/** Which bucket of an axis a value falls into, and which values a bucket stands for. */
module HistogramAxis {

  datatype Scale = Linear | Log2

  datatype Axis = Axis(scale: Scale, min: int, quant: int, buckets: int)

  const INT64_MIN: int := -0x8000_0000_0000_0000
  const INT64_MAX: int := 0x7fff_ffff_ffff_ffff

  predicate ValidAxis(ac: Axis) {
    ac.quant > 0 && ac.buckets > 0 && INT64_MIN <= ac.min <= INT64_MAX
  }

  function Pow2(n: nat): (p: nat)
    ensures p > 0
  {
    if n == 0 then 1 else 2 * Pow2(n - 1)
  }

  /** Where bucket i ends, in quantization units above the minimum. */
  function Quants(scale: Scale, i: nat): nat {
    match scale
    case Linear => i
    case Log2 => if i == 0 then 0 else Pow2(i - 1)
  }

  lemma {:induction false} QuantsIncrease(scale: Scale, i: nat, j: nat)
    requires i <= j
    ensures Quants(scale, i) <= Quants(scale, j)
    decreases j
  {
    if i < j { QuantsIncrease(scale, i, j - 1); }
  }

  function Last(ac: Axis): nat
    requires ValidAxis(ac)
  {
    ac.buckets - 1
  }

  /** The inclusive range of values of bucket i. */
  function RangeOf(ac: Axis, i: nat): (int, int)
    requires ValidAxis(ac) && i <= Last(ac)
  {
    (if i == 0 then INT64_MIN else ac.min + Quants(ac.scale, i - 1) * ac.quant,
     if i == Last(ac) then INT64_MAX else if i == 0 then ac.min - 1 else ac.min + Quants(ac.scale, i) * ac.quant - 1)
  }

  predicate InBucket(ac: Axis, value: int, i: nat)
    requires ValidAxis(ac) && i <= Last(ac)
  {
    RangeOf(ac, i).0 <= value <= RangeOf(ac, i).1
  }

  lemma DivBelow(x: nat, q: nat, quant: nat)
    requires quant > 0
    ensures x / quant < q <==> x < q * quant
  {
    var d := x / quant;
    assert d * quant <= x < d * quant + quant;
    if d < q { assert (d + 1) * quant <= q * quant; } else { assert q * quant <= d * quant; }
  }

  /** Buckets follow each other without a gap, the first holding all below the minimum and the last all that is
      left; between them those of a linear scale are one quantum wide, and on a logarithmic scale, from the
      second on, each is as wide as all before it together. */
  lemma BucketWidths(ac: Axis, i: nat)
    requires ValidAxis(ac) && 0 < i <= Last(ac)
    ensures RangeOf(ac, i).0 == RangeOf(ac, i - 1).1 + 1 && RangeOf(ac, 1).0 == ac.min
    ensures RangeOf(ac, 0).0 == INT64_MIN && RangeOf(ac, Last(ac)).1 == INT64_MAX
    ensures i < Last(ac) ==> var width := RangeOf(ac, i).1 + 1 - RangeOf(ac, i).0;
                             width == if ac.scale.Linear? || i == 1 then ac.quant else RangeOf(ac, i).0 - ac.min
  {
    if ac.scale.Linear? {
      assert i * ac.quant == (i - 1) * ac.quant + ac.quant;
    } else if i > 1 {
      assert Pow2(i - 1) == 2 * Pow2(i - 2);
    }
  }

  /** Every value is in exactly one bucket. */
  lemma BucketUnique(ac: Axis, value: int, i: nat, j: nat)
    requires ValidAxis(ac) && i < j <= Last(ac) && InBucket(ac, value, i)
    ensures !InBucket(ac, value, j)
  {
    QuantsIncrease(ac.scale, i, j - 1);
    MulLe(Quants(ac.scale, i), Quants(ac.scale, j - 1), ac.quant);
  }

  lemma MulLe(a: nat, b: nat, q: nat)
    requires a <= b
    ensures a * q <= b * q && 0 <= a * q
  {
  }

  /** The bucket of a value can be computed in 64 bits. */
  predicate BucketFits(ac: Axis, value: int)
    requires ValidAxis(ac)
  {
    value < ac.min ||
    var v := (value - ac.min) / ac.quant;
    value - ac.min <= INT64_MAX && if ac.scale.Linear? then v < INT64_MAX else ac.buckets <= 64 || v < Pow2(62)
  }

  lemma {:induction false} PowersIncrease(m: nat, n: nat)
    requires m <= n
    ensures Pow2(m) <= Pow2(n)
    decreases n
  {
    if m < n { PowersIncrease(m, n - 1); }
  }

  lemma FirstHolds(ac: Axis, value: int)
    requires ValidAxis(ac) && INT64_MIN <= value < ac.min
    ensures InBucket(ac, value, 0)
  {
  }

  lemma LinearHolds(ac: Axis, value: int, v: int, bucket: nat)
    requires ValidAxis(ac) && ac.scale.Linear? && ac.min <= value <= INT64_MAX && v == (value - ac.min) / ac.quant
    requires bucket == if v + 1 < Last(ac) then v + 1 else Last(ac)
    ensures InBucket(ac, value, bucket)
  {
    DivBelow(value - ac.min, bucket, ac.quant);
    if bucket > 0 { DivBelow(value - ac.min, bucket - 1, ac.quant); }
  }

  /** get_bucket_for_axis(): the bucket of a value is the one whose range the value is in.  `fits` says that
      no difference, sum or shift on the way there left the range of 64 bits. */
  method GetBucketForAxis(value: int, ac: Axis) returns (bucket: int, fits: bool)
    requires ValidAxis(ac) && INT64_MIN <= value <= INT64_MAX
    ensures 0 <= bucket < ac.buckets && InBucket(ac, value, bucket)
    ensures fits <==> BucketFits(ac, value)
  {
    hide InBucket;
    if value < ac.min {
      FirstHolds(ac, value);
      return 0, true;
    }
    fits := value - ac.min <= INT64_MAX;
    var v := (value - ac.min) / ac.quant;
    match ac.scale {
      case Linear =>
        fits := fits && v + 1 <= INT64_MAX;
        bucket := if v + 1 < ac.buckets - 1 then v + 1 else ac.buckets - 1;
        LinearHolds(ac, value, v, bucket);
      case Log2 =>
        bucket, fits := Log2Bucket(ac, value, v, fits);
    }
  }

  /** The loop over the buckets of a logarithmic scale. */
  method Log2Bucket(ac: Axis, ghost value: int, v: int, within: bool) returns (bucket: int, fits: bool)
    requires ValidAxis(ac) && ac.scale.Log2? && ac.min <= value <= INT64_MAX && v == (value - ac.min) / ac.quant
    ensures 0 <= bucket < ac.buckets && InBucket(ac, value, bucket)
    ensures fits <==> within && (ac.buckets <= 64 || v < Pow2(62))
  {
    hide Pow2;
    fits := within;
    var i := 1;
    while i < ac.buckets
      invariant 1 <= i
      invariant i > 1 ==> i <= ac.buckets && Quants(Log2, i - 1) <= v
      invariant fits <==> within && i <= 64
    {
      fits := fits && i - 1 < 63;
      if v < Pow2(i - 1) {
        DivBelow(value - ac.min, Quants(Log2, i), ac.quant);
        DivBelow(value - ac.min, Quants(Log2, i - 1), ac.quant);
        if i <= 63 { PowersIncrease(i - 1, 62); } else { PowersIncrease(62, i - 2); }
        return i, fits;
      }
      i := i + 1;
    }
    bucket := ac.buckets - 1;
    if i > 64 { PowersIncrease(62, i - 2); }
    if bucket > 0 {
      QuantsIncrease(Log2, bucket - 1, i - 1);
      DivBelow(value - ac.min, Quants(Log2, bucket - 1), ac.quant);
    }
  }

  /** The end of bucket i can be computed in 64 bits. */
  predicate EndFits(ac: Axis, i: nat)
    requires ValidAxis(ac)
  {
    Quants(ac.scale, i) * ac.quant <= INT64_MAX && ac.min + Quants(ac.scale, i) * ac.quant <= INT64_MAX
  }

  /** The ranges of all buckets can: the end of the last one but one is what counts. */
  predicate RangesFit(ac: Axis)
    requires ValidAxis(ac)
  {
    INT64_MIN < ac.min && (ac.buckets > 2 ==> EndFits(ac, ac.buckets - 2))
  }

  lemma EndsFit(ac: Axis, i: nat, j: nat)
    requires ValidAxis(ac) && i <= j && EndFits(ac, j)
    ensures EndFits(ac, i)
  {
    hide Quants;
    QuantsIncrease(ac.scale, i, j);
    MulLe(Quants(ac.scale, i), Quants(ac.scale, j), ac.quant);
  }

  /** get_axis_bucket_ranges(): the ranges as they are printed.  `fits` says that no product or sum on the way
      there left the range of 64 bits. */
  method GetAxisBucketRanges(ac: Axis) returns (ret: seq<(int, int)>, fits: bool)
    requires ValidAxis(ac)
    ensures |ret| == ac.buckets && forall i :: 0 <= i < |ret| ==> ret[i] == RangeOf(ac, i)
    ensures fits <==> RangesFit(ac)
  {
    hide Quants;
    assert Quants(ac.scale, 0) == 0 by { QuantsStart(ac.scale); }
    ret, fits := seq(ac.buckets, _ => (0, 0)), true;
    var min := ac.min;
    var i := 1;
    while i < ac.buckets - 1
      invariant 1 <= i && |ret| == ac.buckets
      invariant if ac.buckets > 2 then i <= ac.buckets - 1 else i == 1
      invariant min == ac.min + Quants(ac.scale, i - 1) * ac.quant
      invariant forall j :: 1 <= j < i && j < ac.buckets - 1 ==> ret[j] == RangeOf(ac, j)
      invariant fits <==> i == 1 || EndFits(ac, i - 1)
    {
      var maxExclusive := ac.min + Quants(ac.scale, i) * ac.quant;
      fits := fits && Quants(ac.scale, i) * ac.quant <= INT64_MAX && maxExclusive <= INT64_MAX;
      if EndFits(ac, i) { EndsFit(ac, i - 1, i); }
      ret := ret[i := (min, maxExclusive - 1)];
      min := maxExclusive;
      i := i + 1;
    }
    var front, back := 0, ac.buckets - 1;
    ret := ret[front := (ret[front].0, ac.min - 1)];
    ret := ret[back := (min, ret[back].1)];
    ret := ret[front := (INT64_MIN, ret[front].1)];
    ret := ret[back := (ret[back].0, INT64_MAX)];
    fits := fits && INT64_MIN <= ac.min - 1;
  }

  lemma QuantsStart(scale: Scale)
    ensures Quants(scale, 0) == 0
  {
  }

  /** As long as it can all be computed, every range is one of 64-bit numbers. */
  lemma RangesAre64Bit(ac: Axis, i: nat)
    requires ValidAxis(ac) && RangesFit(ac) && i <= Last(ac)
    ensures INT64_MIN <= RangeOf(ac, i).0 <= INT64_MAX && INT64_MIN <= RangeOf(ac, i).1 <= INT64_MAX
  {
    hide Quants;
    QuantsStart(ac.scale);
    if ac.buckets > 2 {
      if 0 < i { EndsFit(ac, i - 1, ac.buckets - 2); }
      if i < Last(ac) { EndsFit(ac, i, ac.buckets - 2); }
      if 0 < i { MulLe(0, Quants(ac.scale, i - 1), ac.quant); }
      MulLe(0, Quants(ac.scale, i), ac.quant);
    }
  }
}
