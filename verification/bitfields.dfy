/** 32-bit bitfields, modelled as the set of positions of their 1-bits.
    Bit `i` of a BIS-index bitfield stands for BIS index `i + 1`, so a
    lower position is a lower BIS index. */
module Bitfields {

  const Width: nat := 32

  /** A `uint32_t` bitfield: every set position is below 32. */
  type Bitfield = b: set<nat> | forall i | i in b :: i < Width

  function Min(a: nat, b: nat): nat {
    if a <= b then a else b
  }

  /** The lowest position of `b` at or above `from`, given that all of `b` lies there. */
  function LowestFrom(b: Bitfield, from: nat): (r: nat)
    requires b != {}
    requires forall j | j in b :: from <= j
    ensures r in b
    ensures forall j | j in b :: r <= j
    decreases Width - from
  {
    if from in b then from else LowestFrom(b, from + 1)
  }

  /** The least significant 1-bit of a non-zero bitfield (`b & -b` in two's complement). */
  function Lsb(b: Bitfield): (r: nat)
    requires b != {}
    ensures r in b && r < Width
    ensures forall j | j in b :: r <= j
  {
    LowestFrom(b, 0)
  }

  /** `r` consists of the `n` lowest 1-bits of `b` (all of `b` when it has fewer):
      a subset of `b` of size min(n, |b|) in which every kept bit lies below
      every dropped bit. */
  ghost predicate IsLowestN(r: Bitfield, b: Bitfield, n: nat) {
    && r <= b
    && |r| == Min(n, |b|)
    && forall x, y | x in r && y in b && y !in r :: x < y
  }

  /** The lowest-N description fixes the result: two sets that both satisfy it are equal. */
  lemma {:induction false} LowestNUnique(r1: Bitfield, r2: Bitfield, b: Bitfield, n: nat)
    requires IsLowestN(r1, b, n) && IsLowestN(r2, b, n)
    ensures r1 == r2
    decreases n
  {
    if n == 0 || b == {} {
      assert r1 == {} && r2 == {};
    } else {
      var m := Lsb(b);
      LowestIsKept(r1, b, n);
      LowestIsKept(r2, b, n);
      DropLowest(r1, b, n);
      DropLowest(r2, b, n);
      LowestNUnique(r1 - {m}, r2 - {m}, b - {m}, n - 1);
      assert r1 == (r1 - {m}) + {m};
      assert r2 == (r2 - {m}) + {m};
    }
  }

  /* A non-empty lowest-N selection keeps the least significant 1-bit. */
  lemma LowestIsKept(r: Bitfield, b: Bitfield, n: nat)
    requires IsLowestN(r, b, n) && n > 0 && b != {}
    ensures Lsb(b) in r
  {
    var z :| z in r;
    assert Lsb(b) <= z;
  }

  /* Removing the least significant 1-bit from both sides leaves a lowest-(N-1) selection. */
  lemma DropLowest(r: Bitfield, b: Bitfield, n: nat)
    requires IsLowestN(r, b, n) && n > 0 && b != {} && Lsb(b) in r
    ensures IsLowestN(r - {Lsb(b)}, b - {Lsb(b)}, n - 1)
  {
    var m := Lsb(b);
    assert |r - {m}| == |r| - 1;
    assert |b - {m}| == |b| - 1;
  }

  /** keep_n_least_significant_ones: repeatedly move the least significant
      1-bit of the remaining bits into the result, at most `n` times. */
  method KeepLeastSignificantOnes(bitfield: Bitfield, n: nat) returns (result: Bitfield)
    requires n < 256
    ensures IsLowestN(result, bitfield, n)
  {
    result := {};
    var rest := bitfield;
    var i := 0;
    while i < n && rest != {}
      invariant i <= n
      invariant result !! rest && result + rest == bitfield
      invariant |result| == i
      invariant forall x, y | x in result && y in rest :: x < y
      decreases n - i
    {
      var lsb := Lsb(rest);
      result := result + {lsb};
      rest := rest - {lsb};
      i := i + 1;
    }
    assert bitfield - result == rest;
    assert |bitfield| == |result| + |rest|;
  }

  /** The BIS-index bits `get_stream_count` looks at: positions below `isoCount`. */
  function CountedBits(b: Bitfield, isoCount: nat): Bitfield {
    set x | x in b && x < isoCount
  }

  /** get_stream_count: the number of 1-bits among positions `0 .. isoCount - 1`. */
  method GetStreamCount(bitfield: Bitfield, isoCount: nat) returns (count: nat)
    requires isoCount <= Width
    ensures count == |CountedBits(bitfield, isoCount)|
    ensures count <= |bitfield| && count <= isoCount
  {
    count := 0;
    var i := 0;
    while i < isoCount
      invariant i <= isoCount
      invariant count == |CountedBits(bitfield, i)|
      invariant count <= i
    {
      if i in bitfield {
        assert CountedBits(bitfield, i + 1) == CountedBits(bitfield, i) + {i};
        count := count + 1;
      } else {
        assert CountedBits(bitfield, i + 1) == CountedBits(bitfield, i);
      }
      i := i + 1;
    }
    var counted := CountedBits(bitfield, isoCount);
    assert bitfield == counted + (bitfield - counted) && counted !! (bitfield - counted);
  }

  /** When every 1-bit lies below `isoCount`, the stream count is the popcount. */
  lemma CountedBitsAll(b: Bitfield, isoCount: nat)
    requires forall x | x in b :: x < isoCount
    ensures |CountedBits(b, isoCount)| == |b|
  {
    assert CountedBits(b, isoCount) == b;
  }
}
