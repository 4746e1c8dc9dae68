/** The list-splitting helpers of lopper/tree.py, which
    lopper/assists/lopper_lib.py and lopper/assists/xlnx/protections.py
    repeat word for word, and the 32-bit test on integers. */
module Chunks {
  import opened Common

  /** `chunks(l, n)`: consecutive slices of n items, the last one possibly
      shorter. */
  function Chunks<T>(l: seq<T>, n: nat): (r: seq<seq<T>>)
    requires n > 0
    decreases |l|
  {
    if |l| == 0 then []
    else if |l| <= n then [l]
    else [l[..n]] + Chunks(l[n..], n)
  }

  /** Chunking loses nothing, and every slice but the last has exactly n
      items; none is empty or longer than n. */
  lemma {:induction false} ChunksLaws<T>(l: seq<T>, n: nat)
    requires n > 0
    ensures Flatten(Chunks(l, n)) == l
    ensures forall i :: 0 <= i < |Chunks(l, n)| - 1 ==> |Chunks(l, n)[i]| == n
    ensures forall i :: 0 <= i < |Chunks(l, n)| ==> 0 < |Chunks(l, n)[i]| <= n
    decreases |l|
  {
    var r := Chunks(l, n);
    if |l| > n {
      ChunksLaws(l[n..], n);
      assert r == [l[..n]] + Chunks(l[n..], n);
      assert l[..n] + l[n..] == l;
    } else if |l| > 0 {
      assert r == [l];
      assert Flatten(r) == l + Flatten(r[1..]);
    }
  }

  /** Python's `sum` over integers. */
  function SumInt(xs: seq<int>): int
  {
    if |xs| == 0 then 0 else xs[0] + SumInt(xs[1..])
  }

  /** `chunks_variable(lst, sizes)`: ValueError unless the sizes add up to
      the length of the list; otherwise the slices `lst[start:start+size]`
      for consecutive starts. */
  function ChunksVariable<T>(l: seq<T>, sizes: seq<int>): (r: Result<seq<seq<T>>>)
  {
    if SumInt(sizes) != |l| then Err(ValueError) else Ok(SliceRun(l, 0, sizes))
  }

  function SliceRun<T>(l: seq<T>, start: int, sizes: seq<int>): (r: seq<seq<T>>)
    ensures |r| == |sizes|
    decreases |sizes|
  {
    if |sizes| == 0 then [] else [PySlice(l, start, start + sizes[0])] + SliceRun(l, start + sizes[0], sizes[1..])
  }

  /** With sizes that are not negative, the slices from start have the
      requested sizes and concatenate back to the rest of the list. */
  lemma {:induction false} SliceRunLaws<T>(l: seq<T>, start: nat, sizes: seq<int>)
    requires forall i :: 0 <= i < |sizes| ==> sizes[i] >= 0
    requires start + SumInt(sizes) == |l|
    ensures start <= |l|
    ensures Flatten(SliceRun(l, start, sizes)) == l[start..]
    ensures forall i :: 0 <= i < |sizes| ==> |SliceRun(l, start, sizes)[i]| == sizes[i]
    decreases |sizes|
  {
    SumIntNonNeg(sizes);
    if |sizes| > 0 {
      var k := sizes[0];
      assert SumInt(sizes) == k + SumInt(sizes[1..]);
      assert forall i :: 0 <= i < |sizes[1..]| ==> sizes[1..][i] >= 0;
      SumIntNonNeg(sizes[1..]);
      SliceRunLaws(l, start + k, sizes[1..]);
      var r := SliceRun(l, start, sizes);
      assert r[0] == l[start..start + k];
      assert r[1..] == SliceRun(l, start + k, sizes[1..]);
      assert l[start..] == l[start..start + k] + l[start + k..];
    } else {
      assert l[start..] == [];
    }
  }

  lemma {:induction false} SumIntNonNeg(xs: seq<int>)
    requires forall i :: 0 <= i < |xs| ==> xs[i] >= 0
    ensures SumInt(xs) >= 0
    decreases |xs|
  {
    if |xs| > 0 {
      assert forall i :: 0 <= i < |xs[1..]| ==> xs[1..][i] >= 0;
      SumIntNonNeg(xs[1..]);
    }
  }

  /** The ValueError comes exactly when the sizes do not add up; otherwise
      there is one slice per size, and when no size is negative the slices
      have the requested sizes and concatenate back to the list. */
  lemma ChunksVariableLaws<T>(l: seq<T>, sizes: seq<int>)
    ensures ChunksVariable(l, sizes).Err? <==> SumInt(sizes) != |l|
    ensures ChunksVariable(l, sizes).Err? ==> ChunksVariable(l, sizes).error == ValueError
    ensures ChunksVariable(l, sizes).Ok? ==> |ChunksVariable(l, sizes).value| == |sizes|
    ensures ChunksVariable(l, sizes).Ok? && (forall i :: 0 <= i < |sizes| ==> sizes[i] >= 0) ==>
      var r := ChunksVariable(l, sizes).value;
      Flatten(r) == l && forall i :: 0 <= i < |r| ==> |r[i]| == sizes[i]
  {
    if SumInt(sizes) == |l| && forall i :: 0 <= i < |sizes| ==> sizes[i] >= 0 {
      SliceRunLaws(l, 0, sizes);
    }
  }

  /** `check_32_bit(n)`: `n & 0xFFFFFFFF00000000 == 0`, on Python's unbounded
      two's-complement integers (bits 32 to 63 are clear). */
  predicate Check32Bit(n: int)
  {
    (n / TWO32) % TWO32 == 0
  }

  /** For values that fit in 64 bits the test says "fits in 32 bits"; it
      rejects every negative value from -2^64 + 2^32 on. */
  lemma Check32BitMeaning(n: int)
    ensures 0 <= n < TWO32 * TWO32 ==> (Check32Bit(n) <==> n < TWO32)
    ensures -TWO32 * TWO32 + TWO32 <= n < 0 ==> !Check32Bit(n)
  {
    if -TWO32 * TWO32 + TWO32 <= n < 0 {
      assert -TWO32 < n / TWO32 < 0;
    }
  }
}
