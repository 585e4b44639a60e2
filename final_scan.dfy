/** The perceptual-hash matcher of scripts/6.3_final_scan.py: 64-bit average and
    difference hashes built bit by bit from a grey-scale pixel grid, their Hamming
    distance, the normalised similarity `1 - d/64`, the mean over the algorithms two
    fingerprints share, the per-timepoint frame grabber, and the fake/ok decision
    against the URL's cached fingerprints. */
module FinalScan {
  import opened Common
  import MergeCache

  const HASH_SIZE: nat := 8
  const HASH_BITS: nat := 64
  const GRAB_TIMEPOINTS: seq<int> := [1, 5, 10]
  const GRAB_RETRY: int := 2

  // ---------------------------------------------------------------- bits

  function Pow2(n: nat): (p: nat)
    ensures p >= 1
  {
    if n == 0 then 1 else 2 * Pow2(n - 1)
  }

  /** Python's `a ^ b` on non-negative integers. */
  function Xor(a: nat, b: nat): nat
    decreases a + b
  {
    if a == 0 then b
    else if b == 0 then a
    else 2 * Xor(a / 2, b / 2) + (if a % 2 != b % 2 then 1 else 0)
  }

  /** Python's `int.bit_count`: the number of one bits. */
  function PopCount(x: nat): nat
  {
    if x == 0 then 0 else x % 2 + PopCount(x / 2)
  }

  /** `hamming`: the number of bit positions where the two hashes differ. */
  function Hamming(a: nat, b: nat): nat
  {
    PopCount(Xor(a, b))
  }

  /** Bit `k` (0 = least significant) of `x`. */
  predicate Bit(x: nat, k: nat)
  {
    if k == 0 then x % 2 == 1 else Bit(x / 2, k - 1)
  }

  lemma {:induction false} XorZeroIff(a: nat, b: nat)
    ensures Xor(a, b) == 0 <==> a == b
    decreases a + b
  {
    if a != 0 && b != 0 {
      XorZeroIff(a / 2, b / 2);
    }
  }

  lemma {:induction false} XorCommutes(a: nat, b: nat)
    ensures Xor(a, b) == Xor(b, a)
    decreases a + b
  {
    if a != 0 && b != 0 {
      XorCommutes(a / 2, b / 2);
    }
  }

  lemma {:induction false} PopCountZeroIff(x: nat)
    ensures PopCount(x) == 0 <==> x == 0
  {
    if x != 0 {
      PopCountZeroIff(x / 2);
    }
  }

  /** Two hashes are at distance 0 exactly when they are equal. */
  lemma HammingZeroIff(a: nat, b: nat)
    ensures Hamming(a, b) == 0 <==> a == b
  {
    XorZeroIff(a, b);
    PopCountZeroIff(Xor(a, b));
  }

  lemma HammingSymmetric(a: nat, b: nat)
    ensures Hamming(a, b) == Hamming(b, a)
  {
    XorCommutes(a, b);
  }

  lemma {:induction false} XorBound(a: nat, b: nat, n: nat)
    requires a < Pow2(n) && b < Pow2(n)
    ensures Xor(a, b) < Pow2(n)
    decreases n
  {
    if a != 0 && b != 0 {
      XorBound(a / 2, b / 2, n - 1);
    }
  }

  lemma {:induction false} PopCountBound(x: nat, n: nat)
    requires x < Pow2(n)
    ensures PopCount(x) <= n
    decreases n
  {
    if x != 0 {
      PopCountBound(x / 2, n - 1);
    }
  }

  /** Hashes of `n` bits are at most `n` bits apart. */
  lemma HammingBound(a: nat, b: nat, n: nat)
    requires a < Pow2(n) && b < Pow2(n)
    ensures Hamming(a, b) <= n
  {
    XorBound(a, b, n);
    PopCountBound(Xor(a, b), n);
  }

  /** An `n`-bit value and its complement differ everywhere. */
  lemma {:induction false} XorComplement(a: nat, n: nat)
    requires a < Pow2(n)
    ensures Xor(a, Pow2(n) - 1 - a) == Pow2(n) - 1
    decreases n
  {
    var c := Pow2(n) - 1 - a;
    if a != 0 && c != 0 {
      var q := a / 2;
      assert c / 2 == Pow2(n - 1) - 1 - q && c % 2 == 1 - a % 2;
      XorComplement(q, n - 1);
    }
  }

  lemma {:induction false} PopCountAllOnes(n: nat)
    ensures PopCount(Pow2(n) - 1) == n
  {
    if n > 0 {
      assert (Pow2(n) - 1) / 2 == Pow2(n - 1) - 1;
      PopCountAllOnes(n - 1);
    }
  }

  lemma HammingComplement(a: nat, n: nat)
    requires a < Pow2(n)
    ensures Hamming(a, Pow2(n) - 1 - a) == n
  {
    XorComplement(a, n);
    PopCountAllOnes(n);
  }

  // ---------------------------------------------------------------- similarity

  /** `similarity_hash`: 0.0 when either hash is missing, else `1 - hamming / 64`. */
  function SimilarityHash(h1: Option<nat>, h2: Option<nat>): real
  {
    if h1.None? || h2.None? then 0.0
    else 1.0 - (Hamming(h1.value, h2.value) as real) / (HASH_BITS as real)
  }

  predicate Is64(h: Option<nat>)
  {
    h.Some? ==> h.value < Pow2(HASH_BITS)
  }

  /** For 64-bit hashes the similarity lies in [0, 1]; it is 1 exactly for equal hashes. */
  lemma SimilarityRange(h1: Option<nat>, h2: Option<nat>)
    requires Is64(h1) && Is64(h2)
    ensures 0.0 <= SimilarityHash(h1, h2) <= 1.0
    ensures h1.Some? && h2.Some? ==> (SimilarityHash(h1, h2) == 1.0 <==> h1 == h2)
  {
    if h1.Some? && h2.Some? {
      HammingBound(h1.value, h2.value, HASH_BITS);
      HammingZeroIff(h1.value, h2.value);
    }
  }

  lemma SimilaritySymmetric(h1: Option<nat>, h2: Option<nat>)
    ensures SimilarityHash(h1, h2) == SimilarityHash(h2, h1)
  {
    if h1.Some? && h2.Some? {
      HammingSymmetric(h1.value, h2.value);
    }
  }

  /** A hash against its 64-bit complement scores 0. */
  lemma SimilarityComplement(h: nat)
    requires h < Pow2(HASH_BITS)
    ensures SimilarityHash(Some(h), Some(Pow2(HASH_BITS) - 1 - h)) == 0.0
  {
    HammingComplement(h, HASH_BITS);
  }

  /** A frame's fingerprint: one optional hash per algorithm. */
  datatype HashSet = HashSet(phash: Option<nat>, ahash: Option<nat>, dhash: Option<nat>)

  const ALGORITHMS: seq<string> := ["phash", "ahash", "dhash"]

  /** `h.get(k)`. */
  function Get(h: HashSet, k: string): Option<nat>
  {
    if k == "phash" then h.phash else if k == "ahash" then h.ahash else if k == "dhash" then h.dhash else None
  }

  /** The per-algorithm similarities over the algorithms of `ks` present in both. */
  function Sims(h1: HashSet, h2: HashSet, ks: seq<string>): (s: seq<real>)
    ensures |s| <= |ks|
    ensures s == [] <==> forall i :: 0 <= i < |ks| ==> Get(h1, ks[i]).None? || Get(h2, ks[i]).None?
  {
    if |ks| == 0 then []
    else if Get(h1, ks[0]).Some? && Get(h2, ks[0]).Some? then
      [SimilarityHash(Get(h1, ks[0]), Get(h2, ks[0]))] + Sims(h1, h2, ks[1..])
    else Sims(h1, h2, ks[1..])
  }

  function Sum(xs: seq<real>): real
  {
    if |xs| == 0 then 0.0 else xs[0] + Sum(xs[1..])
  }

  /** `average_similarity`: the mean similarity over the shared algorithms, 0.0 if none. */
  function AverageSimilarity(h1: HashSet, h2: HashSet): real
  {
    var s := Sims(h1, h2, ALGORITHMS);
    if |s| == 0 then 0.0 else Sum(s) / (|s| as real)
  }

  lemma {:induction false} SimsSymmetric(h1: HashSet, h2: HashSet, ks: seq<string>)
    ensures Sims(h1, h2, ks) == Sims(h2, h1, ks)
  {
    if |ks| > 0 {
      SimilaritySymmetric(Get(h1, ks[0]), Get(h2, ks[0]));
      SimsSymmetric(h1, h2, ks[1..]);
    }
  }

  lemma AverageSymmetric(h1: HashSet, h2: HashSet)
    ensures AverageSimilarity(h1, h2) == AverageSimilarity(h2, h1)
  {
    SimsSymmetric(h1, h2, ALGORITHMS);
  }

  /** Fingerprints sharing no algorithm score 0. */
  lemma AverageNoneShared(h1: HashSet, h2: HashSet)
    requires forall k :: k in ALGORITHMS ==> Get(h1, k).None? || Get(h2, k).None?
    ensures AverageSimilarity(h1, h2) == 0.0
  {
    assert forall i :: 0 <= i < |ALGORITHMS| ==> ALGORITHMS[i] in ALGORITHMS;
  }

  predicate Valid(h: HashSet)
  {
    Is64(h.phash) && Is64(h.ahash) && Is64(h.dhash)
  }

  lemma {:induction false} SimsRange(h1: HashSet, h2: HashSet, ks: seq<string>)
    requires Valid(h1) && Valid(h2)
    ensures 0.0 <= Sum(Sims(h1, h2, ks)) <= |Sims(h1, h2, ks)| as real
  {
    SimsUnit(h1, h2, ks);
    SumRange(Sims(h1, h2, ks));
  }

  /** Every per-algorithm similarity of 64-bit fingerprints lies in [0, 1]. */
  lemma {:induction false} SimsUnit(h1: HashSet, h2: HashSet, ks: seq<string>)
    requires Valid(h1) && Valid(h2)
    ensures forall i :: 0 <= i < |Sims(h1, h2, ks)| ==> 0.0 <= Sims(h1, h2, ks)[i] <= 1.0
  {
    if |ks| > 0 {
      var rest := Sims(h1, h2, ks[1..]);
      SimsUnit(h1, h2, ks[1..]);
      var a, b := Get(h1, ks[0]), Get(h2, ks[0]);
      if a.Some? && b.Some? {
        var x := SimilarityHash(a, b);
        assert 0.0 <= x <= 1.0 by {
          ValidGet(h1, ks[0]);
          ValidGet(h2, ks[0]);
          SimilarityRange(a, b);
        }
        assert Sims(h1, h2, ks) == [x] + rest;
      } else {
        assert Sims(h1, h2, ks) == rest;
      }
    }
  }

  lemma ValidGet(h: HashSet, k: string)
    requires Valid(h)
    ensures Is64(Get(h, k))
  {
  }

  /** A sum of values in [0, 1] lies between 0 and the number of values. */
  lemma {:induction false} SumRange(xs: seq<real>)
    requires forall i :: 0 <= i < |xs| ==> 0.0 <= xs[i] <= 1.0
    ensures 0.0 <= Sum(xs) <= |xs| as real
  {
    if |xs| > 0 {
      SumRange(xs[1..]);
    }
  }

  /** For 64-bit fingerprints the average similarity lies in [0, 1]. */
  lemma AverageRange(h1: HashSet, h2: HashSet)
    requires Valid(h1) && Valid(h2)
    ensures 0.0 <= AverageSimilarity(h1, h2) <= 1.0
  {
    var s := Sims(h1, h2, ALGORITHMS);
    SimsRange(h1, h2, ALGORITHMS);
    if |s| > 0 {
      DivAtMostOne(Sum(s), |s| as real);
    }
  }

  lemma DivAtMostOne(s: real, n: real)
    requires 0.0 <= s <= n && n > 0.0
    ensures 0.0 <= s / n <= 1.0
  {
    var q := s / n;
    assert q * n == s;
    assert (q - 1.0) * n == s - n;
  }

  /** A complete fingerprint against itself scores 1. */
  lemma AverageSelf(h: HashSet)
    requires h.phash.Some? && h.ahash.Some? && h.dhash.Some?
    ensures AverageSimilarity(h, h) == 1.0
  {
    HammingZeroIff(h.phash.value, h.phash.value);
    HammingZeroIff(h.ahash.value, h.ahash.value);
    HammingZeroIff(h.dhash.value, h.dhash.value);
    SimsSelf(h);
    var s := [1.0, 1.0, 1.0];
    assert Sum(s) == 3.0 by {
      assert s[1..][1..][1..] == [];
    }
  }

  lemma SimsSelf(h: HashSet)
    requires SimilarityHash(h.phash, h.phash) == 1.0 && h.phash.Some?
    requires SimilarityHash(h.ahash, h.ahash) == 1.0 && h.ahash.Some?
    requires SimilarityHash(h.dhash, h.dhash) == 1.0 && h.dhash.Some?
    ensures Sims(h, h, ALGORITHMS) == [1.0, 1.0, 1.0]
  {
    var ks := ALGORITHMS;
    assert ks[0] == "phash" && ks[1..][0] == "ahash" && ks[2..][0] == "dhash";
    assert Sims(h, h, ks[3..]) == [];
    assert Sims(h, h, ks[2..]) == [1.0] + Sims(h, h, ks[3..]);
    assert Sims(h, h, ks[1..]) == [1.0] + Sims(h, h, ks[2..]);
  }

  // ---------------------------------------------------------------- hash builders

  /** The integer whose binary digits, most significant first, are `bs`. */
  function FromBits(bs: seq<bool>): nat
  {
    if |bs| == 0 then 0 else 2 * FromBits(bs[..|bs| - 1]) + (if bs[|bs| - 1] then 1 else 0)
  }

  /** `FromBits(bs)` has |bs| bits and bit |bs|-1-i is `bs[i]`. */
  lemma {:induction false} FromBitsBits(bs: seq<bool>)
    ensures FromBits(bs) < Pow2(|bs|)
    ensures forall i :: 0 <= i < |bs| ==> (Bit(FromBits(bs), |bs| - 1 - i) <==> bs[i])
  {
    if |bs| > 0 {
      var init := bs[..|bs| - 1];
      FromBitsBits(init);
      var x := FromBits(bs);
      assert x / 2 == FromBits(init);
      forall i | 0 <= i < |bs| ensures Bit(x, |bs| - 1 - i) <==> bs[i] {
        if i < |bs| - 1 {
          assert init[i] == bs[i];
        }
      }
    }
  }

  lemma FromBitsAppend(bs: seq<bool>, b: bool)
    ensures FromBits(bs + [b]) == 2 * FromBits(bs) + (if b then 1 else 0)
  {
    assert (bs + [b])[..|bs|] == bs;
  }

  function SumNat(xs: seq<nat>): nat
  {
    if |xs| == 0 then 0 else xs[0] + SumNat(xs[1..])
  }

  /** The grid's mean, `sum(pixels) / len(pixels)`. */
  function Mean(pixels: seq<nat>): real
    requires |pixels| > 0
  {
    (SumNat(pixels) as real) / (|pixels| as real)
  }

  /** The average-hash bits: pixel `i` brighter than the mean. */
  function AHashBits(pixels: seq<nat>): (bs: seq<bool>)
    requires |pixels| > 0
    ensures |bs| == |pixels|
  {
    seq(|pixels|, i requires 0 <= i < |pixels| => (pixels[i] as real) > Mean(pixels))
  }

  /** `image_to_ahash_bytes` on the 8x8 grey-scale grid, row-major: 64 bits, most
      significant first, bit set iff its pixel is strictly greater than the mean. */
  method AverageHash(pixels: seq<nat>) returns (bits: nat)
    requires |pixels| == HASH_SIZE * HASH_SIZE
    ensures bits == FromBits(AHashBits(pixels))
    ensures bits < Pow2(HASH_BITS)
    ensures forall i :: 0 <= i < HASH_BITS ==> (Bit(bits, HASH_BITS - 1 - i) <==> (pixels[i] as real) > Mean(pixels))
  {
    var avg := (SumNat(pixels) as real) / (|pixels| as real);
    assert avg == Mean(pixels);
    bits := 0;
    for i := 0 to |pixels|
      invariant bits == FromBits(AHashBits(pixels)[..i])
    {
      var b := pixels[i] as real > avg;
      AverageStep(pixels, i);
      bits := bits * 2 + (if b then 1 else 0);
    }
    assert AHashBits(pixels)[..|pixels|] == AHashBits(pixels);
    AHashMeaning(pixels);
  }

  /** One turn of the average-hash loop: the next bit is shifted in. */
  lemma AverageStep(pixels: seq<nat>, i: nat)
    requires i < |pixels|
    ensures FromBits(AHashBits(pixels)[..i + 1]) ==
      2 * FromBits(AHashBits(pixels)[..i]) + (if (pixels[i] as real) > Mean(pixels) then 1 else 0)
  {
    var bs := AHashBits(pixels);
    assert bs[..i + 1] == bs[..i] + [bs[i]];
    FromBitsAppend(bs[..i], bs[i]);
  }

  /** Reading the average hash back bit by bit. */
  lemma AHashMeaning(pixels: seq<nat>)
    requires |pixels| == HASH_BITS
    ensures FromBits(AHashBits(pixels)) < Pow2(HASH_BITS)
    ensures forall i :: 0 <= i < HASH_BITS ==>
      (Bit(FromBits(AHashBits(pixels)), HASH_BITS - 1 - i) <==> (pixels[i] as real) > Mean(pixels))
  {
    var bs := AHashBits(pixels);
    FromBitsBits(bs);
    forall i | 0 <= i < HASH_BITS
      ensures Bit(FromBits(bs), HASH_BITS - 1 - i) <==> (pixels[i] as real) > Mean(pixels)
    {
      assert bs[i] == ((pixels[i] as real) > Mean(pixels));
    }
  }

  /** The pixel at (row, col) of the 9-wide, 8-high grid, stored row-major. */
  function At(pixels: seq<nat>, row: nat, col: nat): nat
    requires |pixels| == (HASH_SIZE + 1) * HASH_SIZE && row < HASH_SIZE && col <= HASH_SIZE
  {
    pixels[row * (HASH_SIZE + 1) + col]
  }

  /** The difference-hash bits: bit `8*row + col` compares the pixel at (row, col) with
      its right neighbour. */
  function DHashBits(pixels: seq<nat>): (bs: seq<bool>)
    requires |pixels| == (HASH_SIZE + 1) * HASH_SIZE
    ensures |bs| == HASH_BITS
  {
    seq(HASH_BITS, k requires 0 <= k < HASH_BITS =>
      At(pixels, k / HASH_SIZE, k % HASH_SIZE) > At(pixels, k / HASH_SIZE, k % HASH_SIZE + 1))
  }

  /** `image_to_dhash_bytes`: 64 bits, row-major, most significant first; the bit for
      (row, col) is set iff that pixel is strictly greater than its right neighbour. */
  method DifferenceHash(pixels: seq<nat>) returns (bits: nat)
    requires |pixels| == (HASH_SIZE + 1) * HASH_SIZE
    ensures bits == FromBits(DHashBits(pixels))
    ensures bits < Pow2(HASH_BITS)
    ensures forall row, col :: 0 <= row < HASH_SIZE && 0 <= col < HASH_SIZE ==>
      (Bit(bits, HASH_BITS - 1 - (row * HASH_SIZE + col)) <==> At(pixels, row, col) > At(pixels, row, col + 1))
  {
    ghost var spec := DHashBits(pixels);
    bits := 0;
    ghost var k := 0;
    var row := 0;
    while row < HASH_SIZE
      invariant 0 <= row <= HASH_SIZE && k == 8 * row
      invariant bits == FromBits(spec[..k])
    {
      var col := 0;
      while col < HASH_SIZE
        invariant 0 <= col <= HASH_SIZE && k == 8 * row + col
        invariant bits == FromBits(spec[..k])
      {
        var l := At(pixels, row, col);
        var r := At(pixels, row, col + 1);
        DHashStep(pixels, row, col);
        bits := bits * 2 + (if l > r then 1 else 0);
        col := col + 1;
        k := k + 1;
      }
      row := row + 1;
    }
    assert spec[..k] == spec;
    DHashMeaning(pixels);
  }

  /** One turn of the difference-hash loops: the bit for (row, col) is shifted in. */
  lemma DHashStep(pixels: seq<nat>, row: nat, col: nat)
    requires |pixels| == (HASH_SIZE + 1) * HASH_SIZE && row < HASH_SIZE && col < HASH_SIZE
    ensures 8 * row + col < HASH_BITS
    ensures FromBits(DHashBits(pixels)[..8 * row + col + 1]) ==
      2 * FromBits(DHashBits(pixels)[..8 * row + col]) + (if At(pixels, row, col) > At(pixels, row, col + 1) then 1 else 0)
  {
    var bs, k := DHashBits(pixels), 8 * row + col;
    DHashBitAt(pixels, row, col);
    assert bs[..k + 1] == bs[..k] + [bs[k]];
    FromBitsAppend(bs[..k], bs[k]);
  }

  /** Reading the difference hash back bit by bit. */
  lemma DHashMeaning(pixels: seq<nat>)
    requires |pixels| == (HASH_SIZE + 1) * HASH_SIZE
    ensures FromBits(DHashBits(pixels)) < Pow2(HASH_BITS)
    ensures forall row, col :: 0 <= row < HASH_SIZE && 0 <= col < HASH_SIZE ==>
      (Bit(FromBits(DHashBits(pixels)), HASH_BITS - 1 - (row * HASH_SIZE + col)) <==> At(pixels, row, col) > At(pixels, row, col + 1))
  {
    FromBitsBits(DHashBits(pixels));
    forall row, col | 0 <= row < HASH_SIZE && 0 <= col < HASH_SIZE
      ensures Bit(FromBits(DHashBits(pixels)), HASH_BITS - 1 - (row * HASH_SIZE + col)) <==> At(pixels, row, col) > At(pixels, row, col + 1)
    {
      DHashBitAt(pixels, row, col);
    }
  }

  lemma DHashBitAt(pixels: seq<nat>, row: nat, col: nat)
    requires |pixels| == (HASH_SIZE + 1) * HASH_SIZE && row < HASH_SIZE && col < HASH_SIZE
    ensures row * HASH_SIZE + col == 8 * row + col < HASH_BITS
    ensures DHashBits(pixels)[row * HASH_SIZE + col] == (At(pixels, row, col) > At(pixels, row, col + 1))
  {
    var k := row * HASH_SIZE + col;
    assert k / HASH_SIZE == row && k % HASH_SIZE == col;
  }

  // ---------------------------------------------------------------- frame grabbing

  /** The first attempt number in [from, retry) at which `grab` yields a frame. */
  function FirstSuccess<F>(grab: (int, nat) -> Option<F>, tp: int, from: nat, retry: int): (r: Option<nat>)
    ensures r.Some? ==> from <= r.value < retry && grab(tp, r.value).Some?
    ensures r.Some? ==> forall a :: from <= a < r.value ==> grab(tp, a).None?
    ensures r.None? ==> forall a :: from <= a < retry ==> grab(tp, a).None?
    decreases retry - from
  {
    if from >= retry then None
    else if grab(tp, from).Some? then Some(from)
    else FirstSuccess(grab, tp, from + 1, retry)
  }

  /** The number of attempts made at one timepoint: up to and including the first
      success, else all `retry` of them. */
  function Attempts<F>(grab: (int, nat) -> Option<F>, tp: int, retry: int): nat
  {
    match FirstSuccess(grab, tp, 0, retry)
    case Some(k) => k + 1
    case None => if retry > 0 then retry else 0
  }

  /** The frames collected: one per timepoint that succeeded within `retry` attempts,
      in timepoint order, each the frame of the first success. */
  function Grabbed<F>(grab: (int, nat) -> Option<F>, tps: seq<int>, retry: int): seq<(int, F)>
  {
    if |tps| == 0 then []
    else
      (match FirstSuccess(grab, tps[0], 0, retry)
       case Some(k) => [(tps[0], grab(tps[0], k).value)]
       case None => [])
      + Grabbed(grab, tps[1..], retry)
  }

  /** At most `retry` attempts per timepoint, and at most one frame per timepoint. */
  lemma {:induction false} GrabbedBounds<F>(grab: (int, nat) -> Option<F>, tps: seq<int>, retry: int)
    ensures |Grabbed(grab, tps, retry)| <= |tps|
    ensures forall i :: 0 <= i < |tps| ==> Attempts(grab, tps[i], retry) <= (if retry > 0 then retry else 0)
    ensures forall i :: 0 <= i < |Grabbed(grab, tps, retry)| ==> Grabbed(grab, tps, retry)[i].0 in tps
  {
    if |tps| > 0 {
      GrabbedBounds(grab, tps[1..], retry);
      forall i | 0 <= i < |Grabbed(grab, tps, retry)| ensures Grabbed(grab, tps, retry)[i].0 in tps {
        var head := Grabbed(grab, tps, retry)[..|Grabbed(grab, tps, retry)| - |Grabbed(grab, tps[1..], retry)|];
        if i >= |head| {
          assert Grabbed(grab, tps, retry)[i] == Grabbed(grab, tps[1..], retry)[i - |head|];
        }
      }
    }
  }

  /** The frame kept at one timepoint: that of its first success, if any. */
  function FrameAt<F>(grab: (int, nat) -> Option<F>, tp: int, retry: int): Option<F>
  {
    match FirstSuccess(grab, tp, 0, retry)
    case Some(k) => grab(tp, k)
    case None => None
  }

  /** The retry loop at one timepoint: it stops at the first frame obtained, having made
      `Attempts` tries. */
  method GrabAt<F>(grab: (int, nat) -> Option<F>, tp: int, retry: int) returns (got: Option<F>, a: nat)
    ensures got == FrameAt(grab, tp, retry) && a == Attempts(grab, tp, retry)
    ensures got.Some? <==> exists k :: 0 <= k < retry && grab(tp, k).Some?
  {
    a := 0;
    got := None;
    while a < retry && got.None?
      invariant 0 <= a && (retry > 0 ==> a <= retry) && (retry <= 0 ==> a == 0)
      invariant got.None? ==> FirstSuccess(grab, tp, 0, retry) == FirstSuccess(grab, tp, a, retry)
      invariant got.Some? ==> a >= 1 && FirstSuccess(grab, tp, 0, retry) == Some(a - 1) && got == grab(tp, a - 1)
      decreases retry - a
    {
      var img := grab(tp, a);
      if img.Some? {
        got := img;
      }
      a := a + 1;
    }
    if got.None? {
      assert FirstSuccess(grab, tp, 0, retry).None?;
    }
  }

  /** One timepoint more: its frame, if any, then the frames of the rest. */
  lemma GrabbedStep<F>(grab: (int, nat) -> Option<F>, tps: seq<int>, i: nat, retry: int, done: seq<(int, F)>)
    requires i < |tps|
    ensures var f := FrameAt(grab, tps[i], retry);
      (if f.Some? then done + [(tps[i], f.value)] else done) + Grabbed(grab, tps[i + 1..], retry) ==
      done + Grabbed(grab, tps[i..], retry)
  {
    assert tps[i..][1..] == tps[i + 1..];
    var f := FrameAt(grab, tps[i], retry);
    if f.Some? {
      MoveHead(done, (tps[i], f.value), Grabbed(grab, tps[i + 1..], retry), Grabbed(grab, tps[i..], retry));
    }
  }

  /** `grab_frame_multi`: for each timepoint try up to `retry` times and keep the first
      frame obtained. Also reports how many attempts each timepoint took. */
  method GrabFrameMulti<F>(grab: (int, nat) -> Option<F>, tps: seq<int>, retry: int)
    returns (results: seq<(int, F)>, attempts: seq<nat>)
    ensures results == Grabbed(grab, tps, retry)
    ensures |attempts| == |tps| && forall i :: 0 <= i < |tps| ==> attempts[i] == Attempts(grab, tps[i], retry)
  {
    results := [];
    attempts := [];
    for i := 0 to |tps|
      invariant results + Grabbed(grab, tps[i..], retry) == Grabbed(grab, tps, retry)
      invariant |attempts| == i && forall j :: 0 <= j < i ==> attempts[j] == Attempts(grab, tps[j], retry)
    {
      var got, a := GrabAt(grab, tps[i], retry);
      GrabbedStep(grab, tps, i, retry, results);
      if got.Some? {
        results := results + [(tps[i], got.value)];
      }
      attempts := attempts + [a];
    }
    assert tps[|tps|..] == [];
  }

  // ---------------------------------------------------------------- decision

  /** A URL's cached fingerprints: date -> timepoint -> fingerprint. */
  type Dated = map<string, map<string, HashSet>>

  /** The cache loaded from the total cache file: URL -> dated fingerprints. */
  type Cache = map<string, Dated>

  /** One row of the result. */
  datatype Verdict = Verdict(url: string, status: string, errors: seq<string>, isFake: bool, isLoop: bool, similarity: real)

  /** `m` is the largest average similarity between a captured fingerprint and a cached
      one, or 0.0 when that largest is smaller or there is none (the running maximum
      starts at 0.0). */
  ghost predicate IsMaxSimilarity(m: real, rh: seq<HashSet>, c: Dated)
  {
    m >= 0.0 &&
    (forall d, tp, j :: d in c && tp in c[d] && 0 <= j < |rh| ==> AverageSimilarity(rh[j], c[d][tp]) <= m) &&
    (m == 0.0 || exists d, tp, j :: d in c && tp in c[d] && 0 <= j < |rh| && AverageSimilarity(rh[j], c[d][tp]) == m)
  }

  /** The maximum is determined: the decision does not depend on the iteration order. */
  lemma MaxSimilarityUnique(m1: real, m2: real, rh: seq<HashSet>, c: Dated)
    requires IsMaxSimilarity(m1, rh, c) && IsMaxSimilarity(m2, rh, c)
    ensures m1 == m2
  {
  }

  /** A captured frame whose complete fingerprint is already cached for the URL scores
      1.0, so it is reported fake at any threshold up to 1.0. */
  lemma RepeatedFrameIsMax(m: real, rh: seq<HashSet>, c: Dated, d: string, tp: string, j: nat)
    requires IsMaxSimilarity(m, rh, c)
    requires d in c && tp in c[d] && j < |rh| && c[d][tp] == rh[j]
    requires rh[j].phash.Some? && rh[j].ahash.Some? && rh[j].dhash.Some?
    ensures m >= 1.0
  {
    AverageSelf(rh[j]);
  }

  /** The innermost loop: the captured fingerprints against one cached one. */
  method MaxOverFrames(rh: seq<HashSet>, cached: HashSet, m0: real) returns (m: real)
    ensures m >= m0
    ensures forall j :: 0 <= j < |rh| ==> AverageSimilarity(rh[j], cached) <= m
    ensures m == m0 || exists j :: 0 <= j < |rh| && AverageSimilarity(rh[j], cached) == m
  {
    m := m0;
    var j := 0;
    while j < |rh|
      invariant 0 <= j <= |rh| && m >= m0
      invariant forall k :: 0 <= k < j ==> AverageSimilarity(rh[k], cached) <= m
      invariant m == m0 || exists k :: 0 <= k < j && AverageSimilarity(rh[k], cached) == m
    {
      var s := AverageSimilarity(rh[j], cached);
      if s > m {
        m := s;
      }
      j := j + 1;
    }
  }

  /** The middle loop: over one date's timepoints. */
  method MaxOverTimepoints(rh: seq<HashSet>, b: map<string, HashSet>, m0: real) returns (m: real)
    ensures m >= m0
    ensures forall tp, j :: tp in b && 0 <= j < |rh| ==> AverageSimilarity(rh[j], b[tp]) <= m
    ensures m == m0 || exists tp, j :: tp in b && 0 <= j < |rh| && AverageSimilarity(rh[j], b[tp]) == m
  {
    m := m0;
    var todo := b.Keys;
    while todo != {}
      invariant todo <= b.Keys && m >= m0
      invariant forall tp, j :: tp in b && tp !in todo && 0 <= j < |rh| ==> AverageSimilarity(rh[j], b[tp]) <= m
      invariant m == m0 || exists tp, j :: tp in b && 0 <= j < |rh| && AverageSimilarity(rh[j], b[tp]) == m
      decreases |todo|
    {
      var tp :| tp in todo;
      m := MaxOverFrames(rh, b[tp], m);
      todo := todo - {tp};
    }
  }

  /** The outer loop: over the URL's dates. */
  method MaxOverDates(rh: seq<HashSet>, c: Dated) returns (m: real)
    ensures IsMaxSimilarity(m, rh, c)
  {
    m := 0.0;
    var todo := c.Keys;
    while todo != {}
      invariant todo <= c.Keys && m >= 0.0
      invariant forall d, tp, j :: d in c && d !in todo && tp in c[d] && 0 <= j < |rh| ==>
        AverageSimilarity(rh[j], c[d][tp]) <= m
      invariant m == 0.0 || exists d, tp, j :: d in c && tp in c[d] && 0 <= j < |rh| && AverageSimilarity(rh[j], c[d][tp]) == m
      decreases |todo|
    {
      var d :| d in todo;
      m := MaxOverTimepoints(rh, c[d], m);
      todo := todo - {d};
    }
  }

  /** The hashing loop of `process_one`: the fingerprints of each frame, in frame order. */
  method HashFrames<F>(frames: seq<(int, F)>, hashOf: F -> HashSet) returns (hs: seq<HashSet>)
    ensures |hs| == |frames| && forall k :: 0 <= k < |frames| ==> hs[k] == hashOf(frames[k].1)
  {
    hs := [];
    for i := 0 to |frames|
      invariant |hs| == i && forall k :: 0 <= k < i ==> hs[k] == hashOf(frames[k].1)
    {
      hs := hs + [hashOf(frames[i].1)];
    }
  }

  /** `process_one`, with `grab` the frame grabber for this URL and `hashOf` the three
      hash functions applied to a frame. */
  method ProcessOne<F>(url: string, cache: Cache, threshold: real,
                       grab: (int, nat) -> Option<F>, hashOf: F -> HashSet) returns (v: Verdict)
    ensures var frames := Grabbed(grab, GRAB_TIMEPOINTS, GRAB_RETRY);
      |frames| == 0 ==> v == Verdict(url, "error", ["all_grab_failed"], false, false, 0.0)
    ensures var frames := Grabbed(grab, GRAB_TIMEPOINTS, GRAB_RETRY);
      |frames| > 0 && (url !in cache || cache[url] == map[]) ==> v == Verdict(url, "ok", [], false, false, 1.0)
    ensures var frames := Grabbed(grab, GRAB_TIMEPOINTS, GRAB_RETRY);
      |frames| > 0 && url in cache && cache[url] != map[] ==>
        v.url == url && v.status == "ok" && v.errors == [] && !v.isLoop &&
        (v.isFake <==> v.similarity >= threshold) &&
        IsMaxSimilarity(v.similarity, seq(|frames|, i requires 0 <= i < |frames| => hashOf(frames[i].1)), cache[url])
  {
    var frames, _ := GrabFrameMulti(grab, GRAB_TIMEPOINTS, GRAB_RETRY);
    if |frames| == 0 {
      return Verdict(url, "error", ["all_grab_failed"], false, false, 0.0);
    }
    var realHashes := HashFrames(frames, hashOf);
    assert realHashes == seq(|frames|, i requires 0 <= i < |frames| => hashOf(frames[i].1));
    if url !in cache || cache[url] == map[] {
      return Verdict(url, "ok", [], false, false, 1.0);
    }
    var maxSim := MaxOverDates(realHashes, cache[url]);
    v := Verdict(url, "ok", [], maxSim >= threshold, false, maxSim);
  }

  // ---------------------------------------------------------------- cache decoding

  predicate IsHexDigit(c: char)
  {
    '0' <= c <= '9' || 'a' <= c <= 'f' || 'A' <= c <= 'F'
  }

  function HexDigitValue(c: char): (v: nat)
    requires IsHexDigit(c)
    ensures v < 16
  {
    if '0' <= c <= '9' then c as nat - '0' as nat
    else if 'a' <= c <= 'f' then c as nat - 'a' as nat + 10
    else c as nat - 'A' as nat + 10
  }

  predicate IsHex(s: string)
  {
    |s| > 0 && forall i :: 0 <= i < |s| ==> IsHexDigit(s[i])
  }

  /** The value of a string of hexadecimal digits. */
  function HexValue(s: string): nat
    requires forall i :: 0 <= i < |s| ==> IsHexDigit(s[i])
  {
    if |s| == 0 then 0 else 16 * HexValue(s[..|s| - 1]) + HexDigitValue(s[|s| - 1])
  }

  function HexChar(d: nat): (c: char)
    requires d < 16
    ensures IsHexDigit(c) && HexDigitValue(c) == d
  {
    if d < 10 then ('0' as nat + d) as char else ('a' as nat + d - 10) as char
  }

  /** Lower-case hexadecimal without leading zeros, as `format(n, 'x')`. */
  function ToHex(n: nat): (s: string)
    ensures IsHex(s)
  {
    if n < 16 then [HexChar(n)] else ToHex(n / 16) + [HexChar(n % 16)]
  }

  /** Decoding what was encoded gives the number back. */
  lemma {:induction false} HexRoundTrip(n: nat)
    ensures HexValue(ToHex(n)) == n
  {
    if n >= 16 {
      HexRoundTrip(n / 16);
      var s := ToHex(n);
      assert s[..|s| - 1] == ToHex(n / 16);
    } else {
      assert ToHex(n)[..0] == [];
    }
  }

  /** Leading zeros do not change the value, so a zero-padded 16-digit hash decodes to
      the same number. */
  lemma {:induction false} HexLeadingZero(s: string)
    requires forall i :: 0 <= i < |s| ==> IsHexDigit(s[i])
    ensures HexValue(['0'] + s) == HexValue(s)
  {
    if |s| > 0 {
      var t := ['0'] + s;
      assert t[..|t| - 1] == ['0'] + s[..|s| - 1];
      HexLeadingZero(s[..|s| - 1]);
    } else {
      assert (['0'] + s)[..0] == [];
    }
  }

  /** One hash field of the total cache: `int(v, 16) if v else None`. The outer `None`
      is the exception `int` raises on a string that is not hexadecimal or on a
      non-string. */
  function DecodeHash(c: Cell): (r: Option<Option<nat>>)
    ensures !Truthy(c) ==> r == Some(None)
    ensures r.Some? && r.value.Some? ==> c.Str? && IsHex(c.s) && r.value.value == HexValue(c.s)
  {
    if !Truthy(c) then Some(None)
    else if c.Str? && IsHex(c.s) then Some(Some(HexValue(c.s)))
    else None
  }

  /** `k` zero digits. */
  function Zeros(k: nat): (z: string)
    ensures |z| == k && forall i :: 0 <= i < k ==> z[i] == '0'
  {
    seq(k, _ => '0')
  }

  /** Any number of leading zeros leaves the value unchanged. */
  lemma {:induction false} HexLeadingZeros(k: nat, s: string)
    requires forall i :: 0 <= i < |s| ==> IsHexDigit(s[i])
    ensures IsHex(Zeros(k) + s) <==> k > 0 || |s| > 0
    ensures HexValue(Zeros(k) + s) == HexValue(s)
  {
    if k > 0 {
      HexLeadingZeros(k - 1, s);
      assert Zeros(k) + s == ['0'] + (Zeros(k - 1) + s);
      HexLeadingZero(Zeros(k - 1) + s);
    } else {
      assert Zeros(k) + s == s;
    }
  }

  /** The hash scanner writes `str(hash)`, the hash as lower-case hexadecimal padded with
      leading zeros to a fixed width; whatever the padding, it decodes back to the hash. */
  lemma DecodeEncoded(k: nat, n: nat)
    ensures DecodeHash(Str(Zeros(k) + ToHex(n))) == Some(Some(n))
  {
    HexRoundTrip(n);
    HexLeadingZeros(k, ToHex(n));
  }

  /** One cached entry: the three hashes decoded, `error` dropped. */
  function DecodeEntry(e: MergeCache.Entry): Option<HashSet>
  {
    var p := DecodeHash(e.phash);
    var a := DecodeHash(e.ahash);
    var d := DecodeHash(e.dhash);
    if p.Some? && a.Some? && d.Some? then Some(HashSet(p.value, a.value, d.value)) else None
  }

  /** The innermost loop of `load_cache_advanced`: decode one date's timepoints. */
  method DecodeBucket(b: MergeCache.Bucket) returns (r: Option<map<string, HashSet>>)
    ensures r.None? <==> exists tp :: tp in b && DecodeEntry(b[tp]).None?
    ensures r.Some? ==> r.value.Keys == b.Keys && forall tp :: tp in b ==> DecodeEntry(b[tp]) == Some(r.value[tp])
  {
    var out: map<string, HashSet> := map[];
    var todo := b.Keys;
    while todo != {}
      invariant todo <= b.Keys
      invariant out.Keys == b.Keys - todo
      invariant forall tp :: tp in out ==> DecodeEntry(b[tp]) == Some(out[tp])
      decreases |todo|
    {
      var tp :| tp in todo;
      var e := DecodeEntry(b[tp]);
      if e.None? {
        return None;
      }
      out := out[tp := e.value];
      todo := todo - {tp};
    }
    r := Some(out);
  }

  /** The dates of one URL. */
  method DecodeDated(dd: MergeCache.Dated) returns (r: Option<Dated>)
    ensures r.None? <==> exists d, tp :: d in dd && tp in dd[d] && DecodeEntry(dd[d][tp]).None?
    ensures r.Some? ==> (r.value.Keys == dd.Keys &&
      forall d :: d in dd ==> (r.value[d].Keys == dd[d].Keys &&
        forall tp :: tp in dd[d] ==> DecodeEntry(dd[d][tp]) == Some(r.value[d][tp])))
  {
    var out: Dated := map[];
    var todo := dd.Keys;
    while todo != {}
      invariant todo <= dd.Keys
      invariant out.Keys == dd.Keys - todo
      invariant forall d :: d in out ==> (out[d].Keys == dd[d].Keys &&
        forall tp :: tp in dd[d] ==> DecodeEntry(dd[d][tp]) == Some(out[d][tp]))
      invariant forall d, tp :: d in dd && d !in todo && tp in dd[d] ==> DecodeEntry(dd[d][tp]).Some?
      decreases |todo|
    {
      var d :| d in todo;
      var b := DecodeBucket(dd[d]);
      if b.None? {
        return None;
      }
      out := out[d := b.value];
      todo := todo - {d};
    }
    r := Some(out);
  }

  /** `load_cache_advanced`: a missing file loads as the empty cache; a corrupt file or a
      hash that is not hexadecimal raises (`None`); otherwise every entry is decoded and
      the key structure is kept. */
  method LoadCacheAdvanced(total: MergeCache.TotalCache) returns (r: Option<Cache>)
    ensures total.NoTotal? ==> r == Some(map[])
    ensures total.CorruptTotal? ==> r.None?
    ensures total.TotalDoc? ==>
      (r.None? <==> exists u, d, tp :: u in total.store && d in total.store[u] && tp in total.store[u][d] &&
                                        DecodeEntry(total.store[u][d][tp]).None?)
    ensures total.TotalDoc? && r.Some? ==> (r.value.Keys == total.store.Keys &&
      forall u, d :: u in total.store && d in total.store[u] ==> (
        d in r.value[u] && r.value[u][d].Keys == total.store[u][d].Keys &&
        forall tp :: tp in total.store[u][d] ==> DecodeEntry(total.store[u][d][tp]) == Some(r.value[u][d][tp])))
  {
    if total.NoTotal? {
      return Some(map[]);
    }
    if total.CorruptTotal? {
      return None;
    }
    var raw := total.store;
    var out: Cache := map[];
    var todo := raw.Keys;
    while todo != {}
      invariant todo <= raw.Keys
      invariant out.Keys == raw.Keys - todo
      invariant forall u :: u in out ==> (out[u].Keys == raw[u].Keys &&
        forall d :: d in raw[u] ==> (out[u][d].Keys == raw[u][d].Keys &&
          forall tp :: tp in raw[u][d] ==> DecodeEntry(raw[u][d][tp]) == Some(out[u][d][tp])))
      invariant forall u, d, tp :: u in raw && u !in todo && d in raw[u] && tp in raw[u][d] ==>
        DecodeEntry(raw[u][d][tp]).Some?
      decreases |todo|
    {
      var u :| u in todo;
      var dd := DecodeDated(raw[u]);
      if dd.None? {
        return None;
      }
      out := out[u := dd.value];
      todo := todo - {u};
    }
    r := Some(out);
  }
}
