/**
 64-bit SimHashes as four 16-bit bands, and the pigeonhole argument behind the
 band index: hashes at distance three or less agree on at least one whole band.
 */
module SimHash {

  const BITS: nat := 64
  const BANDS: nat := 4
  const WIDTH: nat := 16
  const RADIUS: nat := 3

  /** Bit k of the number is element k. */
  type Hash = h: seq<bool> | |h| == BITS witness seq(BITS, _ => false)

  /** Hamming distance: the number of one bits of the exclusive or. */
  function Distance(a: seq<bool>, b: seq<bool>): (d: nat)
    requires |a| == |b|
    ensures d == 0 <==> a == b
  {
    if a == [] then 0
    else
      assert a == [a[0]] + a[1..] && b == [b[0]] + b[1..];
      (if a[0] == b[0] then 0 else 1) + Distance(a[1..], b[1..])
  }

  /** Bits 16*band .. 16*band+15. */
  function Band(h: Hash, band: nat): (s: seq<bool>)
    requires band < BANDS
    ensures |s| == WIDTH
  {
    h[WIDTH * band..WIDTH * band + WIDTH]
  }

  /** The two hashes would land in one bucket of the index. */
  predicate SharesBand(a: Hash, b: Hash) {
    exists band: nat :: band < BANDS && Band(a, band) == Band(b, band)
  }

  lemma {:induction false} DistanceSymmetric(a: seq<bool>, b: seq<bool>)
    requires |a| == |b|
    ensures Distance(a, b) == Distance(b, a)
  {
    if a != [] {
      DistanceSymmetric(a[1..], b[1..]);
    }
  }

  lemma {:induction false} DistanceOfConcat(a: seq<bool>, b: seq<bool>, c: seq<bool>, d: seq<bool>)
    requires |a| == |c| && |b| == |d|
    ensures Distance(a + b, c + d) == Distance(a, c) + Distance(b, d)
  {
    if a == [] {
      assert a + b == b && c + d == d;
    } else {
      assert (a + b)[1..] == a[1..] + b && (c + d)[1..] == c[1..] + d;
      DistanceOfConcat(a[1..], b, c[1..], d);
    }
  }

  /** The distance is the sum of the band distances. */
  lemma DistanceByBands(a: Hash, b: Hash)
    ensures Distance(a, b) == Distance(Band(a, 0), Band(b, 0)) + Distance(Band(a, 1), Band(b, 1))
                              + Distance(Band(a, 2), Band(b, 2)) + Distance(Band(a, 3), Band(b, 3))
  {
    assert a == a[..16] + a[16..] && b == b[..16] + b[16..];
    DistanceOfConcat(a[..16], a[16..], b[..16], b[16..]);
    assert a[16..] == a[16..32] + a[32..] && b[16..] == b[16..32] + b[32..];
    DistanceOfConcat(a[16..32], a[32..], b[16..32], b[32..]);
    assert a[32..] == a[32..48] + a[48..64] && b[32..] == b[32..48] + b[48..64];
    DistanceOfConcat(a[32..48], a[48..64], b[32..48], b[48..64]);
    assert Band(a, 0) == a[..16] && Band(b, 0) == b[..16];
  }

  /** Pigeonhole: three differing bits cannot touch all four bands. */
  lemma NearHashesShareABand(a: Hash, b: Hash)
    requires Distance(a, b) <= RADIUS
    ensures SharesBand(a, b)
  {
    DistanceByBands(a, b);
    if Band(a, 0) == Band(b, 0) {
    } else if Band(a, 1) == Band(b, 1) {
    } else if Band(a, 2) == Band(b, 2) {
    } else {
      assert Distance(Band(a, 3), Band(b, 3)) == 0;
      assert Band(a, 3) == Band(b, 3);
    }
  }

  /** The bound is the best possible: at distance four the index can miss a pair. */
  lemma FourBitsCanEscape()
    ensures exists a: Hash, b: Hash :: Distance(a, b) == RADIUS + 1 && !SharesBand(a, b)
  {
    var zeros := seq(WIDTH, _ => false);
    var one := zeros[0 := true];
    BandOfSpread(zeros, one);
  }

  /** Repeating one band four times. */
  function Spread(band: seq<bool>): (h: Hash)
    requires |band| == WIDTH
  {
    band + band + band + band
  }

  lemma BandOfSpread(zeros: seq<bool>, one: seq<bool>)
    requires |zeros| == WIDTH && zeros == seq(WIDTH, _ => false) && one == zeros[0 := true]
    ensures Distance(Spread(zeros), Spread(one)) == 4 && !SharesBand(Spread(zeros), Spread(one))
  {
    var a, b := Spread(zeros), Spread(one);
    forall k: nat | k < BANDS ensures Band(a, k) == zeros && Band(b, k) == one {
      SpreadBand(zeros, k);
      SpreadBand(one, k);
    }
    assert zeros[1..] == one[1..] && zeros[0] != one[0];
    assert Distance(zeros, one) == 1;
    DistanceByBands(a, b);
  }

  lemma SpreadBand(band: seq<bool>, k: nat)
    requires |band| == WIDTH && k < BANDS
    ensures Band(Spread(band), k) == band
  {
    if k == 0 {
    } else if k == 1 {
    } else if k == 2 {
    } else {
      assert k == 3;
    }
  }
}
