/** The bloom filter and the key hash of utils/bloom.go.

    A filter is a byte array: `nBytes` data bytes holding `8 * nBytes` bits,
    followed by one byte holding the probe count `k`.  A 32-bit key hash `h`
    is mapped to the `k` bit positions `h, h + delta, h + 2 * delta, ...`
    (each wrapped to 32 bits, then reduced modulo the bit count), where
    `delta` is `h` rotated left by 15 bits. */
module Bloom {
  import opened Base

  const M32: int := 0x1_0000_0000

  /** Go's `uint32`, as an integer. */
  type u32 = x: int | 0 <= x < M32

  /** `a + b` on `uint32`: wraps around. */
  function Add32(a: u32, b: u32): u32
  {
    (a + b) % M32
  }

  /** The probe step of a hash: `(h >> 17) | (h << 15)` on `uint32`, that
      is, `h` rotated left by 15 bits. */
  function Delta(h: u32): u32
  {
    (((h as bv32) >> 17) | ((h as bv32) << 15)) as int
  }

  // ---------------------------------------------------------------------
  // Bits of a filter

  /** Bit `pos` of `f`: bit `pos % 8` of byte `pos / 8`. */
  predicate BitSet(f: seq<byte>, pos: nat)
    requires pos / 8 < |f|
  {
    f[pos / 8] & (1 << (pos % 8)) != 0
  }

  /** `f[pos/8] |= 1 << (pos%8)`. */
  function SetBit(f: seq<byte>, pos: nat): (g: seq<byte>)
    requires pos / 8 < |f|
    ensures |g| == |f|
    ensures forall j :: 0 <= j < |f| && j != pos / 8 ==> g[j] == f[j]
  {
    f[pos / 8 := f[pos / 8] | (1 << (pos % 8))]
  }

  /** Setting a bit sets it and clears none. */
  lemma SetBitMonotone(f: seq<byte>, pos: nat, q: nat)
    requires pos / 8 < |f| && q / 8 < |f|
    ensures BitSet(SetBit(f, pos), pos)
    ensures BitSet(f, q) ==> BitSet(SetBit(f, pos), q)
  {
    var g := SetBit(f, pos);
    var b: bv8 := 1 << (pos % 8);
    assert g[pos / 8] == f[pos / 8] | b;
    if q / 8 == pos / 8 {
      var c: bv8 := 1 << (q % 8);
      assert f[q / 8] & c != 0 ==> (f[q / 8] | b) & c != 0;
    }
  }

  /** Every bit below `nBits` that is set in `f` is set in `g`. */
  ghost predicate Covers(f: seq<byte>, g: seq<byte>, nBits: nat)
    requires nBits <= 8 * |f| && nBits <= 8 * |g|
  {
    forall q: nat :: q < nBits ==> BitSet(f, q) ==> BitSet(g, q)
  }

  // ---------------------------------------------------------------------
  // Probe sequences

  /** The i-th probe of the sequence that starts at `h` and steps by `delta`. */
  function Probe(h: u32, delta: u32, i: nat): u32
  {
    (h + i * delta) % M32
  }

  /** Setting the `n` probes of `h` into `f`, in the order appendFilter
      does: the first probe first. */
  function SetProbes(f: seq<byte>, h: u32, delta: u32, n: nat, nBits: nat): (g: seq<byte>)
    requires 0 < nBits <= 8 * |f|
    ensures |g| == |f|
    ensures forall j :: 0 <= j < |f| && nBits <= 8 * j ==> g[j] == f[j]
    decreases n
  {
    if n == 0 then f
    else SetProbes(SetBit(f, h % nBits), Add32(h, delta), delta, n - 1, nBits)
  }

  /** All `n` probes of `h` are set in `f`; the test MayContain performs,
      reading the probes in the same order. */
  predicate AllProbesSet(f: seq<byte>, h: u32, delta: u32, n: nat, nBits: nat)
    requires 0 < nBits <= 8 * |f|
    decreases n
  {
    n == 0 || (BitSet(f, h % nBits) && AllProbesSet(f, Add32(h, delta), delta, n - 1, nBits))
  }

  lemma ProbeStep(h: u32, delta: u32, i: nat)
    ensures Probe(Add32(h, delta), delta, i) == Probe(h, delta, i + 1)
  {
    var a := h + delta;
    assert (i + 1) * delta == i * delta + delta;
    assert (a % M32 + i * delta) % M32 == (a + i * delta) % M32 by {
      var q := a / M32;
      assert a == q * M32 + a % M32;
      assert q == 0 || q == 1;
    }
  }

  lemma ProbeZero(h: u32, delta: u32)
    ensures Probe(h, delta, 0) == h
  {
  }

  /** Whether the i-th probe position of `h` is set in `f`. */
  predicate ProbeBit(f: seq<byte>, h: u32, delta: u32, i: nat, nBits: nat)
    requires 0 < nBits <= 8 * |f|
  {
    BitSet(f, Probe(h, delta, i) % nBits)
  }

  lemma ProbeBitStep(f: seq<byte>, h: u32, delta: u32, i: nat, nBits: nat)
    requires 0 < nBits <= 8 * |f|
    ensures ProbeBit(f, Add32(h, delta), delta, i, nBits) == ProbeBit(f, h, delta, i + 1, nBits)
  {
    ProbeStep(h, delta, i);
  }

  /** A passing probe test has every probe position set. */
  lemma {:induction false} AllProbesSetSound(f: seq<byte>, h: u32, delta: u32, n: nat, nBits: nat, i: nat)
    requires 0 < nBits <= 8 * |f|
    requires AllProbesSet(f, h, delta, n, nBits) && i < n
    ensures ProbeBit(f, h, delta, i, nBits)
    decreases n
  {
    if i == 0 {
      ProbeZero(h, delta);
    } else {
      AllProbesSetSound(f, Add32(h, delta), delta, n - 1, nBits, i - 1);
      ProbeBitStep(f, h, delta, i - 1, nBits);
    }
  }

  /** A filter with every probe position set passes the probe test. */
  lemma {:induction false} AllProbesSetComplete(f: seq<byte>, h: u32, delta: u32, n: nat, nBits: nat)
    requires 0 < nBits <= 8 * |f|
    requires forall i :: 0 <= i < n ==> ProbeBit(f, h, delta, i, nBits)
    ensures AllProbesSet(f, h, delta, n, nBits)
    decreases n
  {
    if n > 0 {
      assert ProbeBit(f, h, delta, 0, nBits);
      ProbeZero(h, delta);
      forall i | 0 <= i < n - 1
        ensures ProbeBit(f, Add32(h, delta), delta, i, nBits)
      {
        ProbeBitStep(f, h, delta, i, nBits);
        assert ProbeBit(f, h, delta, i + 1, nBits);
      }
      AllProbesSetComplete(f, Add32(h, delta), delta, n - 1, nBits);
    }
  }

  /** The recursive probe test is the closed form: every position
      `(h + i * delta) mod 2^32 mod nBits` with `i < n` is set. */
  lemma AllProbesSetIff(f: seq<byte>, h: u32, delta: u32, n: nat, nBits: nat)
    requires 0 < nBits <= 8 * |f|
    ensures AllProbesSet(f, h, delta, n, nBits) <==>
            forall i :: 0 <= i < n ==> ProbeBit(f, h, delta, i, nBits)
  {
    if AllProbesSet(f, h, delta, n, nBits) {
      forall i | 0 <= i < n
        ensures ProbeBit(f, h, delta, i, nBits)
      {
        AllProbesSetSound(f, h, delta, n, nBits, i);
      }
    }
    if forall i :: 0 <= i < n ==> ProbeBit(f, h, delta, i, nBits) {
      AllProbesSetComplete(f, h, delta, n, nBits);
    }
  }

  /** The probe test only looks at bits below `nBits`, so a filter that keeps
      those bits keeps its answers. */
  lemma {:induction false} AllProbesSetCovered(f: seq<byte>, g: seq<byte>, h: u32, delta: u32, n: nat, nBits: nat)
    requires 0 < nBits <= 8 * |f| && nBits <= 8 * |g|
    requires Covers(f, g, nBits)
    requires AllProbesSet(f, h, delta, n, nBits)
    ensures AllProbesSet(g, h, delta, n, nBits)
    decreases n
  {
    if n > 0 {
      AllProbesSetCovered(f, g, Add32(h, delta), delta, n - 1, nBits);
    }
  }

  /** Setting probes clears no bit. */
  lemma {:induction false} SetProbesCovers(f: seq<byte>, h: u32, delta: u32, n: nat, nBits: nat)
    requires 0 < nBits <= 8 * |f|
    ensures Covers(f, SetProbes(f, h, delta, n, nBits), nBits)
    decreases n
  {
    if n > 0 {
      var f1 := SetBit(f, h % nBits);
      SetProbesCovers(f1, Add32(h, delta), delta, n - 1, nBits);
      forall q: nat | q < nBits && BitSet(f, q)
        ensures BitSet(SetProbes(f, h, delta, n, nBits), q)
      {
        SetBitMonotone(f, h % nBits, q);
      }
    }
  }

  /** After its probes are set, a hash passes the probe test. */
  lemma {:induction false} SetProbesSetsAll(f: seq<byte>, h: u32, delta: u32, n: nat, nBits: nat)
    requires 0 < nBits <= 8 * |f|
    ensures AllProbesSet(SetProbes(f, h, delta, n, nBits), h, delta, n, nBits)
    decreases n
  {
    if n > 0 {
      var f1 := SetBit(f, h % nBits);
      var g := SetProbes(f, h, delta, n, nBits);
      SetProbesSetsAll(f1, Add32(h, delta), delta, n - 1, nBits);
      SetBitMonotone(f, h % nBits, h % nBits);
      SetProbesCovers(f1, Add32(h, delta), delta, n - 1, nBits);
      assert BitSet(g, h % nBits);
    }
  }

  // ---------------------------------------------------------------------
  // Building a filter

  /** The probes of every key set into `f`, first key first. */
  function InsertKeys(f: seq<byte>, keys: seq<u32>, k: nat, nBits: nat): (g: seq<byte>)
    requires 0 < nBits <= 8 * |f|
    ensures |g| == |f|
    ensures forall j :: 0 <= j < |f| && nBits <= 8 * j ==> g[j] == f[j]
    decreases |keys|
  {
    if keys == [] then f
    else InsertKeys(SetProbes(f, keys[0], Delta(keys[0]), k, nBits), keys[1..], k, nBits)
  }

  lemma {:induction false} InsertKeysCovers(f: seq<byte>, keys: seq<u32>, k: nat, nBits: nat)
    requires 0 < nBits <= 8 * |f|
    ensures Covers(f, InsertKeys(f, keys, k, nBits), nBits)
    decreases |keys|
  {
    if keys != [] {
      var f1 := SetProbes(f, keys[0], Delta(keys[0]), k, nBits);
      SetProbesCovers(f, keys[0], Delta(keys[0]), k, nBits);
      InsertKeysCovers(f1, keys[1..], k, nBits);
    }
  }

  /** Every inserted key passes the probe test of the result. */
  lemma {:induction false} InsertKeysSetsAll(f: seq<byte>, keys: seq<u32>, k: nat, nBits: nat, h: u32)
    requires 0 < nBits <= 8 * |f|
    requires h in keys
    ensures AllProbesSet(InsertKeys(f, keys, k, nBits), h, Delta(h), k, nBits)
    decreases |keys|
  {
    var f1 := SetProbes(f, keys[0], Delta(keys[0]), k, nBits);
    if keys[0] == h {
      SetProbesSetsAll(f, h, Delta(h), k, nBits);
      InsertKeysCovers(f1, keys[1..], k, nBits);
      AllProbesSetCovered(f1, InsertKeys(f1, keys[1..], k, nBits), h, Delta(h), k, nBits);
    } else {
      InsertKeysSetsAll(f1, keys[1..], k, nBits, h);
    }
  }

  /** The probe count appendFilter stores: `bitsPerKey * 0.69` truncated,
      clamped to [1, 30]; a negative `bitsPerKey` counts as 0.  The float
      product is written as `(b * 69) / 100`, which truncates to the same
      integer for every `b` up to 43, and both clamp to 30 from 44 on. */
  function ProbeCount(bitsPerKey: int): (k: nat)
    ensures 1 <= k <= 30
  {
    var b := if bitsPerKey < 0 then 0 else bitsPerKey;
    var k := (b * 69) / 100;
    if k < 1 then 1 else if k > 30 then 30 else k
  }

  /** The number of data bytes: the bit count is `len(keys) * bitsPerKey`,
      at least 64, rounded up to whole bytes. */
  function DataBytes(nKeys: nat, bitsPerKey: int): (n: nat)
    ensures n >= 8
  {
    var b := if bitsPerKey < 0 then 0 else bitsPerKey;
    var nBits := if nKeys * b < 64 then 64 else nKeys * b;
    (nBits + 7) / 8
  }

  /** What a filter of `|keys|` keys at `bitsPerKey` requires so that Go's
      `int` and `uint32` arithmetic does not overflow. */
  predicate FitsUint32(nKeys: nat, bitsPerKey: int)
  {
    bitsPerKey < M32 && 8 * DataBytes(nKeys, bitsPerKey) < M32
  }

  function Zeros(n: nat): (z: seq<byte>)
    ensures |z| == n && forall j :: 0 <= j < n ==> z[j] == 0
  {
    seq(n, _ => 0)
  }

  /** The filter appendFilter returns for `keys`. */
  function BuildFilter(keys: seq<u32>, bitsPerKey: int): (f: seq<byte>)
    requires FitsUint32(|keys|, bitsPerKey)
  {
    var n := DataBytes(|keys|, bitsPerKey);
    var k := ProbeCount(bitsPerKey);
    InsertKeys(Zeros(n + 1), keys, k, 8 * n)[n := k as byte]
  }

  lemma ByteRoundTrip(k: nat)
    requires k <= 30
    ensures (k as byte) as int == k
  {
  }

  /** A built filter has `nBytes + 1` bytes (so at least 9), its last byte
      is the probe count, and the bits of the data bytes are those the
      keys' probes set: the probe writes never reach the trailing byte. */
  lemma BuildFilterShape(keys: seq<u32>, bitsPerKey: int)
    requires FitsUint32(|keys|, bitsPerKey)
    ensures var f := BuildFilter(keys, bitsPerKey);
      && |f| == DataBytes(|keys|, bitsPerKey) + 1 >= 9
      && f[|f| - 1] as int == ProbeCount(bitsPerKey)
      && forall j :: 0 <= j < |f| - 1 ==>
           f[j] == InsertKeys(Zeros(|f|), keys, ProbeCount(bitsPerKey), 8 * (|f| - 1))[j]
  {
    var n := DataBytes(|keys|, bitsPerKey);
    var k := ProbeCount(bitsPerKey);
    var g := InsertKeys(Zeros(n + 1), keys, k, 8 * n);
    var f := g[n := k as byte];
    assert f == BuildFilter(keys, bitsPerKey);
    assert |f| == n + 1;
    ByteRoundTrip(k);
  }

  // ---------------------------------------------------------------------
  // Querying a filter

  /** What MayContain answers for hash `h`.  Go computes the bit count as
      `uint32(8 * (len(f) - 1))`; the model requires that this does not
      truncate. */
  predicate MayContainSpec(f: seq<byte>, h: u32)
    requires |f| <= 0x2000_0000
  {
    if |f| < 2 then false
    else if f[|f| - 1] as int > 30 then true
    else AllProbesSet(f, h, Delta(h), f[|f| - 1] as int, 8 * (|f| - 1))
  }

  /** A filter shorter than two bytes holds nothing. */
  lemma ShortFilterRejects(f: seq<byte>, h: u32)
    requires |f| < 2
    ensures !MayContainSpec(f, h)
  {
  }

  /** A trailing byte above 30 marks a filter that accepts everything. */
  lemma LargeProbeCountAccepts(f: seq<byte>, h: u32)
    requires 2 <= |f| <= 0x2000_0000 && f[|f| - 1] as int > 30
    ensures MayContainSpec(f, h)
  {
  }

  /** Otherwise MayContain holds exactly when all `k` probe positions are
      set, each inside the data bytes. */
  lemma MayContainIff(f: seq<byte>, h: u32)
    requires 2 <= |f| <= 0x2000_0000 && f[|f| - 1] as int <= 30
    ensures var nBits := 8 * (|f| - 1);
      && (forall i :: 0 <= i ==> (Probe(h, Delta(h), i) % nBits) / 8 < |f| - 1)
      && (MayContainSpec(f, h) <==>
          forall i :: 0 <= i < f[|f| - 1] as int ==> ProbeBit(f, h, Delta(h), i, nBits))
  {
    AllProbesSetIff(f, h, Delta(h), f[|f| - 1] as int, 8 * (|f| - 1));
  }

  /** No false negatives: a freshly built filter accepts every key hash it
      was built from. */
  lemma NoFalseNegatives(keys: seq<u32>, bitsPerKey: int, h: u32)
    requires FitsUint32(|keys|, bitsPerKey)
    requires h in keys
    ensures |BuildFilter(keys, bitsPerKey)| <= 0x2000_0000
    ensures MayContainSpec(BuildFilter(keys, bitsPerKey), h)
  {
    var n := DataBytes(|keys|, bitsPerKey);
    var k := ProbeCount(bitsPerKey);
    var nBits := 8 * n;
    var g := InsertKeys(Zeros(n + 1), keys, k, nBits);
    var f := BuildFilter(keys, bitsPerKey);
    InsertKeysSetsAll(Zeros(n + 1), keys, k, nBits, h);
    assert Covers(g, f, nBits) by {
      forall q: nat | q < nBits
        ensures BitSet(g, q) ==> BitSet(f, q)
      {
        assert f[q / 8] == g[q / 8];
      }
    }
    AllProbesSetCovered(g, f, h, Delta(h), k, nBits);
    assert f[|f| - 1] == k as byte;
    ByteRoundTrip(k);
  }

  // ---------------------------------------------------------------------
  // The operations

  /** The first half of appendFilter: the probe count and the size of the
      filter, computed as the Go code computes them. */
  method FilterParams(nKeys: nat, bitsPerKey: int) returns (k: nat, nBytes: nat, nBits: nat)
    requires FitsUint32(nKeys, bitsPerKey)
    ensures k == ProbeCount(bitsPerKey)
    ensures nBytes == DataBytes(nKeys, bitsPerKey)
    ensures nBits == 8 * nBytes
  {
    var bpk := bitsPerKey;
    if bpk < 0 {
      bpk := 0;
    }
    k := (bpk * 69) / 100;
    if k < 1 {
      k := 1;
    }
    if k > 30 {
      k := 30;
    }
    nBits := nKeys * bpk;
    if nBits < 64 {
      nBits := 64;
    }
    nBytes := (nBits + 7) / 8;
    nBits := nBytes * 8;
  }

  /** `filter[bitPos/8] |= 1 << (bitPos%8)`, in place. */
  method SetBitInPlace(filter: array<byte>, bitPos: nat)
    requires bitPos / 8 < filter.Length
    modifies filter
    ensures filter[..] == SetBit(old(filter[..]), bitPos)
  {
    filter[bitPos / 8] := filter[bitPos / 8] | (1 << (bitPos % 8));
  }

  /** The inner loop of appendFilter: set the `k` probes of one key hash. */
  method AddProbes(filter: array<byte>, h0: u32, k: nat, nBits: nat)
    requires 0 < nBits <= 8 * filter.Length
    modifies filter
    ensures filter[..] == SetProbes(old(filter[..]), h0, Delta(h0), k, nBits)
  {
    var h: u32 := h0;
    var delta: u32 := Delta(h0);
    var i := 0;
    while i < k
      invariant 0 <= i <= k
      invariant SetProbes(filter[..], h, delta, k - i, nBits) == SetProbes(old(filter[..]), h0, delta, k, nBits)
    {
      var bitPos := h % nBits;
      SetBitInPlace(filter, bitPos);
      h := Add32(h, delta);
      i := i + 1;
    }
  }

  /** appendFilter: a fresh byte array built by OR-ing each key's probes in
      place, with the probe count in the last byte. */
  method AppendFilter(keys: seq<u32>, bitsPerKey: int) returns (filter: array<byte>)
    requires FitsUint32(|keys|, bitsPerKey)
    ensures fresh(filter)
    ensures filter[..] == BuildFilter(keys, bitsPerKey)
  {
    var k, nBytes, nBits := FilterParams(|keys|, bitsPerKey);
    filter := new byte[nBytes + 1](_ => 0);
    assert filter[..] == Zeros(nBytes + 1);
    var j := 0;
    while j < |keys|
      invariant 0 <= j <= |keys| && filter.Length == nBytes + 1
      invariant InsertKeys(filter[..], keys[j..], k, nBits) == InsertKeys(Zeros(nBytes + 1), keys, k, nBits)
    {
      AddProbes(filter, keys[j], k, nBits);
      assert keys[j..][1..] == keys[j + 1..];
      j := j + 1;
    }
    filter[nBytes] := k as byte;
  }

  /** NewFilter: the filter of `keys`, with no false negatives. */
  method NewFilter(keys: seq<u32>, bitsPerKey: int) returns (f: array<byte>)
    requires FitsUint32(|keys|, bitsPerKey)
    ensures fresh(f)
    ensures f[..] == BuildFilter(keys, bitsPerKey)
    ensures f.Length == DataBytes(|keys|, bitsPerKey) + 1
    ensures forall h :: h in keys ==> MayContainSpec(f[..], h)
  {
    f := AppendFilter(keys, bitsPerKey);
    BuildFilterShape(keys, bitsPerKey);
    forall h | h in keys
      ensures MayContainSpec(f[..], h)
    {
      NoFalseNegatives(keys, bitsPerKey, h);
    }
  }

  /** Filter.MayContain: the probe loop, returning at the first unset bit. */
  method MayContain(f: array<byte>, h: u32) returns (r: bool)
    requires f.Length <= 0x2000_0000
    ensures r == MayContainSpec(f[..], h)
  {
    if f.Length < 2 {
      return false;
    }
    var k := f[f.Length - 1] as int;
    if k > 30 {
      return true;
    }
    var nBits := 8 * (f.Length - 1);
    var delta := Delta(h);
    var cur: u32 := h;
    var i := 0;
    while i < k
      invariant 0 <= i <= k
      invariant AllProbesSet(f[..], cur, delta, k - i, nBits) == AllProbesSet(f[..], h, delta, k, nBits)
    {
      var bitPos := cur % nBits;
      if f[bitPos / 8] & (1 << (bitPos % 8)) == 0 {
        assert !BitSet(f[..], bitPos);
        return false;
      }
      cur := Add32(cur, delta);
      i := i + 1;
    }
    return true;
  }

  // ---------------------------------------------------------------------
  // The hash

  const Seed: bv32 := 0xbc9f1d34
  const Mul: bv32 := 0xc6a4a793

  /** The little-endian 4-byte word at `b[i..i+4]`. */
  function Word(b: seq<byte>, i: nat): bv32
    requires i + 4 <= |b|
  {
    (b[i] as bv32) | ((b[i + 1] as bv32) << 8) | ((b[i + 2] as bv32) << 16) | ((b[i + 3] as bv32) << 24)
  }

  /** One round of the word loop: `h += w; h *= m; h ^= h >> 16`. */
  function MixWord(h: bv32, w: bv32): bv32
  {
    var x := (h + w) * Mul;
    x ^ (x >> 16)
  }

  /** The last round, after the tail bytes are added: `h *= m; h ^= h >> 24`. */
  function FinishTail(h: bv32): bv32
  {
    var x := h * Mul;
    x ^ (x >> 24)
  }

  /** The initial state: the seed xor `uint32(len(b)) * m`. */
  function HashInit(len: nat): bv32
  {
    Seed ^ (((len % M32) as bv32) * Mul)
  }

  /** The hash state after the first `n` words of `b`. */
  function HashWords(b: seq<byte>, n: nat): bv32
    requires 4 * n <= |b|
  {
    if n == 0 then HashInit(|b|)
    else MixWord(HashWords(b, n - 1), Word(b, 4 * (n - 1)))
  }

  /** Case 3 of the tail switch: byte 2, shifted by 16. */
  function TailByte2(h: bv32, t: seq<byte>): bv32
    requires |t| < 4
  {
    if |t| == 3 then h + ((t[2] as bv32) << 16) else h
  }

  /** Case 2 of the tail switch, reached from case 3 by falling through:
      byte 1, shifted by 8. */
  function TailByte1(h: bv32, t: seq<byte>): bv32
    requires |t| < 4
  {
    if |t| >= 2 then h + ((t[1] as bv32) << 8) else h
  }

  /** Case 1 of the tail switch, reached from case 2 by falling through:
      byte 0, then the last round. */
  function TailByte0(h: bv32, t: seq<byte>): bv32
    requires |t| < 4
  {
    if |t| >= 1 then FinishTail(h + (t[0] as bv32)) else h
  }

  /** The tail of fewer than four bytes, as the fall-through switch adds it:
      byte 2, byte 1, byte 0, then the last round; an empty tail leaves the
      state alone. */
  function HashTail(h: bv32, t: seq<byte>): bv32
    requires |t| < 4
  {
    TailByte0(TailByte1(TailByte2(h, t), t), t)
  }

  /** The hash of `b`: every whole word, then the tail. */
  function HashSpec(b: seq<byte>): (h: bv32)
  {
    HashTail(HashWords(b, |b| / 4), b[4 * (|b| / 4)..])
  }

  lemma WordAt(b0: seq<byte>, i: nat)
    requires i + 4 <= |b0|
    ensures Word(b0[i..], 0) == Word(b0, i)
  {
    var b := b0[i..];
    assert b[0] == b0[i] && b[1] == b0[i + 1] && b[2] == b0[i + 2] && b[3] == b0[i + 3];
  }

  // Each case of the switch, one at a time (proved apart so that the
  // solver never sees more than one multiplication at once).

  lemma TailCase3(h0: bv32, b: seq<byte>, h3: bv32)
    requires |b| < 4
    requires h3 == if |b| == 3 then h0 + ((b[2] as bv32) << 16) else h0
    ensures h3 == TailByte2(h0, b)
  {
  }

  lemma TailCase2(h3: bv32, b: seq<byte>, h2: bv32)
    requires |b| < 4
    requires h2 == if |b| >= 2 then h3 + ((b[1] as bv32) << 8) else h3
    ensures h2 == TailByte1(h3, b)
  {
  }

  lemma TailCase1(h2: bv32, b: seq<byte>, h: bv32)
    requires |b| < 4
    requires h == if |b| >= 1 then FinishTail(h2 + (b[0] as bv32)) else h2
    ensures h == TailByte0(h2, b)
  {
    assert TailByte0(h2, b) == if |b| >= 1 then FinishTail(h2 + (b[0] as bv32)) else h2;
  }

  lemma TailCases(h0: bv32, b: seq<byte>, h3: bv32, h2: bv32, h: bv32)
    requires |b| < 4
    requires h3 == TailByte2(h0, b) && h2 == TailByte1(h3, b) && h == TailByte0(h2, b)
    ensures h == HashTail(h0, b)
  {
  }

  /** The fall-through switch at the end of Hash. */
  method AddTail(h0: bv32, b: seq<byte>) returns (h: bv32)
    requires |b| < 4
    ensures h == HashTail(h0, b)
  {
    h := h0;
    if |b| == 3 {
      h := h + ((b[2] as bv32) << 16);
    }
    ghost var h3 := h;
    TailCase3(h0, b, h3);
    if |b| >= 2 {
      h := h + ((b[1] as bv32) << 8);
    }
    ghost var h2 := h;
    TailCase2(h3, b, h2);
    if |b| >= 1 {
      h := h + (b[0] as bv32);
      h := FinishTail(h);
    }
    TailCase1(h2, b, h);
    TailCases(h0, b, h3, h2, h);
  }

  /** Hash: the loop consumes four bytes at a time by re-slicing `b`, then
      the switch adds the remaining bytes. */
  method Hash(b0: seq<byte>) returns (h: bv32)
    ensures h == HashSpec(b0)
  {
    var b := b0;
    h := HashInit(|b|);
    ghost var n: nat := 0;
    while |b| >= 4
      invariant 4 * n <= |b0| && b == b0[4 * n..]
      invariant h == HashWords(b0, n)
    {
      WordAt(b0, 4 * n);
      h := MixWord(h, Word(b, 0));
      b := b[4..];
      n := n + 1;
    }
    assert n == |b0| / 4;
    h := AddTail(h, b);
  }

  lemma HashEmpty()
    ensures HashSpec([]) == 0xbc9f1d34
  {
  }

  /** The hash follows the scheme of LevelDB's hash, and reproduces the
      first test vectors of LevelDB's hash test (seed 0xbc9f1d34): the empty
      input, inputs of one to three tail bytes, and one whole word. */
  lemma HashVectorsTail()
    ensures HashSpec([0x62]) == 0xef1345c4
    ensures HashSpec([0xc3, 0x97]) == 0x5b663814
    ensures HashSpec([0xe2, 0x99, 0xa5]) == 0x323c078f
  {
    assert HashInit(1) == 0x7a3bbaa7;
    assert HashInit(2) == 0x31d65212;
    assert HashInit(3) == 0xef72eb8d;
    var b1: seq<byte> := [0x62];
    var b2: seq<byte> := [0xc3, 0x97];
    var b3: seq<byte> := [0xe2, 0x99, 0xa5];
    assert b1[0..] == b1 && b2[0..] == b2 && b3[0..] == b3;
  }

  lemma HashVectorWord()
    ensures HashSpec([0xe1, 0x80, 0xb9, 0x32]) == 0xed21633a
  {
    var b: seq<byte> := [0xe1, 0x80, 0xb9, 0x32];
    assert HashInit(4) == 0xa60d8378;
    assert Word(b, 0) == 0x32b980e1;
    assert HashWords(b, 1) == MixWord(0xa60d8378, 0x32b980e1);
    assert MixWord(0xa60d8378, 0x32b980e1) == 0xed21633a;
    assert b[4..] == [];
  }

  /** The hash of a key as an unsigned 32-bit number. */
  function KeyHash(key: seq<byte>): u32
  {
    HashSpec(key) as int
  }

  /** The hashes of a list of keys, in order. */
  function KeyHashes(keys: seq<seq<byte>>): (hs: seq<u32>)
    ensures |hs| == |keys|
    ensures forall i :: 0 <= i < |keys| ==> hs[i] == KeyHash(keys[i])
  {
    if keys == [] then [] else [KeyHash(keys[0])] + KeyHashes(keys[1..])
  }

  /** Filter.MayContainKey: MayContain of the key's hash. */
  method MayContainKey(f: array<byte>, key: seq<byte>) returns (r: bool)
    requires f.Length <= 0x2000_0000
    ensures r == MayContainSpec(f[..], KeyHash(key))
  {
    var h := Hash(key);
    r := MayContain(f, h as int);
  }

  /** A freshly built filter accepts every key it was built from, when it is
      built from the keys' hashes and queried by key. */
  lemma NoFalseNegativesByKey(keys: seq<seq<byte>>, bitsPerKey: int, key: seq<byte>)
    requires FitsUint32(|keys|, bitsPerKey)
    requires key in keys
    ensures |BuildFilter(KeyHashes(keys), bitsPerKey)| <= 0x2000_0000
    ensures MayContainSpec(BuildFilter(KeyHashes(keys), bitsPerKey), KeyHash(key))
  {
    var hs := KeyHashes(keys);
    var i :| 0 <= i < |keys| && keys[i] == key;
    assert hs[i] == KeyHash(key);
    NoFalseNegatives(hs, bitsPerKey, KeyHash(key));
  }
}
