/** The 15-bit checksum of a frame's first 20 bytes (driver.rs `calc_checksum`). */
module Checksum {
  import opened Bytes

  /** Number of values of a `u32`. */
  const U32: nat := 0x1_0000_0000

  /** Number of little-endian words covered by the checksum. */
  const WordCount: nat := 10

  /** The i-th little-endian 16-bit word of the data. */
  function Word(data: seq<byte>, i: nat): (w: nat)
    requires 2 * i + 1 < |data|
    ensures w < 0x1_0000
  {
    LittleEndian16(data[2 * i], data[2 * i + 1])
  }

  /** The accumulator `acc = (acc << 1) + word` after the first n words,
      in unbounded arithmetic. */
  function Accumulate(data: seq<byte>, n: nat): nat
    requires 2 * n <= |data|
  {
    if n == 0 then 0 else 2 * Accumulate(data, n - 1) + Word(data, n - 1)
  }

  /** One step `(acc << 1) + word` in `u32` arithmetic: the shift drops
      every bit above 31. The addition would overflow past 2^32 (a panic in
      a debug build, a wrap in a release build); it is written here as a
      wrap, and AccumulatorNeverWraps shows it never overflows. */
  function ShiftAdd32(acc: nat, word: nat): (r: nat)
    ensures r < U32
    ensures 2 * acc + word < U32 ==> r == 2 * acc + word
  {
    ((2 * acc) % U32 + word) % U32
  }

  /** The fold of the first n words in the source's `u32` arithmetic. */
  function Accumulate32(data: seq<byte>, n: nat): (acc: nat)
    requires 2 * n <= |data|
    ensures acc < U32
  {
    if n == 0 then 0 else ShiftAdd32(Accumulate32(data, n - 1), Word(data, n - 1))
  }

  /** The largest accumulator n words can produce: every word 0xFFFF. */
  function MaxAccumulate(n: nat): nat
  {
    if n == 0 then 0 else 2 * MaxAccumulate(n - 1) + 0xFFFF
  }

  lemma {:induction false} MaxAccumulateMonotone(m: nat, n: nat)
    requires m <= n
    ensures MaxAccumulate(m) <= MaxAccumulate(n)
    decreases n - m
  {
    if m < n {
      MaxAccumulateMonotone(m + 1, n);
    }
  }

  lemma {:induction false} AccumulateBound(data: seq<byte>, n: nat)
    requires 2 * n <= |data|
    ensures Accumulate(data, n) <= MaxAccumulate(n)
  {
    if n > 0 {
      AccumulateBound(data, n - 1);
    }
  }

  lemma MaxAccumulateOfTen()
    ensures MaxAccumulate(10) == 67042305
  {
  }

  /** The `u32` accumulator never wraps over 10 words: it stays below 2^26,
      so the source's fold equals the unbounded one. */
  lemma {:induction false} AccumulatorNeverWraps(data: seq<byte>, n: nat)
    requires 2 * n <= |data| && n <= WordCount
    ensures Accumulate32(data, n) == Accumulate(data, n)
    ensures Accumulate(data, n) < 0x400_0000
  {
    MaxAccumulateOfTen();
    AccumulateBound(data, n);
    MaxAccumulateMonotone(n, WordCount);
    if n > 0 {
      AccumulatorNeverWraps(data, n - 1);
    }
  }

  /** Folds an accumulator into 15 bits: `((acc & 0x7FFF) + (acc >> 15)) & 0x7FFF`.
      For a natural number, `& 0x7FFF` is `% 0x8000` and `>> 15` is `/ 0x8000`. */
  function Fold15(acc: nat): (c: nat)
    ensures c < 0x8000
    ensures acc < 0x8000 ==> c == acc
  {
    (acc % 0x8000 + acc / 0x8000) % 0x8000
  }

  /** The checksum of a 20-byte span, defined on the unbounded accumulator. */
  function ChecksumOf(data: seq<byte>): (c: nat)
    requires |data| == 2 * WordCount
    ensures c < 0x8000
  {
    Fold15(Accumulate(data, |data| / 2))
  }

  /** `calc_checksum` as written: a loop over 10 words in `u32` arithmetic.
      It computes the checksum, and the result fits in 15 bits. */
  method CalcChecksum(data: seq<byte>) returns (checkSum: nat)
    requires |data| == 2 * WordCount
    ensures checkSum == ChecksumOf(data)
    ensures checkSum < 0x8000
  {
    var chk32: nat := 0;
    for i := 0 to WordCount
      invariant chk32 == Accumulate32(data, i)
    {
      var lsb := data[2 * i];
      var msb := data[2 * i + 1];
      var val := LittleEndian16(lsb, msb);
      chk32 := ShiftAdd32(chk32, val);
    }
    AccumulatorNeverWraps(data, WordCount);
    checkSum := Fold15(chk32);
  }
}
