/** Word-level operators of 64-bit machine integers, written on the naturals. */
module MachineWords {

  const TWO63: nat := 0x8000_0000_0000_0000
  const TWO64: nat := 0x1_0000_0000_0000_0000

  function Pow2(k: nat): (r: nat)
    ensures r >= 1
  {
    if k == 0 then 1 else 2 * Pow2(k - 1)
  }

  function BitOr(a: nat, b: nat): nat
    decreases a + b
  {
    if a == 0 && b == 0 then 0
    else 2 * BitOr(a / 2, b / 2) + if a % 2 == 1 || b % 2 == 1 then 1 else 0
  }

  function BitAnd(a: nat, b: nat): nat
    decreases a + b
  {
    if a == 0 && b == 0 then 0
    else 2 * BitAnd(a / 2, b / 2) + if a % 2 == 1 && b % 2 == 1 then 1 else 0
  }

  /** `x << k` on u64: bits pushed past bit 63 are lost. */
  function ShiftLeft(x: nat, k: nat): nat {
    (x * Pow2(k)) % TWO64
  }

  function ShiftRight(x: nat, k: nat): nat {
    if k == 0 then x else ShiftRight(x / 2, k - 1)
  }

  /** `x as u64` for a 64-bit integer of either sign. */
  function AsU64(x: int): nat {
    x % TWO64
  }

  /** `x as i64` for a u64. */
  function AsI64(x: nat): int {
    if x < TWO63 then x else x - TWO64
  }

  lemma {:induction false} OrWithZero(a: nat)
    ensures BitOr(a, 0) == a
  {
    if a > 0 { OrWithZero(a / 2); }
  }

  lemma {:induction false} OrOfDisjointFields(hi: nat, lo: nat, k: nat)
    requires lo < Pow2(k)
    ensures BitOr(hi * Pow2(k), lo) == hi * Pow2(k) + lo
  {
    if k == 0 {
      OrWithZero(hi);
    } else {
      var p := Pow2(k - 1);
      OrOfDisjointFields(hi, lo / 2, k - 1);
      Double(hi, p);
      if hi * Pow2(k) != 0 || lo != 0 {
        assert (hi * Pow2(k)) / 2 == hi * p;
      }
    }
  }

  lemma {:induction false} ShiftOutField(hi: nat, lo: nat, k: nat)
    requires lo < Pow2(k)
    ensures ShiftRight(hi * Pow2(k) + lo, k) == hi
  {
    if k > 0 {
      var p := Pow2(k - 1);
      Double(hi, p);
      ShiftOutField(hi, lo / 2, k - 1);
      assert (hi * Pow2(k) + lo) / 2 == hi * p + lo / 2;
    }
  }

  lemma Double(x: nat, y: nat)
    ensures x * (2 * y) == 2 * (x * y)
  {
  }

  lemma {:induction false} AndWithMask(x: nat, k: nat)
    ensures BitAnd(x, Pow2(k) - 1) == x % Pow2(k)
  {
    if k == 0 {
      AndWithZero(x);
    } else {
      var p := Pow2(k - 1);
      AndWithMask(x / 2, k - 1);
      assert (2 * p - 1) / 2 == p - 1;
      HalveModulo(x, p);
    }
  }

  lemma {:induction false} AndWithZero(x: nat)
    ensures BitAnd(x, 0) == 0
  {
    if x > 0 { AndWithZero(x / 2); }
  }

  lemma HalveModulo(x: nat, p: nat)
    requires p > 0
    ensures x % (2 * p) == 2 * ((x / 2) % p) + x % 2
  {
    var q, r := (x / 2) / p, (x / 2) % p;
    assert x == (2 * p) * q + (2 * r + x % 2) by {
      assert x / 2 == p * q + r;
      assert x == 2 * (x / 2) + x % 2;
      Double(q, p);
    }
    ModuloUnique(x, 2 * p, q, 2 * r + x % 2);
  }

  lemma AtLeastOneMore(d: nat, big: nat, small: nat)
    requires big > small
    ensures d * big >= d * small + d
  {
    assert d * big == d * small + d * (big - small);
    assert d * (big - small) == d + d * (big - small - 1);
  }

  lemma ModuloUnique(x: nat, d: nat, q: nat, r: nat)
    requires 0 <= r < d && x == d * q + r
    ensures x / d == q && x % d == r
  {
    var q', r' := x / d, x % d;
    assert x == d * q' + r';
    if q > q' {
      AtLeastOneMore(d, q, q');
    } else if q < q' {
      AtLeastOneMore(d, q', q);
    }
  }
}

/**
 The 64-bit identifier layout: 41 bits of milliseconds since a custom epoch,
 10 bits of worker id, 12 bits of sequence number.
 */
module SnowflakeId {
  import opened MachineWords

  const CUSTOM_EPOCH: nat := 1_704_067_200_000
  const WORKER_ID_BITS: nat := 10
  const SEQUENCE_BITS: nat := 12
  const MAX_WORKER_ID: nat := 1023
  const MAX_SEQUENCE: nat := 4095
  const WORKER_ID_SHIFT: nat := SEQUENCE_BITS
  const TIMESTAMP_SHIFT: nat := SEQUENCE_BITS + WORKER_ID_BITS
  const TIMESTAMP_RANGE: nat := 0x200_0000_0000

  /** The instants a 41-bit timestamp field can hold. */
  predicate Representable(timestamp: int) {
    CUSTOM_EPOCH <= timestamp < CUSTOM_EPOCH + TIMESTAMP_RANGE
  }

  function ComposeId(timestamp: int, workerId: nat, sequence: nat): int {
    var tsPart := ShiftLeft((AsU64(timestamp) - CUSTOM_EPOCH) % TWO64, TIMESTAMP_SHIFT);
    var workerPart := ShiftLeft(workerId, WORKER_ID_SHIFT);
    AsI64(BitOr(BitOr(tsPart, workerPart), sequence))
  }

  lemma FieldWidths()
    ensures Pow2(12) == 4096 && Pow2(10) == 1024 && Pow2(22) == 0x40_0000
    ensures Pow2(22) == 1024 * Pow2(12)
  {
    assert Pow2(2) == 4;
    assert Pow2(4) == 16;
    assert Pow2(6) == 64;
    assert Pow2(8) == 256;
    assert Pow2(10) == 1024;
    assert Pow2(12) == 4096;
    assert Pow2(14) == 4 * 4096;
    assert Pow2(16) == 16 * 4096;
    assert Pow2(18) == 64 * 4096;
    assert Pow2(20) == 256 * 4096;
  }

  lemma WrappedDifference(x: int, y: nat)
    ensures (AsU64(x) - y) % TWO64 == (x - y) % TWO64
  {
    var q := x / TWO64;
    assert x == TWO64 * q + AsU64(x);
  }

  /** Of a u64 shifted left by 22, the low 42 bits survive. */
  lemma SurvivingBits(x: int)
    ensures ((x % TWO64) * 0x40_0000) % TWO64 == (x % 0x400_0000_0000) * 0x40_0000
  {
    var t := x % TWO64;
    var hi, k := t % 0x400_0000_0000, t / 0x400_0000_0000;
    assert t == 0x400_0000_0000 * k + hi;
    assert t * 0x40_0000 == TWO64 * k + hi * 0x40_0000;
    ModuloUnique(t * 0x40_0000, TWO64, k, hi * 0x40_0000);
    assert x % 0x400_0000_0000 == hi by {
      var q := x / TWO64;
      assert x == 0x400_0000_0000 * (0x40_0000 * q + k) + hi;
    }
  }

  /** Disjoint fields: OR-ing them is adding them. */
  lemma FieldsAdd(hi: nat, workerId: nat, sequence: nat)
    requires workerId <= MAX_WORKER_ID && sequence <= MAX_SEQUENCE
    ensures BitOr(BitOr(hi * 0x40_0000, workerId * 4096), sequence) == hi * 0x40_0000 + workerId * 4096 + sequence
  {
    FieldWidths();
    OrOfDisjointFields(hi, workerId * 4096, 22);
    OrOfDisjointFields(hi * 1024 + workerId, sequence, 12);
  }

  lemma WorkerPart(workerId: nat)
    requires workerId <= MAX_WORKER_ID
    ensures ShiftLeft(workerId, WORKER_ID_SHIFT) == workerId * 4096
  {
    FieldWidths();
  }

  lemma TimestampPart(timestamp: int)
    ensures ShiftLeft((AsU64(timestamp) - CUSTOM_EPOCH) % TWO64, TIMESTAMP_SHIFT)
         == ((timestamp - CUSTOM_EPOCH) % 0x400_0000_0000) * 0x40_0000
  {
    FieldWidths();
    WrappedDifference(timestamp, CUSTOM_EPOCH);
    SurvivingBits(timestamp - CUSTOM_EPOCH);
  }

  /** Whatever the timestamp, the three fields do not disturb one another. */
  lemma ComposeRaw(timestamp: int, workerId: nat, sequence: nat)
    requires workerId <= MAX_WORKER_ID && sequence <= MAX_SEQUENCE
    ensures var hi := (timestamp - CUSTOM_EPOCH) % 0x400_0000_0000;
            ComposeId(timestamp, workerId, sequence) == AsI64(hi * 0x40_0000 + workerId * 4096 + sequence)
  {
    hide BitOr;
    hide ShiftLeft;
    hide AsI64;
    TimestampPart(timestamp);
    WorkerPart(workerId);
    FieldsAdd((timestamp - CUSTOM_EPOCH) % 0x400_0000_0000, workerId, sequence);
  }

  /** Inside the field bounds an id is the positional number its fields spell. */
  lemma ComposeValue(timestamp: int, workerId: nat, sequence: nat)
    requires Representable(timestamp) && workerId <= MAX_WORKER_ID && sequence <= MAX_SEQUENCE
    ensures ComposeId(timestamp, workerId, sequence)
         == (timestamp - CUSTOM_EPOCH) * 0x40_0000 + workerId * 4096 + sequence
  {
    ComposeRaw(timestamp, workerId, sequence);
    var hi := timestamp - CUSTOM_EPOCH;
    assert hi % 0x400_0000_0000 == hi;
    assert hi * 0x40_0000 + workerId * 4096 + sequence < TWO63;
  }

  /** Ids count milliseconds from 2024-01-01T00:00:00Z. */
  lemma IdsCountFromTheEpoch(ticks: nat, workerId: nat, sequence: nat)
    requires ticks < 0x200_0000_0000 && workerId <= 1023 && sequence <= 4095
    ensures ComposeId(1_704_067_200_000 + ticks, workerId, sequence) == ticks * 0x40_0000 + workerId * 4096 + sequence
  {
    ComposeValue(1_704_067_200_000 + ticks, workerId, sequence);
    hide ComposeId;
  }

  /**
   The sign bit stays 0 exactly while the clock, taken modulo the 42 bits that
   survive the shift, is in its first half.
   */
  lemma NonNegativeExactly(timestamp: int, workerId: nat, sequence: nat)
    requires workerId <= MAX_WORKER_ID && sequence <= MAX_SEQUENCE
    ensures ComposeId(timestamp, workerId, sequence) >= 0
       <==> (timestamp - CUSTOM_EPOCH) % (2 * TIMESTAMP_RANGE) < TIMESTAMP_RANGE
  {
    ComposeRaw(timestamp, workerId, sequence);
  }

  lemma TicksOfNumber(ticks: nat, workerId: nat, sequence: nat)
    requires workerId <= MAX_WORKER_ID && sequence <= MAX_SEQUENCE
    ensures ShiftRight(ticks * 0x40_0000 + workerId * 4096 + sequence, TIMESTAMP_SHIFT) == ticks
  {
    FieldWidths();
    assert TIMESTAMP_SHIFT == 22 && WORKER_ID_SHIFT == 12 && MAX_WORKER_ID == 1023 && MAX_SEQUENCE == 4095;
    hide *;
    ShiftOutField(ticks, workerId * 4096 + sequence, TIMESTAMP_SHIFT);
  }

  lemma WorkerOfNumber(ticks: nat, workerId: nat, sequence: nat)
    requires workerId <= MAX_WORKER_ID && sequence <= MAX_SEQUENCE
    ensures BitAnd(ShiftRight(ticks * 0x40_0000 + workerId * 4096 + sequence, WORKER_ID_SHIFT), MAX_WORKER_ID) == workerId
  {
    FieldWidths();
    assert TIMESTAMP_SHIFT == 22 && WORKER_ID_SHIFT == 12 && MAX_WORKER_ID == 1023 && MAX_SEQUENCE == 4095;
    hide *;
    var upper := ticks * 1024 + workerId;
    assert ticks * 0x40_0000 + workerId * 4096 + sequence == upper * 4096 + sequence;
    ShiftOutField(upper, sequence, WORKER_ID_SHIFT);
    AndWithMask(upper, 10);
    LowField(ticks, 1024, workerId);
  }

  lemma SequenceOfNumber(ticks: nat, workerId: nat, sequence: nat)
    requires workerId <= MAX_WORKER_ID && sequence <= MAX_SEQUENCE
    ensures BitAnd(ticks * 0x40_0000 + workerId * 4096 + sequence, MAX_SEQUENCE) == sequence
  {
    FieldWidths();
    assert TIMESTAMP_SHIFT == 22 && WORKER_ID_SHIFT == 12 && MAX_WORKER_ID == 1023 && MAX_SEQUENCE == 4095;
    hide *;
    var upper := ticks * 1024 + workerId;
    assert ticks * 0x40_0000 + workerId * 4096 + sequence == upper * 4096 + sequence;
    AndWithMask(upper * 4096 + sequence, 12);
    LowField(upper, 4096, sequence);
  }

  lemma LowField(upper: nat, width: nat, low: nat)
    requires low < width
    ensures (upper * width + low) % width == low
  {
    ModuloUnique(upper * width + low, width, upper, low);
  }

  /** Every field can be read back by a shift and a mask. */
  lemma FieldsRecoverable(timestamp: int, workerId: nat, sequence: nat)
    requires Representable(timestamp) && workerId <= MAX_WORKER_ID && sequence <= MAX_SEQUENCE
    ensures var id := ComposeId(timestamp, workerId, sequence);
            && id >= 0
            && ShiftRight(id, TIMESTAMP_SHIFT) + CUSTOM_EPOCH == timestamp
            && BitAnd(ShiftRight(id, WORKER_ID_SHIFT), MAX_WORKER_ID) == workerId
            && BitAnd(id, MAX_SEQUENCE) == sequence
  {
    hide ComposeId;
    hide BitAnd;
    ComposeValue(timestamp, workerId, sequence);
    TicksOfNumber(timestamp - CUSTOM_EPOCH, workerId, sequence);
    WorkerOfNumber(timestamp - CUSTOM_EPOCH, workerId, sequence);
    SequenceOfNumber(timestamp - CUSTOM_EPOCH, workerId, sequence);
  }

  /** Numeric order on ids is lexicographic order on (timestamp, worker, sequence). */
  lemma OrderIsLexicographic(ts1: int, w1: nat, s1: nat, ts2: int, w2: nat, s2: nat)
    requires Representable(ts1) && w1 <= MAX_WORKER_ID && s1 <= MAX_SEQUENCE
    requires Representable(ts2) && w2 <= MAX_WORKER_ID && s2 <= MAX_SEQUENCE
    ensures ComposeId(ts1, w1, s1) < ComposeId(ts2, w2, s2)
       <==> ts1 < ts2 || (ts1 == ts2 && (w1 < w2 || (w1 == w2 && s1 < s2)))
    ensures ComposeId(ts1, w1, s1) == ComposeId(ts2, w2, s2)
       <==> ts1 == ts2 && w1 == w2 && s1 == s2
  {
    ComposeValue(ts1, w1, s1);
    ComposeValue(ts2, w2, s2);
  }
}
