/** Per-cell distinct counters (pkg/engine/hll.go). */
module HyperLogLogs {
  import opened Words
  import opened Hashes

  const REGISTERS: nat := 64

  /** The number of bits needed to write x. */
  function BitLength(x: nat): nat {
    if x == 0 then 0 else 1 + BitLength(x / 2)
  }

  function Power2(k: nat): (p: nat)
    ensures p >= 1
  {
    if k == 0 then 1 else 2 * Power2(k - 1)
  }

  lemma {:induction false} BitLengthBounds(x: nat, low: nat, high: nat)
    requires Power2(low) <= x + 1 && x < Power2(high)
    ensures low <= BitLength(x) <= high
  {
    if x == 0 {
    } else {
      if low == 0 {
        BitLengthBounds(x / 2, 0, high - 1);
      } else {
        BitLengthBounds(x / 2, low - 1, high - 1);
      }
    }
  }

  lemma Powers()
    ensures Power2(6) == 64 && Power2(32) == TWO32
  {
    assert Power2(8) == 256;
    assert Power2(16) == 0x1_0000;
    assert Power2(24) == 0x100_0000;
    assert Power2(32) == TWO32;
  }

  function LeadingZeros32(x: UInt32): (n: nat)
    requires x >= 0x3f
    ensures n <= 26
  {
    Powers(); BitLengthBounds(x, 6, 32);
    32 - BitLength(x)
  }

  /** The register that an id falls into: the top six bits of its hash. */
  function Index(id: UInt32): (i: nat)
    ensures i < REGISTERS
  {
    Mul32(id, HASH2) / 0x400_0000
  }

  lemma LowBitsFree(hash: UInt32)
    ensures hash * 64 % TWO32 + 0x3f < TWO32
  {
  }

  /** One more than the number of leading zeros of the rest of the hash; (hash << 6) | 0x3f has its six
      low bits set, which bounds the rank. */
  function Rank(id: UInt32): (r: UInt8)
    ensures 1 <= r <= 27
  {
    var remaining := Mul32(id, HASH2) * 64 % TWO32 + 0x3f;
    LowBitsFree(Mul32(id, HASH2));
    LeadingZeros32(remaining) + 1
  }

  lemma {:induction false} BitLengthExact(x: nat)
    ensures x < Power2(BitLength(x))
    ensures x > 0 ==> BitLength(x) > 0 && Power2(BitLength(x) - 1) <= x
  {
    if x == 0 {
    } else {
      BitLengthExact(x / 2);
    }
  }

  lemma OneMoreBit(x: nat)
    ensures BitLength(2 * x + 1) == BitLength(x) + 1
  {
  }

  lemma LowBits(h: nat)
    ensures BitLength(64 * h + 0x3f) == BitLength(h) + 6
  {
    hide BitLength;
    OneMoreBit(h);
    OneMoreBit(2 * h + 1);
    OneMoreBit(4 * h + 3);
    OneMoreBit(8 * h + 7);
    OneMoreBit(16 * h + 0xf);
    OneMoreBit(32 * h + 0x1f);
  }

  lemma ShiftDropsTopBits(hash: UInt32)
    ensures hash * 64 % TWO32 == 64 * (hash % 0x400_0000)
  {
    var q, h := hash / 0x400_0000, hash % 0x400_0000;
    assert hash * 64 == TWO32 * q + 64 * h;
  }

  /** The hash is its register, the top six bits, and the rest, whose leading zeros among 26 bits make up the rank. */
  lemma HashSplits(id: UInt32)
    ensures
      var hash := id * 0xc2b2ae35 % 0x1_0000_0000;
      var rest := hash % 0x400_0000;
      && hash == Index(id) * 0x400_0000 + rest
      && (Rank(id) == 27 <==> rest == 0)
      && (rest > 0 ==> Rank(id) <= 26 && Power2(26 - Rank(id)) <= rest < Power2(27 - Rank(id)))
  {
    var rest := Mul32(id, HASH2) % 0x400_0000;
    ShiftDropsTopBits(Mul32(id, HASH2));
    LowBits(rest);
    BitLengthExact(rest);
  }

  /** Register i after a sequence of adds to a zero sketch. */
  function Register(adds: seq<UInt32>, i: nat): (v: UInt8)
    ensures v <= 27
  {
    if adds == [] then 0
    else
      var before := Register(adds[..|adds| - 1], i);
      var last := adds[|adds| - 1];
      if Index(last) == i && Rank(last) > before then Rank(last) else before
  }

  /** 1 / 2^v. */
  function Weight(v: nat): (w: real)
    ensures 0.0 < w <= 1.0
  {
    if v == 0 then 1.0 else Weight(v - 1) / 2.0
  }

  function WeightSum(registers: seq<UInt8>): (w: real)
    ensures registers != [] ==> w > 0.0
    ensures w >= 0.0
  {
    if registers == [] then 0.0
    else WeightSum(registers[..|registers| - 1]) + Weight(registers[|registers| - 1])
  }

  /** The estimate that the registers give, in exact arithmetic. */
  function EstimateOf(registers: seq<UInt8>): nat
    requires registers != []
  {
    var estimate := 0.709 * (REGISTERS * REGISTERS) as real / WeightSum(registers);
    assert estimate >= 0.0;
    estimate.Floor
  }

  function RegistersOf(adds: seq<UInt32>): (r: seq<UInt8>)
    ensures |r| == REGISTERS
  {
    seq(REGISTERS, i requires 0 <= i < REGISTERS => Register(adds, i))
  }

  class HyperLogLog {
    const registers: array<UInt8>
    ghost var adds: seq<UInt32>  // since the last reset

    ghost predicate Valid()
      reads this, registers
    {
      && registers.Length == REGISTERS
      && forall i: nat :: i < REGISTERS ==> registers[i] == Register(adds, i)
    }

    constructor ()
      ensures Valid() && fresh(registers) && adds == []
    {
      registers := new UInt8[REGISTERS](_ => 0);
      adds := [];
    }

    method Add(id: UInt32)
      requires Valid()
      modifies this, registers
      ensures Valid() && adds == old(adds) + [id]
    {
      hide Rank, Index, Mul32;
      var idx := Index(id);
      var val := Rank(id);
      ghost var before := adds;
      adds := adds + [id];
      assert adds[..|adds| - 1] == before;
      if val > registers[idx] {
        registers[idx] := val;
      }
    }

    method Estimate() returns (estimate: nat)
      requires Valid()
      ensures estimate == EstimateOf(RegistersOf(adds))
    {
      hide Weight;
      var sum := 0.0;
      var i := 0;
      while i < registers.Length
        invariant 0 <= i <= registers.Length
        invariant sum == WeightSum(registers[..i])
      {
        sum := sum + Weight(registers[i]);
        assert registers[..i + 1][..i] == registers[..i];
        i := i + 1;
      }
      assert registers[..i] == RegistersOf(adds);
      estimate := (0.709 * (REGISTERS * REGISTERS) as real / sum).Floor;
    }

    method Reset()
      requires Valid()
      modifies this, registers
      ensures Valid() && adds == []
    {
      var i := 0;
      while i < REGISTERS
        invariant 0 <= i <= REGISTERS
        invariant forall j :: 0 <= j < i ==> registers[j] == 0
      {
        registers[i] := 0;
        i := i + 1;
      }
      adds := [];
    }
  }

  // ----- what the registers hold -----

  /** A register is the largest rank among the ids that fall into it, and 0 if there are none. */
  lemma {:induction false} RegisterIsMaximum(adds: seq<UInt32>, i: nat)
    ensures forall id :: id in adds && Index(id) == i ==> Rank(id) <= Register(adds, i)
    ensures Register(adds, i) > 0 ==> exists id :: id in adds && Index(id) == i && Rank(id) == Register(adds, i)
  {
    hide Rank, Index;
    if adds == [] {
    } else {
      var init, last := adds[..|adds| - 1], adds[|adds| - 1];
      RegisterIsMaximum(init, i);
      assert forall id :: id in adds <==> id in init || id == last;
    }
  }

  /** The registers grow with the set of ids. */
  lemma RegisterMonotone(adds: seq<UInt32>, more: seq<UInt32>, i: nat)
    requires forall id :: id in adds ==> id in more
    ensures Register(adds, i) <= Register(more, i)
  {
    hide Rank, Index, Register;
    RegisterIsMaximum(adds, i);
    RegisterIsMaximum(more, i);
  }

  /** The registers depend only on the set of ids: order and repetition do not matter. */
  lemma RegisterOfSet(adds: seq<UInt32>, adds': seq<UInt32>, i: nat)
    requires forall id :: id in adds <==> id in adds'
    ensures Register(adds, i) == Register(adds', i)
  {
    RegisterMonotone(adds, adds', i);
    RegisterMonotone(adds', adds, i);
  }

  lemma {:induction false} WeightAntitone(u: nat, v: nat)
    requires u <= v
    ensures Weight(v) <= Weight(u)
  {
    if u < v {
      WeightAntitone(u, v - 1);
    }
  }

  lemma {:induction false} WeightSumAntitone(r: seq<UInt8>, r': seq<UInt8>)
    requires |r| == |r'| && forall i :: 0 <= i < |r| ==> r[i] <= r'[i]
    ensures WeightSum(r') <= WeightSum(r)
  {
    hide Weight;
    if r == [] {
    } else {
      WeightSumAntitone(r[..|r| - 1], r'[..|r| - 1]);
      WeightAntitone(r[|r| - 1], r'[|r| - 1]);
    }
  }

  lemma QuotientAntitone(c: real, x: real, y: real)
    requires c >= 0.0 && 0.0 < x <= y
    ensures c / y <= c / x
  {
  }

  /** The estimate is monotone in the set of ids added, so counting an id twice never changes it. */
  lemma EstimateMonotone(adds: seq<UInt32>, more: seq<UInt32>)
    requires forall id :: id in adds ==> id in more
    ensures EstimateOf(RegistersOf(adds)) <= EstimateOf(RegistersOf(more))
  {
    hide Register, WeightSum;
    forall i | 0 <= i < REGISTERS ensures RegistersOf(adds)[i] <= RegistersOf(more)[i] {
      RegisterMonotone(adds, more, i);
    }
    WeightSumAntitone(RegistersOf(adds), RegistersOf(more));
    QuotientAntitone(0.709 * (REGISTERS * REGISTERS) as real,
                     WeightSum(RegistersOf(more)), WeightSum(RegistersOf(adds)));
  }

  // ----- the estimate in numbers -----

  lemma {:induction false} WeightIsPower(v: nat)
    ensures Weight(v) * Power2(v) as real == 1.0
  {
    if v == 0 {
    } else {
      WeightIsPower(v - 1);
    }
  }

  lemma {:induction false} WeightSumOfEqual(registers: seq<UInt8>, v: UInt8)
    requires forall i :: 0 <= i < |registers| ==> registers[i] == v
    ensures WeightSum(registers) == |registers| as real * Weight(v)
  {
    hide Weight;
    if registers == [] {
    } else {
      WeightSumOfEqual(registers[..|registers| - 1], v);
    }
  }

  lemma QuotientOfEqual(sum: real, weight: real, power: real)
    requires weight * power == 1.0 && sum == 64.0 * weight && sum != 0.0
    ensures 0.709 * 4096.0 / sum == 45.376 * power
  {
    assert 45.376 * power * sum == 45.376 * 64.0 * (weight * power);
  }

  /** Registers that all hold v, as 0 in a new sketch, estimate 45.376 times 2^v. */
  lemma EstimateOfEqual(registers: seq<UInt8>, v: UInt8)
    requires |registers| == 64 && forall i :: 0 <= i < |registers| ==> registers[i] == v
    ensures EstimateOf(registers) == 45376 * Power2(v) / 1000
  {
    WeightIsPower(v);
    WeightSumOfEqual(registers, v);
    QuotientOfEqual(WeightSum(registers), Weight(v), Power2(v) as real);
    hide WeightSum, Weight, Power2;
  }

  /** Sum of 2^(27 - v) over the registers. */
  function Shares(registers: seq<UInt8>): (n: nat)
    requires forall i :: 0 <= i < |registers| ==> registers[i] <= 27
    ensures registers != [] ==> n > 0
  {
    if registers == [] then 0
    else Shares(registers[..|registers| - 1]) + Power2(27 - registers[|registers| - 1])
  }

  lemma {:induction false} WeightIsShare(v: nat, k: nat)
    requires v <= k
    ensures Weight(v) * Power2(k) as real == Power2(k - v) as real
  {
    if v == 0 {
    } else {
      WeightIsShare(v - 1, k);
    }
  }

  lemma {:induction false} WeightSumIsShares(registers: seq<UInt8>)
    requires forall i :: 0 <= i < |registers| ==> registers[i] <= 27
    ensures WeightSum(registers) * Power2(27) as real == Shares(registers) as real
  {
    hide Weight, Power2;
    if registers == [] {
    } else {
      WeightSumIsShares(registers[..|registers| - 1]);
      WeightIsShare(registers[|registers| - 1], 27);
    }
  }

  lemma QuotientBelowOne(y: real, q: nat, r: nat)
    requires r < q && y * q as real == r as real
    ensures 0.0 <= y < 1.0
  {
  }

  lemma FloorOfQuotient(x: real, p: nat, q: nat)
    requires q > 0 && x * q as real == p as real
    ensures x.Floor == p / q
  {
    var k := p / q;
    var r := p % q;
    assert p == k * q + r;
    assert (x - k as real) * q as real == r as real;
    QuotientBelowOne(x - k as real, q, r);
  }

  lemma QuotientOfShares(sum: real, power: nat, shares: nat)
    requires sum > 0.0 && shares > 0 && sum * power as real == shares as real
    ensures (0.709 * 4096.0 / sum).Floor == 2904064 * power / (1000 * shares)
  {
    var x := 0.709 * 4096.0 / sum;
    assert x * sum == 2904.064;
    assert x * shares as real == 2904.064 * power as real by {
      assert x * (sum * power as real) == x * sum * power as real;
    }
    FloorOfQuotient(x, 2904064 * power, 1000 * shares);
  }

  /** In whole numbers, for any registers that ranks can give. */
  lemma EstimateInIntegers(registers: seq<UInt8>)
    requires |registers| == 64 && forall i :: 0 <= i < |registers| ==> registers[i] <= 27
    ensures EstimateOf(registers) == 2904064 * Power2(27) / (1000 * Shares(registers))
  {
    hide WeightSum, Power2;
    WeightSumIsShares(registers);
    QuotientOfShares(WeightSum(registers), Power2(27), Shares(registers));
  }
}
