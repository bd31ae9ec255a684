/** The hash functions of `pet_hashtable.c`, and the mixing step that follows the caller's function. */
module HashFunctions {
  import opened Words

  // ---------- The mixing steps of `do_hash`, on 32-bit words ----------

  /** `~x`. */
  function Not(x: U32): U32 { TWO_TO_32 - 1 - x }

  /** `x << k`, with `power` two to the `k`. */
  function ShiftLeft(x: U32, power: nat): U32 { (x * power) % TWO_TO_32 }

  function Plus(x: U32, y: U32): U32 { (x + y) % TWO_TO_32 }

  function TurnBits(b: bv32, k: nat): bv32
    requires k < 32
  {
    b ^ b.RotateRight(k)
  }

  /** A word xor its rotation to the right by `k`. */
  function Turned(x: U32, k: nat): U32
    requires k < 32
  {
    TurnBits(x as bv32, k) as U32
  }

  function Xor14(b: bv32): (r: bv32)
    ensures r == TurnBits(b, 14)
  {
    b ^ ((b >> 14) | (b << 18))
  }

  function Xor10(b: bv32): (r: bv32)
    ensures r == TurnBits(b, 10)
  {
    b ^ ((b >> 10) | (b << 22))
  }

  function MixAdd9(i: U32): (r: U32)
    ensures r == (-511 * i - 1) % TWO_TO_32
  {
    MinusMultiple(i);
    Plus(i, Not(ShiftLeft(i, 512)))
  }

  lemma MinusMultiple(i: U32)
    ensures Plus(i, Not(ShiftLeft(i, 512))) == (-511 * i - 1) % TWO_TO_32
  {
    var q := i * 512 / TWO_TO_32;
    assert ShiftLeft(i, 512) == i * 512 - q * TWO_TO_32;
    SameRemainder(-511 * i - 1, q + 1);
  }

  lemma SameRemainder(x: int, k: int)
    ensures (x + k * TWO_TO_32) % TWO_TO_32 == x % TWO_TO_32
  {
    var q, r := x / TWO_TO_32, x % TWO_TO_32;
    RemainderIs(x + k * TWO_TO_32, q + k, r);
  }

  function MixXor14(i: U32): (r: U32)
    ensures r == Turned(i, 14)
  {
    Xor14(i as bv32) as U32
  }

  function MixAdd4(i: U32): (r: U32)
    ensures r == (17 * i) % TWO_TO_32
  {
    var q := i * 16 / TWO_TO_32;
    assert ShiftLeft(i, 16) == i * 16 - q * TWO_TO_32;
    SameRemainder(17 * i, -q);
    Plus(i, ShiftLeft(i, 16))
  }

  function MixXor10(i: U32): (r: U32)
    ensures r == Turned(i, 10)
  {
    Xor10(i as bv32) as U32
  }

  /** `do_hash` after the call of `hash_fn`. */
  function DoHash(h: U32): U32 {
    MixXor10(MixAdd4(MixXor14(MixAdd9(h))))
  }

  /** What it comes to: a multiplication and a rotation, twice. */
  lemma DoHashIs(h: U32)
    ensures DoHash(h) == Turned((17 * Turned((-511 * h - 1) % TWO_TO_32, 14)) % TWO_TO_32, 10)
  {
    hide MixAdd9, MixXor14, MixAdd4, MixXor10, Turned;
  }

  lemma BackAndForth(a: bv32)
    ensures (a as U32) as bv32 == a
  {
  }

  lemma Value(h: U32, a: bv32, b: bv32, c: bv32, d: bv32)
    requires a as int == (-511 * h - 1) % TWO_TO_32 && c as int == (17 * b as int) % TWO_TO_32
    requires TurnBits(a, 14) == b && TurnBits(c, 10) == d
    ensures DoHash(h) == d as U32
  {
    hide TurnBits;
    DoHashIs(h);
    BackAndForth(a);
    BackAndForth(c);
  }

  /** The mixing is not injective: these two results of `hash_fn` become the same hash. */
  lemma DoHashCollides()
    ensures DoHash(0) == DoHash(0x0804_0201) == 0
  {
    hide DoHash;
    Value(0, 0xffff_ffff, 0, 0, 0);
    Value(0x0804_0201, 0, 0, 0, 0);
  }

  /** Its value at some other arguments. */
  lemma DoHashValues()
    ensures DoHash(1) == 0xfc5d_cee7 && DoHash(2) == 0xf8fb_9dce
    ensures DoHash(0x1234_5678) == 0xf778_ba7b && DoHash(0xffff_ffff) == 0xf0d9_ffd6
  {
    hide DoHash;
    Value(0x1, 0xfffffe00, 0x7fc01ff, 0x87bc21ef, 0xfc5dcee7);
    Value(0x2, 0xfffffc01, 0xff803fe, 0xf7843de, 0xf8fb9dce);
    Value(0x12345678, 0xa9876677, 0x3059c06a, 0x35f5c70a, 0xf778ba7b);
    Value(0xffffffff, 0x1fe, 0x7f801fe, 0x877821de, 0xf0d9ffd6);
  }

  const GOLDEN_RATIO_PRIME_32: int := 0x9e370001
  const GOLDEN_RATIO_PRIME_64: int := 0x9e37fffffffc0001
  const GOLDEN_RATIO_INVERSE_32: int := 0x61c90001

  /** `pet_hash_u32`: the argument is truncated to 32 bits and multiplied. */
  function HashU32(val: Word): U32 {
    ((val % TWO_TO_32) * GOLDEN_RATIO_PRIME_32) % TWO_TO_32
  }

  /** `__u32_eq_fn`, the equality that the example table uses with `pet_hash_u32`. */
  predicate EqU32(a: Word, b: Word) {
    a % TWO_TO_32 == b % TWO_TO_32
  }

  /** The multiplier has an inverse, so the product gives the low 32 bits back. */
  lemma HashU32Invertible(val: Word)
    ensures (HashU32(val) * GOLDEN_RATIO_INVERSE_32) % TWO_TO_32 == val % TWO_TO_32
  {
    var low := val % TWO_TO_32;
    var product := low * GOLDEN_RATIO_PRIME_32;
    var q := product / TWO_TO_32;
    assert product == q * TWO_TO_32 + HashU32(val);
    var inverse := (GOLDEN_RATIO_PRIME_32 * GOLDEN_RATIO_INVERSE_32) / TWO_TO_32;
    assert GOLDEN_RATIO_PRIME_32 * GOLDEN_RATIO_INVERSE_32 == inverse * TWO_TO_32 + 1;
    var carry := low * inverse - q * GOLDEN_RATIO_INVERSE_32;
    assert HashU32(val) * GOLDEN_RATIO_INVERSE_32 == carry * TWO_TO_32 + low;
    RemainderIs(HashU32(val) * GOLDEN_RATIO_INVERSE_32, carry, low);
  }

  lemma RemainderIs(x: int, q: int, r: int)
    requires x == q * TWO_TO_32 + r && 0 <= r < TWO_TO_32
    ensures x % TWO_TO_32 == r
  {
  }

  /** Equal keys, as the example compares them, are exactly the keys with equal hashes. */
  lemma HashU32Congruent(a: Word, b: Word)
    ensures EqU32(a, b) <==> HashU32(a) == HashU32(b)
  {
    HashU32Invertible(a);
    HashU32Invertible(b);
  }

  /** `pet_hash_ptr`: shifts, additions and subtractions on 64-bit words, then the high half. */
  method HashPtr(val: Word) returns (r: U32)
    ensures r == (val * GOLDEN_RATIO_PRIME_64) % TWO_TO_64 / TWO_TO_32
  {
    var hash, n := val, val;
    ghost var h, m := val, val;   // the same values without the wrap-around
    n, m := Shl(n, m, 0x4_0000);
    hash, h := Sub(hash, h, n, m);
    n, m := Shl(n, m, 0x2_0000_0000);
    hash, h := Sub(hash, h, n, m);
    n, m := Shl(n, m, 8);
    hash, h := Add(hash, h, n, m);
    n, m := Shl(n, m, 8);
    hash, h := Sub(hash, h, n, m);
    n, m := Shl(n, m, 16);
    hash, h := Add(hash, h, n, m);
    n, m := Shl(n, m, 4);
    hash, h := Add(hash, h, n, m);
    assert h == val * GOLDEN_RATIO_PRIME_64;
    r := hash / TWO_TO_32;
  }

  /** `x <<= k`, with `power` two to the `k`. */
  method Shl(x: Word, ghost exact: int, power: nat) returns (y: Word, ghost e: int)
    requires x == exact % TWO_TO_64
    ensures e == exact * power && y == e % TWO_TO_64
  {
    y := (x * power) % TWO_TO_64;
    e := exact * power;
    ghost var q := exact / TWO_TO_64;
    ghost var k := x * power / TWO_TO_64;
    assert e == (q * power + k) * TWO_TO_64 + y;
  }

  method Add(x: Word, ghost ex: int, y: Word, ghost ey: int) returns (z: Word, ghost ez: int)
    requires x == ex % TWO_TO_64 && y == ey % TWO_TO_64
    ensures ez == ex + ey && z == ez % TWO_TO_64
  {
    z, ez := (x + y) % TWO_TO_64, ex + ey;
  }

  method Sub(x: Word, ghost ex: int, y: Word, ghost ey: int) returns (z: Word, ghost ez: int)
    requires x == ex % TWO_TO_64 && y == ey % TWO_TO_64
    ensures ez == ex - ey && z == ez % TWO_TO_64
  {
    z, ez := (x - y) % TWO_TO_64, ex - ey;
  }
}
