/**
 JavaScript's 32-bit operators on the integers a double holds exactly, and the words of RFC 1321 they
 are used to compute with.
 */
module Int32 {
  import opened Arith

  const W: int := 0x1_0000_0000
  const HALF: int := 0x8000_0000

  type Word = x: int | 0 <= x < 0x1_0000_0000

  // ---- bits ----

  datatype BitOp = And | Or | Xor

  predicate Bit(op: BitOp, p: bool, q: bool) {
    match op
    case And => p && q
    case Or => p || q
    case Xor => p != q
  }

  function Pow2(n: nat): (p: nat)
    ensures p > 0
  {
    if n == 0 then 1 else 2 * Pow2(n - 1)
  }

  // op on each of the n lowest bits.
  function Bitwise(op: BitOp, x: nat, y: nat, n: nat): (r: nat)
    ensures r < Pow2(n)
  {
    if n == 0 then 0
    else 2 * Bitwise(op, x / 2, y / 2, n - 1) + if Bit(op, x % 2 == 1, y % 2 == 1) then 1 else 0
  }

  lemma {:induction false} BitwiseCommutes(op: BitOp, x: nat, y: nat, n: nat)
    ensures Bitwise(op, x, y, n) == Bitwise(op, y, x, n)
  {
    if n > 0 {
      BitwiseCommutes(op, x / 2, y / 2, n - 1);
    }
  }

  // Complement is exclusive-or with all ones.
  lemma {:induction false} ComplementIsBitwise(x: nat, n: nat)
    requires x < Pow2(n)
    ensures Bitwise(Xor, x, Pow2(n) - 1, n) == Pow2(n) - 1 - x
  {
    if n > 0 {
      var ones, half := Pow2(n) - 1, Pow2(n - 1) - 1;
      HalfOfOnes(ones, half);
      ComplementIsBitwise(x / 2, n - 1);
      LastBitFlipped(x, ones, half);
    }
  }

  lemma HalfOfOnes(ones: nat, half: nat)
    requires ones == 2 * half + 1
    ensures ones / 2 == half && ones % 2 == 1
  {
  }

  lemma LastBitFlipped(x: nat, ones: nat, half: nat)
    requires ones == 2 * half + 1 && x <= ones
    ensures 2 * (half - x / 2) + (1 - x % 2) == ones - x
  {
  }

  // Or of numbers without a bit in common is their sum.
  lemma {:induction false} OrIsSum(high: nat, low: nat, s: nat, n: nat)
    requires s <= n && high < Pow2(n - s) && low < Pow2(s)
    ensures Bitwise(Or, high * Pow2(s), low, n) == high * Pow2(s) + low
  {
    if s > 0 {
      DoubleTimes(high, Pow2(s - 1));
      OrIsSum(high, low / 2, s - 1, n - 1);
      OrDoubles(high * Pow2(s - 1), low, n);
    } else {
      OrZero(high, n);
    }
  }

  lemma DoubleTimes(a: int, p: int)
    ensures a * (2 * p) == 2 * (a * p) && 2 * p * a == 2 * (p * a)
  {
  }

  lemma OrDoubles(x: nat, low: nat, n: nat)
    requires n > 0
    ensures Bitwise(Or, 2 * x, low, n) == 2 * Bitwise(Or, x, low / 2, n - 1) + low % 2
  {
    assert 2 * x / 2 == x && 2 * x % 2 == 0;
  }

  lemma {:induction false} OrZero(x: nat, n: nat)
    requires x < Pow2(n)
    ensures Bitwise(Or, x, 0, n) == x
  {
    if n > 0 {
      OrZero(x / 2, n - 1);
    }
  }

  lemma PowAdds(a: nat, b: nat)
    ensures Pow2(a) * Pow2(b) == Pow2(a + b)
  {
    if a > 0 {
      PowAdds(a - 1, b);
      DoubleTimes(Pow2(b), Pow2(a - 1));
    }
  }

  lemma PowOfWord()
    ensures Pow2(32) == W
  {
    assert Pow2(8) == 256;
    PowAdds(8, 8);
    PowAdds(16, 16);
  }

  // ---- words, section 2 of RFC 1321 ----

  function WordOp(op: BitOp, x: Word, y: Word): Word {
    PowOfWord();
    Bitwise(op, x, y, 32)
  }

  function Not(x: Word): Word {
    W - 1 - x
  }

  // Addition modulo 2^32.
  function Plus(x: Word, y: Word): Word {
    if x + y < W then x + y else x + y - W
  }

  // X <<< s: s times, the high bit comes back at the low end.
  function RotL(x: Word, s: nat): Word {
    if s == 0 then x else RotOne(RotL(x, s - 1))
  }

  function RotOne(y: Word): Word {
    if y >= HALF then 2 * (y - HALF) + 1 else 2 * y
  }

  // The rotated word in one go: the high s bits come back at the low end.
  lemma {:induction false} RotParts(x: Word, s: nat)
    requires s < 32
    ensures RotL(x, s) == x % Pow2(32 - s) * Pow2(s) + x / Pow2(32 - s)
  {
    PowOfWord();
    if s == 0 {
      assert x / W == 0 && x % W == x;
    } else {
      RotParts(x, s - 1);
      RotStep(x, s, Pow2(32 - s), Pow2(s - 1));
    }
  }

  lemma RotStep(x: Word, s: nat, p: nat, q: nat)
    requires 0 < s < 32 && p == Pow2(32 - s) && q == Pow2(s - 1)
    requires RotL(x, s - 1) == x % (2 * p) * q + x / (2 * p)
    ensures RotL(x, s) == x % p * (2 * q) + x / p
  {
    Halves(x, s, p, q);
    OneBit(x, p, q);
  }

  lemma Halves(x: Word, s: nat, p: nat, q: nat)
    requires 0 < s < 32 && p == Pow2(32 - s) && q == Pow2(s - 1)
    ensures p * q == HALF && 0 <= x / (2 * p) < q
  {
    PowOfWord();
    PowAdds(33 - s, s - 1);
    HalfOf(Pow2(33 - s), p, q, W);
    HighPart(x, 2 * p, q);
  }

  lemma HalfOf(a: nat, p: nat, q: nat, w: nat)
    requires a == 2 * p && a * q == w
    ensures 2 * p * q == w && 2 * (p * q) == w
  {
  }

  lemma OneBit(x: Word, p: nat, q: nat)
    requires p > 0 && q > 0 && p * q == HALF && 0 <= x / (2 * p) < q
    requires 0 <= x % (2 * p) * q + x / (2 * p) < W
    ensures x % p * (2 * q) + x / p == RotOne(x % (2 * p) * q + x / (2 * p))
  {
    var h, r := x / (2 * p), x % (2 * p);
    var bit := if r >= p then 1 else 0;
    var low := r - bit * p;
    assert 2 * h * p == h * (2 * p);
    assert x == (2 * h + bit) * p + low;
    DivModUnique(x, p, 2 * h + bit, low);
    assert r * q == bit * HALF + low * q;
    LowPart(low, h, p, q);
    assert low * (2 * q) == 2 * (low * q);
  }

  lemma HighPart(x: int, p: nat, q: nat)
    requires p > 0 && 0 <= x < p * q
    ensures 0 <= x / p < q
  {
    if x / p >= q {
      assert x / p * p >= q * p by {
        MulMonotone(q, x / p, p);
      }
    }
  }

  lemma LowPart(r: int, h: int, p: nat, q: nat)
    requires 0 <= r < p && 0 <= h < q
    ensures 0 <= r * q + h < p * q
  {
    MulMonotone(r, p - 1, q);
    MulMonotone(0, r, q);
  }

  // ---- JavaScript ----

  // Integers every double operation below is exact on.
  predicate Safe(x: int) {
    -0x20_0000_0000_0000 < x < 0x20_0000_0000_0000
  }

  function U(x: int): Word {
    x % W
  }

  // x | 0
  function ToInt32(x: int): (r: int)
    ensures -HALF <= r < HALF && U(r) == U(x)
  {
    if U(x) >= HALF then U(x) - W else U(x)
  }

  predicate IsInt32(x: int) {
    -HALF <= x < HALF
  }

  function JsAdd(x: int, y: int): int
    requires Safe(x + y)
  {
    x + y
  }

  function JsBits(op: BitOp, x: int, y: int): (r: int)
    ensures IsInt32(r) && U(r) == WordOp(op, U(x), U(y))
  {
    SignedWord(WordOp(op, U(x), U(y)));
    ToInt32(WordOp(op, U(x), U(y)))
  }

  lemma SignedWord(w: Word)
    ensures IsInt32(ToInt32(w)) && U(ToInt32(w)) == w
  {
  }

  function JsNot(x: int): (r: int)
    ensures IsInt32(r) && U(r) == Not(U(x))
  {
    -ToInt32(x) - 1
  }

  // x << n
  function JsShl(x: int, n: nat): (r: int)
    requires n < 32
    ensures IsInt32(r)
  {
    ToInt32(U(x) * Pow2(n))
  }

  // x >> n
  function JsShr(x: int, n: nat): int
    requires n < 32
  {
    ToInt32(x) / Pow2(n)
  }

  // x >>> n
  function JsUshr(x: int, n: nat): int
    requires n < 32
  {
    U(x) / Pow2(n)
  }

  // (x << n) | (x >>> (32 - n))
  function Rotl(x: int, n: nat): (r: int)
    requires 0 < n < 32
    ensures IsInt32(r)
  {
    JsBits(Or, JsShl(x, n), JsUshr(x, 32 - n))
  }

  // Shifting left drops the high bits.
  lemma ShlKeepsLow(x: Word, p: nat, q: nat)
    requires p > 0 && q > 0 && p * q == W
    ensures (x * q) % W == x % p * q
  {
    var h, r := x / p, x % p;
    assert x == h * p + r;
    assert x * q == h * W + r * q by {
      assert h * p * q == h * (p * q);
      assert (h * p + r) * q == h * p * q + r * q;
    }
    MulMonotone(r, p - 1, q);
    MulMonotone(0, r, q);
    assert (p - 1) * q == W - q;
    assert 0 <= r * q < W;
    Wraps(h, r * q);
  }

  lemma Wraps(h: int, t: int)
    requires 0 <= t < W
    ensures (h * W + t) % W == t
  {
  }

  lemma ShiftParts(x: int, n: nat, p: nat, q: nat)
    requires 0 < n < 32 && p == Pow2(32 - n) && q == Pow2(n)
    ensures p * q == W
    ensures 0 <= U(x) % p < p && 0 <= U(x) / p < q <= W
    ensures U(JsShl(x, n)) == U(x) % p * q && U(JsUshr(x, 32 - n)) == U(x) / p
  {
    PowOfWord();
    PowAdds(32 - n, n);
    ShlKeepsLow(U(x), p, q);
    HighPart(U(x), p, q);
    MulMonotone(1, p, q);
  }

  // The shifts of the source rotate the word.
  lemma RotlRotates(x: int, n: nat)
    requires 0 < n < 32
    ensures U(Rotl(x, n)) == RotL(U(x), n)
  {
    var p, q := Pow2(32 - n), Pow2(n);
    ShiftParts(x, n, p, q);
    OrIsSum(U(x) % p, U(x) / p, n, 32);
    RotParts(U(x), n);
  }

  lemma UAdds(x: int, y: int)
    ensures U(x + y) == Plus(U(x), U(y))
  {
  }
}
