/** RFC 1321, sections 3.1 to 3.5. */
module Rfc1321 {
  // With its literal sine table and its 64 operations on named registers.

  import opened Arith
  import opened Bytes
  import opened Int32

  // ---- sections 3.1 and 3.2: padding and length ----

  // How many zero bytes bring the length to 56 modulo 64.
  function ZerosNeeded(length: nat): (k: nat)
    ensures (length + 1 + k) % 64 == 56 && k < 64
  {
    (55 - length) % 64
  }

  function Pad(message: seq<Byte>): seq<Byte> {
    message + [0x80] + Zeros(ZerosNeeded(|message|)) + LittleEndian(8 * |message|, 8)
  }

  // The padded message is the shortest run of whole blocks with room for the mark and the length.
  lemma PadIsShortest(message: seq<Byte>)
    ensures |Pad(message)| % 64 == 0
    ensures forall blocks: nat :: 64 * blocks >= |message| + 9 ==> 64 * blocks >= |Pad(message)|
  {
    PaddedSize(message);
    WholeBlocks(|message| + 9, ZerosNeeded(|message|));
    forall blocks: nat | 64 * blocks >= |message| + 9
      ensures 64 * blocks >= |Pad(message)|
    {
      LeastMultiple(|message| + 9, ZerosNeeded(|message|), blocks);
    }
  }

  lemma PaddedSize(message: seq<Byte>)
    ensures |Pad(message)| == |message| + 9 + ZerosNeeded(|message|)
  {
  }

  lemma WholeBlocks(n: nat, extra: nat)
    requires (n - 8 + extra) % 64 == 56
    ensures (n + extra) % 64 == 0
  {
  }

  lemma LeastMultiple(need: nat, extra: nat, blocks: nat)
    requires (need + extra) % 64 == 0 && extra < 64 && 64 * blocks >= need
    ensures 64 * blocks >= need + extra
  {
    var count := (need + extra) / 64;
    assert 64 * count == need + extra;
  }

  lemma CloseCongruent(a: int, b: int, m: int)
    requires m > 0 && a % m == b % m && -m < a - b < m
    ensures a == b
  {
    var d := a / m - b / m;
    assert a - b == a / m * m - b / m * m == d * m;
    if d >= 1 {
      MulMonotone(1, d, m);
    } else if d <= -1 {
      MulMonotone(d, -1, m);
    }
  }

  lemma SameLength(a: nat, b: nat)
    requires LittleEndian(8 * a, 8) == LittleEndian(8 * b, 8) && a - 64 < b < a + 64
    ensures a == b
  {
    LittleEndianValue(8 * a, 8);
    LittleEndianValue(8 * b, 8);
    PowOfWord();
    PowAdds(32, 32);
    CloseCongruent(8 * a, 8 * b, Pow2(64));
  }

  // No two messages pad to the same blocks.
  lemma PadIsInjective(m: seq<Byte>, n: seq<Byte>)
    requires Pad(m) == Pad(n)
    ensures m == n
  {
    var end := |Pad(m)| - 8;
    assert Pad(m)[end..] == LittleEndian(8 * |m|, 8);
    assert Pad(n)[end..] == LittleEndian(8 * |n|, 8);
    SameLength(|m|, |n|);
    assert m == Pad(m)[..|m|] && n == Pad(n)[..|n|];
  }

  // ---- section 3.3: the registers ----

  datatype Regs = Regs(a: Word, b: Word, c: Word, d: Word)

  const START := Regs(0x67452301, 0xefcdab89, 0x98badcfe, 0x10325476)

  // ---- section 3.4: the auxiliary functions and the operations ----

  function F(x: Word, y: Word, z: Word): Word {
    WordOp(Or, WordOp(And, x, y), WordOp(And, Not(x), z))
  }

  function G(x: Word, y: Word, z: Word): Word {
    WordOp(Or, WordOp(And, x, z), WordOp(And, y, Not(z)))
  }

  function H(x: Word, y: Word, z: Word): Word {
    WordOp(Xor, WordOp(Xor, x, y), z)
  }

  function I(x: Word, y: Word, z: Word): Word {
    WordOp(Xor, y, WordOp(Or, x, Not(z)))
  }

  function Auxiliary(round: nat, x: Word, y: Word, z: Word): Word
    requires round < 4
  {
    match round
    case 0 => F(x, y, z)
    case 1 => G(x, y, z)
    case 2 => H(x, y, z)
    case _ => I(x, y, z)
  }

  // The order in which an operation names the registers.
  datatype Order = ABCD | DABC | CDAB | BCDA

  // [order k s i]
  datatype Op = Op(order: Order, k: nat, s: nat, i: nat)

  // Round 1.
  function Round1(j: nat): Op
    requires j < 16
  {
    match j
    case 0 => Op(ABCD, 0, 7, 1)
    case 1 => Op(DABC, 1, 12, 2)
    case 2 => Op(CDAB, 2, 17, 3)
    case 3 => Op(BCDA, 3, 22, 4)
    case 4 => Op(ABCD, 4, 7, 5)
    case 5 => Op(DABC, 5, 12, 6)
    case 6 => Op(CDAB, 6, 17, 7)
    case 7 => Op(BCDA, 7, 22, 8)
    case 8 => Op(ABCD, 8, 7, 9)
    case 9 => Op(DABC, 9, 12, 10)
    case 10 => Op(CDAB, 10, 17, 11)
    case 11 => Op(BCDA, 11, 22, 12)
    case 12 => Op(ABCD, 12, 7, 13)
    case 13 => Op(DABC, 13, 12, 14)
    case 14 => Op(CDAB, 14, 17, 15)
    case _ => Op(BCDA, 15, 22, 16)
  }

  // Round 2.
  function Round2(j: nat): Op
    requires j < 16
  {
    match j
    case 0 => Op(ABCD, 1, 5, 17)
    case 1 => Op(DABC, 6, 9, 18)
    case 2 => Op(CDAB, 11, 14, 19)
    case 3 => Op(BCDA, 0, 20, 20)
    case 4 => Op(ABCD, 5, 5, 21)
    case 5 => Op(DABC, 10, 9, 22)
    case 6 => Op(CDAB, 15, 14, 23)
    case 7 => Op(BCDA, 4, 20, 24)
    case 8 => Op(ABCD, 9, 5, 25)
    case 9 => Op(DABC, 14, 9, 26)
    case 10 => Op(CDAB, 3, 14, 27)
    case 11 => Op(BCDA, 8, 20, 28)
    case 12 => Op(ABCD, 13, 5, 29)
    case 13 => Op(DABC, 2, 9, 30)
    case 14 => Op(CDAB, 7, 14, 31)
    case _ => Op(BCDA, 12, 20, 32)
  }

  // Round 3.
  function Round3(j: nat): Op
    requires j < 16
  {
    match j
    case 0 => Op(ABCD, 5, 4, 33)
    case 1 => Op(DABC, 8, 11, 34)
    case 2 => Op(CDAB, 11, 16, 35)
    case 3 => Op(BCDA, 14, 23, 36)
    case 4 => Op(ABCD, 1, 4, 37)
    case 5 => Op(DABC, 4, 11, 38)
    case 6 => Op(CDAB, 7, 16, 39)
    case 7 => Op(BCDA, 10, 23, 40)
    case 8 => Op(ABCD, 13, 4, 41)
    case 9 => Op(DABC, 0, 11, 42)
    case 10 => Op(CDAB, 3, 16, 43)
    case 11 => Op(BCDA, 6, 23, 44)
    case 12 => Op(ABCD, 9, 4, 45)
    case 13 => Op(DABC, 12, 11, 46)
    case 14 => Op(CDAB, 15, 16, 47)
    case _ => Op(BCDA, 2, 23, 48)
  }

  // Round 4.
  function Round4(j: nat): Op
    requires j < 16
  {
    match j
    case 0 => Op(ABCD, 0, 6, 49)
    case 1 => Op(DABC, 7, 10, 50)
    case 2 => Op(CDAB, 14, 15, 51)
    case 3 => Op(BCDA, 5, 21, 52)
    case 4 => Op(ABCD, 12, 6, 53)
    case 5 => Op(DABC, 3, 10, 54)
    case 6 => Op(CDAB, 10, 15, 55)
    case 7 => Op(BCDA, 1, 21, 56)
    case 8 => Op(ABCD, 8, 6, 57)
    case 9 => Op(DABC, 15, 10, 58)
    case 10 => Op(CDAB, 6, 15, 59)
    case 11 => Op(BCDA, 13, 21, 60)
    case 12 => Op(ABCD, 4, 6, 61)
    case 13 => Op(DABC, 11, 10, 62)
    case 14 => Op(CDAB, 2, 15, 63)
    case _ => Op(BCDA, 9, 21, 64)
  }

  function OpAt(n: nat): Op
    requires n < 64
  {
    if n < 16 then Round1(n) else if n < 32 then Round2(n - 16) else if n < 48 then Round3(n - 32) else Round4(n - 48)
  }

  // The registers as one operation names them.
  function Named(order: Order, r: Regs): Regs {
    match order
    case ABCD => r
    case DABC => Regs(r.d, r.a, r.b, r.c)
    case CDAB => Regs(r.c, r.d, r.a, r.b)
    case BCDA => Regs(r.b, r.c, r.d, r.a)
  }

  // a = b + ((a + f(b, c, d) + X[k] + T[i]) <<< s)
  function Sum(round: nat, s: nat, n: Regs, x: Word, t: Word): Word
    requires round < 4 && 0 < s < 32
  {
    Plus(n.b, RotL(Plus(Plus(Plus(n.a, Auxiliary(round, n.b, n.c, n.d)), x), t), s))
  }

  function Assign(order: Order, r: Regs, v: Word): Regs {
    match order
    case ABCD => r.(a := v)
    case DABC => r.(d := v)
    case CDAB => r.(c := v)
    case BCDA => r.(b := v)
  }

  function Execute(round: nat, op: Op, r: Regs, x: Word, t: Word): Regs
    requires round < 4 && 0 < op.s < 32
  {
    Assign(op.order, r, Sum(round, op.s, Named(op.order, r), x, t))
  }

  // T[1], T[2], ..., T[64]
  const SINES: seq<Word> := [
    0xd76aa478, 0xe8c7b756, 0x242070db, 0xc1bdceee,
    0xf57c0faf, 0x4787c62a, 0xa8304613, 0xfd469501,
    0x698098d8, 0x8b44f7af, 0xffff5bb1, 0x895cd7be,
    0x6b901122, 0xfd987193, 0xa679438e, 0x49b40821,
    0xf61e2562, 0xc040b340, 0x265e5a51, 0xe9b6c7aa,
    0xd62f105d, 0x02441453, 0xd8a1e681, 0xe7d3fbc8,
    0x21e1cde6, 0xc33707d6, 0xf4d50d87, 0x455a14ed,
    0xa9e3e905, 0xfcefa3f8, 0x676f02d9, 0x8d2a4c8a,
    0xfffa3942, 0x8771f681, 0x6d9d6122, 0xfde5380c,
    0xa4beea44, 0x4bdecfa9, 0xf6bb4b60, 0xbebfbc70,
    0x289b7ec6, 0xeaa127fa, 0xd4ef3085, 0x04881d05,
    0xd9d4d039, 0xe6db99e5, 0x1fa27cf8, 0xc4ac5665,
    0xf4292244, 0x432aff97, 0xab9423a7, 0xfc93a039,
    0x655b59c3, 0x8f0ccc92, 0xffeff47d, 0x85845dd1,
    0x6fa87e4f, 0xfe2ce6e0, 0xa3014314, 0x4e0811a1,
    0xf7537e82, 0xbd3af235, 0x2ad7d2bb, 0xeb86d391
  ]

  lemma OpsInRange(n: nat)
    requires n < 64
    ensures OpAt(n).k < 16 && 0 < OpAt(n).s < 32 && 1 <= OpAt(n).i <= 64
  {
  }

  // The first n of the 64 operations on the block at off, with the table t.
  function Operations(t: seq<Word>, s: seq<Byte>, off: nat, r: Regs, n: nat): Regs
    requires off + 64 <= |s| && n <= 64 && |t| == 64
  {
    if n == 0 then r
    else
      OpsInRange(n - 1);
      var op := OpAt(n - 1);
      Execute((n - 1) / 16, op, Operations(t, s, off, r, n - 1), WordAt(s, off + 4 * op.k), t[op.i - 1])
  }

  function AddRegs(r: Regs, q: Regs): Regs {
    Regs(Plus(r.a, q.a), Plus(r.b, q.b), Plus(r.c, q.c), Plus(r.d, q.d))
  }

  // The first n blocks.
  function Blocks(t: seq<Word>, s: seq<Byte>, n: nat): Regs
    requires 64 * n <= |s| && |t| == 64
  {
    if n == 0 then START
    else
      var r := Blocks(t, s, n - 1);
      AddRegs(r, Operations(t, s, 64 * (n - 1), r, 64))
  }

  // ---- section 3.5: output ----

  function Output(r: Regs): seq<Byte> {
    LittleEndian(r.a, 4) + LittleEndian(r.b, 4) + LittleEndian(r.c, 4) + LittleEndian(r.d, 4)
  }

  function Digest(message: seq<Byte>): (d: seq<Byte>)
    ensures |d| == 16
  {
    PadIsShortest(message);
    Output(Blocks(SINES, Pad(message), |Pad(message)| / 64))
  }
}
