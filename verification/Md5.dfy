/** packages/d1-ui/src/md5.ts: the message digest of RFC 1321. */
module Md5 {
  // MD5 with four rotating variables over JavaScript's 32-bit operators. Text encoding is left out: the
  // input is the bytes.

  import opened Arith
  import opened Bytes
  import opened Int32
  import opened Rfc1321

  // ---- the padded buffer ----

  // (((length + 8) >> 6) + 1) << 6
  function PaddedLength(length: nat): int
    requires Safe(length + 8)
  {
    JsShl(JsAdd(JsShr(JsAdd(length, 8), 6), 1), 6)
  }

  lemma SmallLength(n: nat)
    requires n < 0x8000_0000 - 72
    ensures PaddedLength(n) == ((n + 8) / 64 + 1) * 64
  {
    var k := (n + 8) / 64;
    Shifts64(n + 8);
    Shifts64(k + 1);
    assert JsShl(JsAdd(k, 1), 6) == (k + 1) * 64;
  }

  lemma Shifts64(x: nat)
    requires x < HALF
    ensures JsShr(x, 6) == x / 64
    ensures 64 * x < HALF ==> JsShl(x, 6) == x * 64
  {
    assert Pow2(6) == 64;
    assert ToInt32(x) == x == U(x);
  }

  // The shifts work on 32 bits: they give the padded length exactly when it is below 2^31.
  lemma PaddedLengthExact(message: seq<Byte>)
    requires Safe(|message| + 8)
    ensures PaddedLength(|message|) == |Pad(message)| <==> |message| < 0x8000_0000 - 72
  {
    var n := |message|;
    RoomNeeded(n);
    if n < 0x8000_0000 - 72 {
      SmallLength(n);
    }
  }

  lemma RoomNeeded(n: nat)
    ensures n + 9 + ZerosNeeded(n) == ((n + 8) / 64 + 1) * 64
    ensures n >= 0x8000_0000 - 72 ==> ((n + 8) / 64 + 1) * 64 >= HALF
  {
  }

  // view.setUint32(off, x, true)
  method SetUint32(view: array<Byte>, off: nat, x: int)
    requires off + 4 <= view.Length
    modifies view
    ensures view[..] == old(view[..off]) + LittleEndian(U(x), 4) + old(view[off + 4..])
  {
    var w := U(x);
    view[off] := w % 256;
    view[off + 1] := w / 256 % 256;
    view[off + 2] := w / 0x1_0000 % 256;
    view[off + 3] := w / 0x100_0000 % 256;
    FourBytes(w);
  }

  // Only the low n bytes count.
  lemma {:induction false} LowBytes(x: nat, n: nat)
    ensures LittleEndian(x % Pow2(8 * n), n) == LittleEndian(x, n)
  {
    if n > 0 {
      LowBytes(x / 256, n - 1);
      LowBytesStep(x, n, Pow2(8 * (n - 1)));
    }
  }

  lemma LowBytesStep(x: nat, n: nat, p: nat)
    requires n > 0 && p == Pow2(8 * (n - 1))
    requires LittleEndian(x / 256 % p, n - 1) == LittleEndian(x / 256, n - 1)
    ensures LittleEndian(x % Pow2(8 * n), n) == LittleEndian(x, n)
  {
    ByteMore(n, p);
    SplitMod(x, p);
    DivModUnique(x % (256 * p), 256, x / 256 % p, x % 256);
  }

  lemma ByteMore(n: nat, p: nat)
    requires n > 0 && p == Pow2(8 * (n - 1))
    ensures Pow2(8 * n) == 256 * p
  {
    assert Pow2(8) == 256;
    PowAdds(8, 8 * (n - 1));
  }

  function Quotient(x: nat, p: nat): nat
    requires p > 0
  {
    QuotientIsNat(x, p);
    x / p
  }

  lemma QuotientIsNat(x: nat, p: nat)
    requires p > 0
    ensures x / p >= 0
  {
  }

  lemma {:induction false} BytesSplit(x: nat, m: nat, n: nat, p: nat)
    requires p > 0 && p == Pow2(8 * m)
    ensures LittleEndian(x, m + n) == LittleEndian(x, m) + LittleEndian(Quotient(x, p), n)
  {
    if m > 0 {
      var q := Pow2(8 * (m - 1));
      ByteMore(m, q);
      DivDiv(x, q);
      BytesSplit(x / 256, m - 1, n, q);
    }
  }

  lemma DivDiv(x: nat, p: nat)
    requires p > 0
    ensures x / 256 / p == x / (256 * p)
  {
    var y := x / 256;
    var q, r := y / p, y % p;
    assert 256 * (q * p) == q * (256 * p);
    DivModUnique(x, 256 * p, q, 256 * r + x % 256);
  }

  // A 64-bit length is its two words, low word first.
  lemma EightBytes(x: nat)
    ensures LittleEndian(x, 8) == LittleEndian(U(x), 4) + LittleEndian(U(x / W), 4)
  {
    PowOfWord();
    BytesSplit(x, 4, 4, W);
    LowBytes(x, 4);
    LowBytes(x / W, 4);
  }

  method Copied(bytes: seq<Byte>, length: nat) returns (padded: array<Byte>)
    requires |bytes| < length
    ensures fresh(padded) && padded[..] == bytes + [0x80] + Zeros(length - |bytes| - 1)
  {
    padded := new Byte[length](_ => 0);
    for i := 0 to |bytes|
      invariant padded[..i] == bytes[..i]
      invariant forall j :: i <= j < padded.Length ==> padded[j] == 0
    {
      padded[i] := bytes[i];
      assert padded[..i + 1] == padded[..i] + [bytes[i]];
    }
    padded[|bytes|] := 0x80;
  }

  // The last eight of the zeros are overwritten.
  lemma DropZeros(head: seq<Byte>, zeros: nat, tail: seq<Byte>)
    requires zeros >= 8 && tail == head + Zeros(zeros)
    ensures tail[..|tail| - 8] == head + Zeros(zeros - 8)
  {
  }

  lemma PaddedFits(n: nat)
    requires n < 0x8000_0000 - 72
    ensures PaddedLength(n) == n + 9 + ZerosNeeded(n)
  {
    SmallLength(n);
    RoomNeeded(n);
  }

  method Padded(bytes: seq<Byte>) returns (padded: array<Byte>)
    requires |bytes| < 0x8000_0000 - 72
    ensures fresh(padded) && padded[..] == Pad(bytes)
  {
    PaddedFits(|bytes|);
    padded := Filled(bytes, PaddedLength(|bytes|), ZerosNeeded(|bytes|));
  }

  method Filled(bytes: seq<Byte>, length: nat, ghost zeros: nat) returns (padded: array<Byte>)
    requires |bytes| < 0x8000_0000 && length == |bytes| + 9 + zeros
    ensures fresh(padded) && padded[..] == bytes + [0x80] + Zeros(zeros) + LittleEndian(8 * |bytes|, 8)
  {
    padded := Copied(bytes, length);
    DropZeros(bytes + [0x80], zeros + 8, padded[..]);
    PutLength(padded, |bytes| * 8);
  }

  lemma TwoWrites(v0: seq<Byte>, v1: seq<Byte>, v2: seq<Byte>, lo: seq<Byte>, hi: seq<Byte>, at: nat)
    requires |v0| == at + 8 && |lo| == |hi| == 4
    requires v1 == v0[..at] + lo + v0[at + 4..]
    requires v2 == v1[..at + 4] + hi + v1[at + 8..]
    ensures v2 == v0[..at] + (lo + hi)
  {
  }

  method PutLength(padded: array<Byte>, bits: nat)
    requires padded.Length >= 8 && Safe(bits)
    modifies padded
    ensures padded[..] == old(padded[..padded.Length - 8]) + LittleEndian(bits, 8)
  {
    var at := padded.Length - 8;
    ghost var v0 := padded[..];
    assert Pow2(0) == 1;
    var low := JsUshr(bits, 0);
    assert U(low) == U(bits);
    SetUint32(padded, at, low);
    ghost var v1 := padded[..];
    SetUint32(padded, at + 4, bits / W);
    TwoWrites(v0, v1, padded[..], LittleEndian(U(bits), 4), LittleEndian(U(bits / W), 4), at);
    EightBytes(bits);
  }

  // ---- one step ----

  const S: seq<nat> := [7, 12, 17, 22, 5, 9, 14, 20, 4, 11, 16, 23, 6, 10, 15, 21]

  // Which word of the block step i reads.
  function Index(i: nat): nat {
    if i < 16 then i else if i < 32 then (5 * i + 1) % 16 else if i < 48 then (3 * i + 5) % 16 else 7 * i % 16
  }

  function OrderAt(i: nat): Order {
    if i % 4 == 0 then ABCD else if i % 4 == 1 then DABC else if i % 4 == 2 then CDAB else BCDA
  }

  lemma FirstRound(i: nat)
    requires i < 16
    ensures OpAt(i) == Op(OrderAt(i), Index(i), S[i % 4], i + 1)
  {
  }

  lemma SecondRound(i: nat)
    requires 16 <= i < 32
    ensures OpAt(i) == Op(OrderAt(i), Index(i), S[4 + i % 4], i + 1)
  {
  }

  lemma ThirdRound(i: nat)
    requires 32 <= i < 48
    ensures OpAt(i) == Op(OrderAt(i), Index(i), S[8 + i % 4], i + 1)
  {
  }

  lemma FourthRound(i: nat)
    requires 48 <= i < 64
    ensures OpAt(i) == Op(OrderAt(i), Index(i), S[12 + i % 4], i + 1)
  {
  }

  // The index arithmetic of the loop reproduces the table of operations.
  lemma TableMatches(i: nat)
    requires i < 64
    ensures i / 16 * 4 + i % 4 < 16
    ensures OpAt(i) == Op(OrderAt(i), Index(i), S[i / 16 * 4 + i % 4], i + 1)
  {
    if i < 16 {
      FirstRound(i);
      assert i / 16 * 4 + i % 4 == i % 4;
    } else if i < 32 {
      SecondRound(i);
      assert i / 16 * 4 + i % 4 == 4 + i % 4;
    } else if i < 48 {
      ThirdRound(i);
      assert i / 16 * 4 + i % 4 == 8 + i % 4;
    } else {
      FourthRound(i);
      assert i / 16 * 4 + i % 4 == 12 + i % 4;
    }
  }

  function Mix(i: nat, b: int, c: int, d: int): (f: int)
    ensures IsInt32(f)
  {
    if i < 16 then JsBits(Or, JsBits(And, b, c), JsBits(And, JsNot(b), d))
    else if i < 32 then JsBits(Or, JsBits(And, d, b), JsBits(And, JsNot(d), c))
    else if i < 48 then JsBits(Xor, JsBits(Xor, b, c), d)
    else JsBits(Xor, c, JsBits(Or, b, JsNot(d)))
  }

  lemma MixIsAuxiliary(i: nat, b: int, c: int, d: int)
    requires i < 64
    ensures U(Mix(i, b, c, d)) == Auxiliary(i / 16, U(b), U(c), U(d))
  {
    if 16 <= i < 32 {
      BitwiseCommutes(And, U(d), U(b), 32);
      BitwiseCommutes(And, Not(U(d)), U(c), 32);
    }
  }

  // The variables a, b, c, d before step i hold the registers as operation i names them.
  ghost predicate Holds(i: nat, r: Regs, a: int, b: int, c: int, d: int) {
    && IsInt32(a) && IsInt32(b) && IsInt32(c) && IsInt32(d)
    && Named(OrderAt(i), r) == Regs(U(a), U(b), U(c), U(d))
  }

  lemma RotSum(b: int, y: int, w: Word, s: nat)
    requires 0 < s < 32 && U(y) == w
    ensures U(b + Rotl(y, s)) == Plus(U(b), RotL(w, s))
  {
    RotlRotates(y, s);
    UAdds(b, Rotl(y, s));
  }

  lemma FourSum(a: int, f: int, t: Word, x: Word)
    ensures U(ToInt32(a + f + t + x)) == Plus(Plus(Plus(U(a), U(f)), x), t)
  {
    UAdds(a, f);
    UAdds(a + f, x);
    UAdds(a + f + x, t);
    assert U(x) == x && U(t) == t;
    assert a + f + x + t == a + f + t + x;
  }

  // Assigning to one register and renaming is shifting the variables along.
  lemma Shift(i: nat, r: Regs, a: int, b: int, c: int, d: int, next: int)
    requires Holds(i, r, a, b, c, d) && IsInt32(next)
    ensures Holds(i + 1, Assign(OrderAt(i), r, U(next)), d, next, b, c)
  {
  }

  lemma StepSum(a: int, b: int, f: int, aux: Word, x: Word, t: Word, shift: nat)
    requires U(f) == aux && 0 < shift < 32
    ensures U(ToInt32(b + Rotl(ToInt32(a + f + t + x), shift))) == Plus(U(b), RotL(Plus(Plus(Plus(U(a), aux), x), t), shift))
  {
    FourSum(a, f, t, x);
    RotSum(b, ToInt32(a + f + t + x), Plus(Plus(Plus(U(a), aux), x), t), shift);
  }

  // The new value of the assigned register is the sum of the operation.
  lemma StepValue(i: nat, n: Regs, a: int, b: int, f: int, x: Word, t: Word, shift: nat)
    requires i < 64 && 0 < shift < 32 && U(f) == Auxiliary(i / 16, n.b, n.c, n.d) && U(a) == n.a && U(b) == n.b
    ensures U(ToInt32(b + Rotl(ToInt32(a + f + t + x), shift))) == Sum(i / 16, shift, n, x, t)
  {
    StepSum(a, b, f, Auxiliary(i / 16, n.b, n.c, n.d), x, t, shift);
  }

  lemma ShiftExecutes(i: nat, op: Op, r: Regs, a: int, b: int, c: int, d: int, x: Word, t: Word, next: int)
    requires i < 64 && Holds(i, r, a, b, c, d) && IsInt32(next)
    requires op.order == OrderAt(i) && 0 < op.s < 32 && U(next) == Sum(i / 16, op.s, Regs(U(a), U(b), U(c), U(d)), x, t)
    ensures Holds(i + 1, Execute(i / 16, op, r, x, t), d, next, b, c)
  {
    Shift(i, r, a, b, c, d, next);
  }

  method Step(i: nat, a: int, b: int, c: int, d: int, x: Word, t: Word, shift: nat, ghost op: Op, ghost r: Regs) returns (next: int)
    requires i < 64 && Holds(i, r, a, b, c, d)
    requires op.order == OrderAt(i) && op.s == shift && 0 < shift < 32
    ensures Holds(i + 1, Execute(i / 16, op, r, x, t), d, next, b, c)
  {
    var f := Mix(i, b, c, d);
    next := Rotated(a, b, f, x, t, shift);
    MixIsAuxiliary(i, b, c, d);
    StepValue(i, Regs(U(a), U(b), U(c), U(d)), a, b, f, x, t, shift);
    ShiftExecutes(i, op, r, a, b, c, d, x, t, next);
  }

  // (b + rotl((a + f + K[i] + M[g]) | 0, S)) | 0
  method Rotated(a: int, b: int, f: int, x: Word, t: Word, shift: nat) returns (next: int)
    requires IsInt32(a) && IsInt32(b) && IsInt32(f) && 0 < shift < 32
    ensures IsInt32(next) && next == ToInt32(b + Rotl(ToInt32(a + f + t + x), shift))
  {
    var sum := ToInt32(JsAdd(JsAdd(JsAdd(a, f), t), x));
    next := ToInt32(JsAdd(b, Rotl(sum, shift)));
  }

  // After 64 steps the names are back where they were.
  lemma NamesCycle(r: Regs, a: int, b: int, c: int, d: int)
    ensures Holds(64, r, a, b, c, d) == Holds(0, r, a, b, c, d)
  {
  }

  // ---- the loops ----

  method Block(k: seq<Word>, padded: array<Byte>, off: nat, a0: int, b0: int, c0: int, d0: int, ghost r: Regs)
    returns (a: int, b: int, c: int, d: int, ghost q: Regs)
    requires |k| == 64 && off + 64 <= padded.Length && Holds(0, r, a0, b0, c0, d0)
    ensures q == Operations(k, padded[..], off, r, 64) && Holds(0, q, a, b, c, d)
  {
    a, b, c, d := a0, b0, c0, d0;
    q := r;
    for i := 0 to 64
      invariant q == Operations(k, padded[..], off, r, i) && Holds(i, q, a, b, c, d)
    {
      ghost var op := OperationsStep(k, padded[..], off, r, i);
      var g := Index(i);
      var shift := S[i / 16 * 4 + i % 4];
      var next := Step(i, a, b, c, d, WordAt(padded[..], off + g * 4), k[i], shift, op, q);
      q := Execute(i / 16, op, q, WordAt(padded[..], off + g * 4), k[i]);
      a, d, c, b := d, c, b, next;
    }
    NamesCycle(q, a, b, c, d);
  }

  // One more operation, with the numbers the loop computes for it.
  lemma OperationsStep(k: seq<Word>, s: seq<Byte>, off: nat, r: Regs, i: nat) returns (op: Op)
    requires |k| == 64 && off + 64 <= |s| && i < 64
    ensures i / 16 * 4 + i % 4 < 16 && Index(i) < 16
    ensures op.order == OrderAt(i) && op.s == S[i / 16 * 4 + i % 4] && 0 < op.s < 32
    ensures Operations(k, s, off, r, i + 1) ==
            Execute(i / 16, op, Operations(k, s, off, r, i), WordAt(s, off + Index(i) * 4), k[i])
  {
    op := OpOfStep(i);
    Unfolded(k, s, off, r, i, op);
  }

  lemma OpOfStep(i: nat) returns (op: Op)
    requires i < 64
    ensures i / 16 * 4 + i % 4 < 16 && Index(i) < 16
    ensures op == OpAt(i) == Op(OrderAt(i), Index(i), S[i / 16 * 4 + i % 4], i + 1) && 0 < op.s < 32
  {
    op := OpAt(i);
    TableMatches(i);
    OpsInRange(i);
  }

  lemma Unfolded(k: seq<Word>, s: seq<Byte>, off: nat, r: Regs, i: nat, op: Op)
    requires |k| == 64 && off + 64 <= |s| && i < 64
    requires op == OpAt(i) && op.k < 16 && 0 < op.s < 32 && op.i == i + 1
    ensures Operations(k, s, off, r, i + 1) == Execute(i / 16, op, Operations(k, s, off, r, i), WordAt(s, off + op.k * 4), k[i])
  {
  }

  lemma AddedHolds(r: Regs, q: Regs, a: int, b: int, c: int, d: int, a': int, b': int, c': int, d': int)
    requires Holds(0, r, a, b, c, d) && Holds(0, q, a', b', c', d')
    ensures Holds(0, AddRegs(r, q), ToInt32(JsAdd(a, a')), ToInt32(JsAdd(b, b')), ToInt32(JsAdd(c, c')), ToInt32(JsAdd(d, d')))
  {
    UAdds(a, a');
    UAdds(b, b');
    UAdds(c, c');
    UAdds(d, d');
  }

  lemma BlocksStep(k: seq<Word>, s: seq<Byte>, n: nat)
    requires |k| == 64 && 64 * (n + 1) <= |s|
    ensures Blocks(k, s, n + 1) == AddRegs(Blocks(k, s, n), Operations(k, s, 64 * n, Blocks(k, s, n), 64))
  {
  }

  lemma StartHolds()
    ensures Holds(0, START, 0x67452301, ToInt32(0xefcdab89), ToInt32(0x98badcfe), 0x10325476)
  {
  }

  method AddBlock(k: seq<Word>, padded: array<Byte>, ghost n: nat, off: nat, a0: int, b0: int, c0: int, d0: int)
    returns (a: int, b: int, c: int, d: int)
    requires |k| == 64 && off == 64 * n && off + 64 <= padded.Length
    requires Holds(0, Blocks(k, padded[..], n), a0, b0, c0, d0)
    ensures Holds(0, Blocks(k, padded[..], n + 1), a, b, c, d)
  {
    ghost var r := Blocks(k, padded[..], n);
    ghost var q;
    a, b, c, d, q := Block(k, padded, off, a0, b0, c0, d0, r);
    AddedHolds(r, q, a0, b0, c0, d0, a, b, c, d);
    BlocksStep(k, padded[..], n);
    a, b, c, d := ToInt32(JsAdd(a0, a)), ToInt32(JsAdd(b0, b)), ToInt32(JsAdd(c0, c)), ToInt32(JsAdd(d0, d));
  }

  method Registers(k: seq<Word>, padded: array<Byte>, ghost count: nat) returns (a0: int, b0: int, c0: int, d0: int)
    requires |k| == 64 && padded.Length == 64 * count
    ensures Holds(0, Blocks(k, padded[..], count), a0, b0, c0, d0)
  {
    a0, b0, c0, d0 := 0x67452301, ToInt32(0xefcdab89), ToInt32(0x98badcfe), 0x10325476;
    StartHolds();
    var off := 0;
    ghost var n := 0;
    while off < padded.Length
      invariant off == 64 * n && n <= count
      invariant Holds(0, Blocks(k, padded[..], n), a0, b0, c0, d0)
    {
      a0, b0, c0, d0 := AddBlock(k, padded, n, off, a0, b0, c0, d0);
      off, n := off + 64, n + 1;
    }
  }

  // ---- hexadecimal output ----

  const DIGITS := "0123456789abcdef"

  // x.toString(16)
  function Hex(x: nat): (s: string)
    ensures s != []
  {
    if x < 16 then [DIGITS[x]] else Hex(x / 16) + [DIGITS[x % 16]]
  }

  // padStart(n, '0')
  function PadStart(s: string, n: nat): string
    decreases n - |s|
  {
    if |s| >= n then s else PadStart(['0'] + s, n)
  }

  function HexByte(x: Byte): string {
    PadStart(Hex(x), 2)
  }

  function HexBytes(b: seq<Byte>): string {
    if b == [] then "" else HexBytes(b[..|b| - 1]) + HexByte(b[|b| - 1])
  }

  lemma HexByteIsTwoDigits(x: Byte)
    ensures HexByte(x) == [DIGITS[x / 16], DIGITS[x % 16]]
  {
    var s := Hex(x);
    if x >= 16 {
      assert Hex(x / 16) == [DIGITS[x / 16]];
      assert s == [DIGITS[x / 16], DIGITS[x % 16]];
    } else {
      assert s == [DIGITS[x]];
      assert ['0'] + s == ['0', DIGITS[x]];
      assert PadStart(['0'] + s, 2) == ['0'] + s;
    }
  }

  lemma DigitsDiffer(i: nat, j: nat)
    requires i < 16 && j < 16 && DIGITS[i] == DIGITS[j]
    ensures i == j
  {
  }

  // Two digits a byte, so the text determines the bytes.
  lemma {:induction false} HexIsInjective(a: seq<Byte>, b: seq<Byte>)
    requires HexBytes(a) == HexBytes(b)
    ensures a == b
  {
    HexLength(a);
    HexLength(b);
    if a != [] {
      var x, y := a[|a| - 1], b[|b| - 1];
      HexLength(a[..|a| - 1]);
      HexLength(b[..|b| - 1]);
      HexByteIsTwoDigits(x);
      HexByteIsTwoDigits(y);
      SameEnds(HexBytes(a[..|a| - 1]), HexByte(x), HexBytes(b[..|b| - 1]), HexByte(y));
      HexByteIsInjective(x, y);
      HexIsInjective(a[..|a| - 1], b[..|b| - 1]);
      assert a == a[..|a| - 1] + [x] && b == b[..|b| - 1] + [y];
    }
  }

  lemma SameEnds(s: string, p: string, t: string, q: string)
    requires s + p == t + q && |s| == |t|
    ensures s == t && p == q
  {
    assert s == (s + p)[..|s|] && t == (t + q)[..|s|];
    assert p == (s + p)[|s|..] && q == (t + q)[|s|..];
  }

  lemma HexByteIsInjective(x: Byte, y: Byte)
    requires HexByte(x) == HexByte(y)
    ensures x == y
  {
    HexByteIsTwoDigits(x);
    HexByteIsTwoDigits(y);
    assert DIGITS[x / 16] == HexByte(x)[0] == DIGITS[y / 16] && DIGITS[x % 16] == HexByte(x)[1] == DIGITS[y % 16];
    DigitsDiffer(x / 16, y / 16);
    DigitsDiffer(x % 16, y % 16);
  }

  lemma {:induction false} HexLength(b: seq<Byte>)
    ensures |HexBytes(b)| == 2 * |b|
  {
    if b != [] {
      HexLength(b[..|b| - 1]);
      HexByteIsTwoDigits(b[|b| - 1]);
    }
  }

  // Array.from(bytes, toHex).join('')
  method Join(out: array<Byte>) returns (text: string)
    ensures text == HexBytes(out[..])
  {
    text := "";
    for i := 0 to out.Length
      invariant text == HexBytes(out[..i])
    {
      text := text + HexByte(out[i]);
      assert out[..i + 1][..i] == out[..i];
    }
    assert out[..out.Length] == out[..];
  }

  method Emit(a0: int, b0: int, c0: int, d0: int) returns (out: array<Byte>)
    ensures fresh(out) && out[..] == Output(Regs(U(a0), U(b0), U(c0), U(d0)))
  {
    out := new Byte[16](_ => 0);
    SetUint32(out, 0, a0);
    assert out[..4] == LittleEndian(U(a0), 4);
    SetUint32(out, 4, b0);
    assert out[..8] == LittleEndian(U(a0), 4) + LittleEndian(U(b0), 4);
    SetUint32(out, 8, c0);
    assert out[..12] == LittleEndian(U(a0), 4) + LittleEndian(U(b0), 4) + LittleEndian(U(c0), 4);
    SetUint32(out, 12, d0);
  }

  method Md5(bytes: seq<Byte>) returns (hex: string)
    requires |bytes| < 0x8000_0000 - 72
    ensures hex == HexBytes(Digest(bytes))
  {
    var padded := Padded(bytes);
    PadIsShortest(bytes);
    assert padded.Length == |padded[..]|;
    var a0, b0, c0, d0 := Registers(SINES, padded, padded.Length / 64);
    var out := Emit(a0, b0, c0, d0);
    hex := Join(out);
  }
}
