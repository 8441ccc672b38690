/** Bytes and little-endian numbers. */
module Bytes {
  import opened Arith
  import opened Int32

  type Byte = x: int | 0 <= x < 256

  function Zeros(n: nat): (z: seq<Byte>)
    ensures |z| == n && forall i :: 0 <= i < n ==> z[i] == 0
  {
    seq(n, i requires 0 <= i < n => 0)
  }

  // The n low-order bytes of x, least significant first.
  function LittleEndian(x: nat, n: nat): (b: seq<Byte>)
    ensures |b| == n
  {
    if n == 0 then [] else [x % 256] + LittleEndian(x / 256, n - 1)
  }

  function Value(b: seq<Byte>): nat {
    if b == [] then 0 else b[0] + 256 * Value(b[1..])
  }

  lemma {:induction false} LittleEndianValue(x: nat, n: nat)
    ensures Value(LittleEndian(x, n)) == x % Pow2(8 * n)
  {
    if n > 0 {
      LittleEndianValue(x / 256, n - 1);
      var p := Pow2(8 * (n - 1));
      PowAdds(8, 8 * (n - 1));
      assert Pow2(8) == 256;
      SplitMod(x, p);
    }
  }

  lemma SplitMod(x: nat, p: nat)
    requires p > 0
    ensures x % (256 * p) == x % 256 + 256 * (x / 256 % p)
  {
    var y := x / 256;
    var q, r := y / p, y % p;
    assert y == q * p + r;
    assert x == 256 * y + x % 256;
    assert 256 * (q * p) == q * (256 * p);
    assert 0 <= x % 256 + 256 * r < 256 * p;
    DivModUnique(x, 256 * p, q, x % 256 + 256 * r);
  }

  function WordAt(s: seq<Byte>, off: nat): Word
    requires off + 4 <= |s|
  {
    s[off] as int + 0x100 * s[off + 1] as int + 0x1_0000 * s[off + 2] as int + 0x100_0000 * s[off + 3] as int
  }

  lemma FourBytes(x: nat)
    ensures LittleEndian(x, 4) == [x % 256, x / 256 % 256, x / 0x1_0000 % 256, x / 0x100_0000 % 256]
  {
    assert x / 256 / 256 == x / 0x1_0000 && x / 0x1_0000 / 256 == x / 0x100_0000;
    assert LittleEndian(x / 0x100_0000, 1) == [x / 0x100_0000 % 256];
    assert LittleEndian(x / 0x1_0000, 2) == [x / 0x1_0000 % 256, x / 0x100_0000 % 256];
  }

  // A 32-bit word reads back from its four bytes.
  lemma WordReadsBack(before: seq<Byte>, w: Word, after: seq<Byte>)
    ensures WordAt(before + LittleEndian(w, 4) + after, |before|) == w
  {
    var s, b := before + LittleEndian(w, 4) + after, LittleEndian(w, 4);
    FourBytes(w);
    assert s[|before|] == b[0] && s[|before| + 1] == b[1] && s[|before| + 2] == b[2] && s[|before| + 3] == b[3];
    assert w == w % 256 + 256 * (w / 256 % 256) + 0x1_0000 * (w / 0x1_0000 % 256) + 0x100_0000 * (w / 0x100_0000 % 256);
  }
}
