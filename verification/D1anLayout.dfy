/** The D1AN layout, byte by byte. */
module D1anLayout {
  // scripts/diag/d1an.py: four little-endian words, the names, and the columns one after the other.

  import opened Arith
  import opened Bytes
  import opened D1an
  import opened Int32
  import opened Wrappers

  // A file is written if and only if there are columns, all of one length, with ASCII names of at most 16
  // bytes, and the two counts fit in 32 bits.
  lemma WrittenExactly(columns: seq<Column>)
    ensures D1anBytes(columns).Ok? <==>
              && columns != []
              && (forall i :: 0 <= i < |columns| ==> |columns[i].data| == |columns[0].data|)
              && (forall i :: 0 <= i < |columns| ==> IsAscii(columns[i].name) && |columns[i].name| <= 16)
              && |columns[0].data| < 0x1_0000_0000 && |columns| < 0x1_0000_0000
  {
    CheckedAreWritable(columns);
    if CheckNames(columns) == None {
      assert forall i :: 0 <= i < |columns| ==> Writable(columns[i]);
    }
  }

  lemma Parts(columns: seq<Column>)
    requires D1anBytes(columns).Ok?
    ensures columns != [] && |columns[0].data| < W && |columns| < W
    ensures forall i :: 0 <= i < |columns| ==> Writable(columns[i]) && |columns[i].data| == |columns[0].data|
    ensures D1anBytes(columns).value == Header(|columns[0].data|, |columns|) + NameFields(columns) + Bodies(columns)
  {
    WrittenExactly(columns);
    CheckedAreWritable(columns);
  }

  // Four words, sixteen bytes a name, four bytes a value and nothing after them.
  lemma SizeOfFile(columns: seq<Column>, values: nat)
    requires D1anBytes(columns).Ok? && values == |columns| * |columns[0].data|
    ensures |D1anBytes(columns).value| == 16 + 16 * |columns| + 4 * values
  {
    Parts(columns);
    BodiesLength(columns, |columns[0].data|);
  }

  // The tag, the version, the length of a column and the number of columns.
  lemma HeaderLayout(columns: seq<Column>)
    requires D1anBytes(columns).Ok?
    ensures var raw := D1anBytes(columns).value;
            && |raw| >= 16 && raw[..8] == [0x4E, 0x41, 0x31, 0x44, 1, 0, 0, 0]
            && WordAt(raw, 8) == |columns[0].data| && WordAt(raw, 12) == |columns|
  {
    Parts(columns);
    HeaderOf(|columns[0].data|, |columns|, NameFields(columns), Bodies(columns), D1anBytes(columns).value);
  }

  lemma HeaderOf(n: Word, count: Word, fields: seq<Byte>, bodies: seq<Byte>, raw: seq<Byte>)
    requires raw == Header(n, count) + fields + bodies
    ensures |raw| >= 16 && raw[..8] == [0x4E, 0x41, 0x31, 0x44, 1, 0, 0, 0] && WordAt(raw, 8) == n && WordAt(raw, 12) == count
  {
    assert raw == Header(n, count) + (fields + bodies);
    HeaderReadsBack(n, count, fields + bodies);
    HeaderStart(n, count, fields + bodies);
  }

  lemma HeaderStart(n: Word, count: Word, rest: seq<Byte>)
    ensures (Header(n, count) + rest)[..8] == [0x4E, 0x41, 0x31, 0x44, 1, 0, 0, 0]
  {
    FourBytes(0x4431414E);
    FourBytes(1);
    assert (Header(n, count) + rest)[..8] == LittleEndian(0x4431414E, 4) + LittleEndian(1, 4);
  }

  // The k-th name in its 16 bytes, padded with zeros.
  lemma NameLayout(columns: seq<Column>, k: nat, i: nat)
    requires D1anBytes(columns).Ok? && k < |columns| && i < 16
    ensures var raw, name := D1anBytes(columns).value, columns[k].name;
            16 + 16 * k + i < |raw| && raw[16 + 16 * k + i] == if i < |name| then name[i] as int else 0
  {
    Parts(columns);
    NameIn(Header(|columns[0].data|, |columns|), columns, Bodies(columns), D1anBytes(columns).value, k, i);
  }

  lemma NameIn(head: seq<Byte>, columns: seq<Column>, bodies: seq<Byte>, raw: seq<Byte>, k: nat, i: nat)
    requires |head| == 16 && k < |columns| && i < 16 && forall j :: 0 <= j < |columns| ==> Writable(columns[j])
    requires raw == head + NameFields(columns) + bodies
    ensures 16 + 16 * k + i < |raw| && raw[16 + 16 * k + i] == if i < |columns[k].name| then columns[k].name[i] as int else 0
  {
    NameAt(columns, k);
    PlacedAt(head, NameFields(columns), bodies, 16 * k, NameField(columns[k].name), i);
  }

  lemma PlacedAt(head: seq<Byte>, fields: seq<Byte>, bodies: seq<Byte>, off: nat, field: seq<Byte>, i: nat)
    requires |head| == 16 && i < 16 == |field| && off + 16 <= |fields| && fields[off..off + 16] == field
    ensures 16 + off + i < |head + fields + bodies| && (head + fields + bodies)[16 + off + i] == field[i]
  {
    assert fields[off..off + 16][i] == fields[off + i];
  }

  // The i-th value of the k-th column, after the values of the columns before it.
  lemma ValueLayout(columns: seq<Column>, k: nat, skipped: nat, i: nat)
    requires D1anBytes(columns).Ok? && k < |columns| && skipped == k * |columns[0].data| && i < |columns[k].data|
    ensures var raw, at := D1anBytes(columns).value, 16 + 16 * |columns| + 4 * skipped + 4 * i;
            at + 4 <= |raw| && WordAt(raw, at) == columns[k].data[i]
  {
    Parts(columns);
    ValueIn(Header(|columns[0].data|, |columns|) + NameFields(columns), columns, |columns[0].data|, D1anBytes(columns).value, k, skipped, i);
  }

  lemma ValueIn(before: seq<Byte>, columns: seq<Column>, n: nat, raw: seq<Byte>, k: nat, skipped: nat, i: nat)
    requires k < |columns| && (forall j :: 0 <= j < |columns| ==> |columns[j].data| == n) && i < n
    requires skipped == k * n && raw == before + Bodies(columns)
    ensures |before| + 4 * skipped + 4 * i + 4 <= |raw| && WordAt(raw, |before| + 4 * skipped + 4 * i) == columns[k].data[i]
  {
    BodiesLength(columns[..k], n);
    BodyAfter(before, columns, k, |before| + 4 * skipped);
    WordOf(raw, |before| + 4 * skipped, columns[k].data, i);
  }

  lemma WordOf(raw: seq<Byte>, off: nat, data: seq<Word>, i: nat)
    requires i < |data| && off + 4 * |data| <= |raw| && Words(raw, off, |data|) == data
    ensures WordAt(raw, off + 4 * i) == data[i]
  {
  }
}
