/** scripts/diag/d1an.py: the D1AN column file. */
module D1an {
  // It is written and read in Python, and read in the browser by packages/force-plotting/src/diagAttrs.ts.
  // Floats are opaque 32-bit words.

  import opened Arith
  import opened Bytes
  import opened Int32
  import opened PlainObject
  import opened Wrappers

  const MAGIC := 0x4431414E
  const VERSION := 1
  const NAME_BYTES := 16
  const HEADER_SIZE := 16

  datatype Column = Column(name: string, data: seq<Word>)

  datatype Error =
    | NoColumns | LengthMismatch | NotAscii | NameTooLong | TooBig
    | TruncatedHeader | BadMagic | BadVersion | TruncatedBody | OutOfRange | ReadOnly

  // ---- the writer ----

  predicate IsAscii(s: string) {
    forall i :: 0 <= i < |s| ==> s[i] as int < 128
  }

  function Ascii(s: string): (b: seq<Byte>)
    requires IsAscii(s)
    ensures |b| == |s| && forall i :: 0 <= i < |s| ==> b[i] == s[i] as int
  {
    seq(|s|, i requires 0 <= i < |s| => s[i] as int)
  }

  // name.encode("ascii").ljust(NAME_BYTES, b"\x00")
  function NameField(name: string): (f: seq<Byte>)
    requires IsAscii(name) && |name| <= NAME_BYTES
    ensures |f| == NAME_BYTES
  {
    Ascii(name) + Zeros(NAME_BYTES - |name|)
  }

  function BytesOf(data: seq<Word>): (b: seq<Byte>)
    ensures |b| == 4 * |data|
  {
    if data == [] then [] else BytesOf(data[..|data| - 1]) + LittleEndian(data[|data| - 1], 4)
  }

  predicate Writable(c: Column) {
    IsAscii(c.name) && |c.name| <= NAME_BYTES
  }

  function NameFields(columns: seq<Column>): (b: seq<Byte>)
    requires forall i :: 0 <= i < |columns| ==> Writable(columns[i])
    ensures |b| == NAME_BYTES * |columns|
  {
    if columns == [] then []
    else
      assert Writable(columns[|columns| - 1]);
      NameFields(columns[..|columns| - 1]) + NameField(columns[|columns| - 1].name)
  }

  function Bodies(columns: seq<Column>): seq<Byte> {
    if columns == [] then [] else Bodies(columns[..|columns| - 1]) + BytesOf(columns[|columns| - 1].data)
  }

  function Header(n: Word, count: Word): (b: seq<Byte>)
    ensures |b| == HEADER_SIZE
  {
    LittleEndian(MAGIC, 4) + LittleEndian(VERSION, 4) + LittleEndian(n, 4) + LittleEndian(count, 4)
  }

  function CheckNames(columns: seq<Column>): Option<Error> {
    if columns == [] then None
    else if !IsAscii(columns[0].name) then Some(NotAscii)
    else if |columns[0].name| > NAME_BYTES then Some(NameTooLong)
    else CheckNames(columns[1..])
  }

  lemma {:induction false} CheckedAreWritable(columns: seq<Column>)
    ensures CheckNames(columns) == None <==> forall i :: 0 <= i < |columns| ==> Writable(columns[i])
  {
    if columns != [] {
      CheckedAreWritable(columns[1..]);
      assert forall i :: 0 < i < |columns| ==> columns[i] == columns[1..][i - 1];
    }
  }

  function D1anBytes(columns: seq<Column>): Result<seq<Byte>, Error> {
    CheckedAreWritable(columns);
    if columns == [] then Err(NoColumns)
    else if exists i :: 0 <= i < |columns| && |columns[i].data| != |columns[0].data| then Err(LengthMismatch)
    else if CheckNames(columns).Some? then Err(CheckNames(columns).value)
    else if |columns[0].data| >= W || |columns| >= W then Err(TooBig)
    else Ok(Header(|columns[0].data|, |columns|) + NameFields(columns) + Bodies(columns))
  }

  // ---- reading a field ----

  // rstrip(b"\x00")
  function StripRight(b: seq<Byte>): (s: seq<Byte>)
    ensures s <= b && (s != [] ==> s[|s| - 1] != 0) && forall i :: |s| <= i < |b| ==> b[i] == 0
  {
    if b != [] && b[|b| - 1] == 0 then StripRight(b[..|b| - 1]) else b
  }

  // bytes.subarray(0, nul < 0 ? NAME_BYTES : nul)
  function UpToNul(b: seq<Byte>): (s: seq<Byte>)
    ensures s <= b && (forall i :: 0 <= i < |s| ==> s[i] != 0) && (|s| < |b| ==> b[|s|] == 0)
  {
    if b == [] || b[0] == 0 then []
    else
      var rest := UpToNul(b[1..]);
      assert b == [b[0]] + b[1..];
      [b[0]] + rest
  }

  lemma {:induction false} StrippedAt(b: seq<Byte>, k: nat)
    requires k <= |b| && (k > 0 ==> b[k - 1] != 0) && forall i :: k <= i < |b| ==> b[i] == 0
    ensures StripRight(b) == b[..k]
  {
    if k < |b| {
      StrippedAt(b[..|b| - 1], k);
      assert b[..|b| - 1][..k] == b[..k];
    } else {
      assert b[..k] == b;
    }
  }

  lemma {:induction false} CutAt(b: seq<Byte>, k: nat)
    requires k <= |b| && (k < |b| ==> b[k] == 0) && forall i :: 0 <= i < k ==> b[i] != 0
    ensures UpToNul(b) == b[..k]
  {
    if k > 0 {
      CutAt(b[1..], k - 1);
      assert b[..k] == [b[0]] + b[1..][..k - 1];
    }
  }

  // The two readers take the same name exactly from fields that hold nothing after their first NUL.
  lemma NameReadersAgree(b: seq<Byte>)
    ensures StripRight(b) == UpToNul(b) <==> forall i :: |UpToNul(b)| <= i < |b| ==> b[i] == 0
  {
    var u := UpToNul(b);
    assert forall i :: 0 <= i < |u| ==> u[i] == b[i];
    if forall i :: |u| <= i < |b| ==> b[i] == 0 {
      StrippedAt(b, |u|);
    }
  }

  lemma FieldHoldsName(name: string)
    requires IsAscii(name) && |name| <= NAME_BYTES && (forall i :: 0 <= i < |name| ==> name[i] as int != 0)
    ensures StripRight(NameField(name)) == Ascii(name) == UpToNul(NameField(name))
  {
    var f := NameField(name);
    assert f[..|name|] == Ascii(name);
    StrippedAt(f, |name|);
    CutAt(f, |name|);
  }

  // .decode("ascii"), which refuses a byte above 127.
  function Decoded(b: seq<Byte>): Option<string> {
    if exists i :: 0 <= i < |b| && b[i] >= 128 then None
    else Some(seq(|b|, i requires 0 <= i < |b| => b[i] as char))
  }

  // TextDecoder("ascii") never refuses; `high` is what it makes of the bytes above 127.
  function Lenient(b: seq<Byte>, high: Byte -> char): (s: string)
    ensures |s| == |b|
  {
    seq(|b|, i requires 0 <= i < |b| => if b[i] < 128 then b[i] as char else high(b[i]))
  }

  lemma AsciiDecodes(s: string, high: Byte -> char)
    requires IsAscii(s)
    ensures Decoded(Ascii(s)) == Some(s) && Lenient(Ascii(s), high) == s
  {
    var b := Ascii(s);
    forall i | 0 <= i < |s|
      ensures b[i] < 128 && b[i] as char == s[i]
    {
    }
    assert Decoded(b).value == s;
    assert Lenient(b, high) == s;
  }

  // np.frombuffer(b, "<f4"), new Float32Array(buf, off, n)
  function Words(b: seq<Byte>, off: nat, n: nat): (w: seq<Word>)
    requires off + 4 * n <= |b|
    ensures |w| == n && forall i :: 0 <= i < n ==> w[i] == WordAt(b, off + 4 * i)
  {
    seq(n, i requires 0 <= i < n => WordAt(b, off + 4 * i))
  }

  lemma OneMoreWord(s: seq<Byte>, off: nat, init: seq<Word>, w: Word)
    requires off + 4 * |init| + 4 <= |s| && Words(s, off, |init|) == init && WordAt(s, off + 4 * |init|) == w
    ensures Words(s, off, |init| + 1) == init + [w]
  {
    forall i | 0 <= i < |init|
      ensures Words(s, off, |init| + 1)[i] == init[i]
    {
      assert Words(s, off, |init|)[i] == init[i];
    }
  }

  lemma {:induction false} BodyReadsBack(before: seq<Byte>, data: seq<Word>, after: seq<Byte>)
    ensures Words(before + BytesOf(data) + after, |before|, |data|) == data
  {
    if data != [] {
      var init, w := data[..|data| - 1], data[|data| - 1];
      var tail := LittleEndian(w, 4) + after;
      assert before + BytesOf(data) + after == before + BytesOf(init) + tail;
      assert before + BytesOf(data) + after == (before + BytesOf(init)) + LittleEndian(w, 4) + after;
      BodyReadsBack(before, init, tail);
      WordReadsBack(before + BytesOf(init), w, after);
      OneMoreWord(before + BytesOf(data) + after, |before|, init, w);
      assert data == init + [w];
    }
  }

  // ---- the Python reader ----

  // f.read(k) at a position: what is left, at most k.
  function Read(raw: seq<Byte>, pos: nat, k: nat): seq<Byte> {
    if pos >= |raw| then [] else if pos + k <= |raw| then raw[pos..pos + k] else raw[pos..]
  }

  // How a reader takes a name from its field.
  type NameReader = seq<Byte> -> Option<string>

  function PyName(field: seq<Byte>): Option<string> {
    Decoded(StripRight(field))
  }

  function NameStart(k: nat): nat {
    HEADER_SIZE + NAME_BYTES * k
  }

  // The first k names.
  function PyNames(raw: seq<Byte>, read: NameReader, k: nat): Result<seq<string>, Error> {
    if k == 0 then Ok([])
    else
      var before :- PyNames(raw, read, k - 1);
      match read(Read(raw, NameStart(k - 1), NAME_BYTES))
      case Some(s) => Ok(before + [s])
      case None => Err(NotAscii)
  }

  // {nm: body[i * n : (i + 1) * n] for i, nm in enumerate(names)}
  function Sliced(names: seq<string>, body: seq<Word>, n: nat, k: nat): map<string, seq<Word>>
    requires k <= |names| && |body| == n * |names|
  {
    if k == 0 then map[]
    else
      SliceFits(n, k, |names|);
      Sliced(names, body, n, k - 1)[names[k - 1] := body[(k - 1) * n..k * n]]
  }

  lemma SliceFits(n: nat, k: nat, count: nat)
    requires 0 < k <= count
    ensures 0 <= (k - 1) * n <= k * n <= n * count && k * n == (k - 1) * n + n
  {
    MulMonotone(k, count, n);
    MulNonNegative(k - 1, n);
    assert n * count == count * n;
  }

  // What follows the header.
  function PyContents(raw: seq<Byte>, read: NameReader, n: nat, count: nat): Result<map<string, seq<Word>>, Error> {
    var names :- PyNames(raw, read, count);
    MulNonNegative(n, count);
    var body := Read(raw, NameStart(count), 4 * (n * count));
    NamesCounted(raw, read, count);
    if |body| != 4 * (n * count) then Err(TruncatedBody)
    else Ok(Sliced(names, Words(body, 0, n * count), n, |names|))
  }

  lemma {:induction false} NamesCounted(raw: seq<Byte>, read: NameReader, k: nat)
    ensures PyNames(raw, read, k).Ok? ==> |PyNames(raw, read, k).value| == k
  {
    if k > 0 {
      NamesCounted(raw, read, k - 1);
    }
  }

  function PyRead(raw: seq<Byte>): Result<map<string, seq<Word>>, Error> {
    if |raw| < HEADER_SIZE then Err(TruncatedHeader)
    else if WordAt(raw, 0) != MAGIC then Err(BadMagic)
    else if WordAt(raw, 4) != VERSION then Err(BadVersion)
    else PyContents(raw, PyName, WordAt(raw, 8), WordAt(raw, 12))
  }

  class File {
    const raw: seq<Byte>
    var pos: nat

    constructor (raw: seq<Byte>)
      ensures this.raw == raw && pos == 0
    {
      this.raw := raw;
      pos := 0;
    }

    // f.read(k)
    method Next(k: nat) returns (b: seq<Byte>)
      requires pos <= |raw|
      modifies this
      ensures b == Read(raw, old(pos), k) && pos == old(pos) + |b| <= |raw|
    {
      b := Read(raw, pos, k);
      pos := pos + |b|;
    }
  }

  // Past the end there is nothing to read, from wherever it is asked for.
  lemma ReadFromEnd(raw: seq<Byte>, pos: nat, k: nat)
    ensures Read(raw, AtMost(pos, |raw|), k) == Read(raw, pos, k)
    ensures AtMost(pos, |raw|) + |Read(raw, pos, k)| == AtMost(pos + k, |raw|)
  {
  }

  method ReadNames(f: File, read: NameReader, count: nat) returns (r: Result<seq<string>, Error>)
    requires f.pos == HEADER_SIZE <= |f.raw|
    modifies f
    ensures r == PyNames(f.raw, read, count)
    ensures r.Ok? ==> f.pos == AtMost(NameStart(count), |f.raw|)
  {
    var names: seq<string> := [];
    for i := 0 to count
      invariant PyNames(f.raw, read, i) == Ok(names) && f.pos == AtMost(NameStart(i), |f.raw|)
    {
      ReadFromEnd(f.raw, NameStart(i), NAME_BYTES);
      var field := f.Next(NAME_BYTES);
      var name := read(field);
      if name.None? {
        FirstBadName(f.raw, read, i + 1, count);
        return Err(NotAscii);
      }
      names := names + [name.value];
    }
    return Ok(names);
  }

  lemma {:induction false} FirstBadName(raw: seq<Byte>, read: NameReader, i: nat, count: nat)
    requires i <= count && PyNames(raw, read, i).Err?
    ensures PyNames(raw, read, count) == PyNames(raw, read, i)
  {
    if i < count {
      FirstBadName(raw, read, i, count - 1);
    }
  }

  method ReadD1an(f: File) returns (r: Result<map<string, seq<Word>>, Error>)
    requires f.pos == 0
    modifies f
    ensures r == PyRead(f.raw)
  {
    var header := f.Next(HEADER_SIZE);
    if |header| < HEADER_SIZE {
      return Err(TruncatedHeader);
    }
    HeaderIsStart(f.raw);
    if WordAt(header, 0) != MAGIC {
      return Err(BadMagic);
    }
    if WordAt(header, 4) != VERSION {
      return Err(BadVersion);
    }
    r := ReadContents(f, WordAt(header, 8), WordAt(header, 12));
  }

  lemma HeaderIsStart(raw: seq<Byte>)
    requires |raw| >= HEADER_SIZE
    ensures var header := Read(raw, 0, HEADER_SIZE);
            forall off :: 0 <= off <= HEADER_SIZE - 4 ==> WordAt(header, off) == WordAt(raw, off)
  {
  }

  method ReadContents(f: File, n: nat, count: nat) returns (r: Result<map<string, seq<Word>>, Error>)
    requires f.pos == HEADER_SIZE <= |f.raw|
    modifies f
    ensures r == PyContents(f.raw, PyName, n, count)
  {
    var names :- ReadNames(f, PyName, count);
    MulNonNegative(n, count);
    ReadFromEnd(f.raw, NameStart(count), 4 * (n * count));
    var body := f.Next(4 * (n * count));
    NamesCounted(f.raw, PyName, count);
    if |body| != 4 * (n * count) {
      return Err(TruncatedBody);
    }
    return Ok(Sliced(names, Words(body, 0, n * count), n, count));
  }

  // ---- the browser reader ----

  function TsName(high: Byte -> char): seq<Byte> -> string {
    (field: seq<Byte>) => Lenient(UpToNul(field), high)
  }

  function TsNames(buf: seq<Byte>, name: seq<Byte> -> string, k: nat): (names: seq<string>)
    requires NameStart(k) <= |buf|
    ensures |names| == k
  {
    if k == 0 then [] else TsNames(buf, name, k - 1) + [name(buf[NameStart(k - 1)..NameStart(k)])]
  }

  // columns[names[i]] = new Float32Array(buf, off, n)
  function TsColumns(buf: seq<Byte>, names: seq<string>, off: nat, n: nat, k: nat, keys: Keys): Option<Object<Word>>
    requires k <= |names| && off + 4 * (n * |names|) <= |buf|
  {
    if k == 0 then Some(Empty())
    else
      SliceFits(n, k, |names|);
      Then(TsColumns(buf, names, off, n, k - 1, keys), names[k - 1], Words(buf, off + 4 * ((k - 1) * n), n), keys)
  }

  function FromObject(n: nat, o: Option<Object<Word>>): Result<(nat, map<string, seq<Word>>), Error> {
    if o.Some? then Ok((n, o.value.own)) else Err(ReadOnly)
  }

  // What follows the header.
  function TsContents(buf: seq<Byte>, name: seq<Byte> -> string, n: nat, count: nat, keys: Keys)
    : Result<(nat, map<string, seq<Word>>), Error>
  {
    MulNonNegative(n, count);
    if |buf| < NameStart(count) then Err(OutOfRange)
    else if |buf| < NameStart(count) + 4 * (n * count) then Err(TruncatedBody)
    else FromObject(n, TsColumns(buf, TsNames(buf, name, count), NameStart(count), n, count, keys))
  }

  function TsRead(buf: seq<Byte>, high: Byte -> char, keys: Keys): Result<(nat, map<string, seq<Word>>), Error> {
    if |buf| < HEADER_SIZE then Err(TruncatedHeader)
    else if WordAt(buf, 0) != MAGIC then Err(BadMagic)
    else if WordAt(buf, 4) != VERSION then Err(BadVersion)
    else TsContents(buf, TsName(high), WordAt(buf, 8), WordAt(buf, 12), keys)
  }

  method ParseNames(buf: seq<Byte>, name: seq<Byte> -> string, count: nat) returns (r: Result<seq<string>, Error>, off: nat)
    requires |buf| >= HEADER_SIZE
    ensures r.Ok? <==> NameStart(count) <= |buf|
    ensures r.Ok? ==> off == NameStart(count) && r.value == TsNames(buf, name, count)
    ensures r.Err? ==> r.error == OutOfRange
  {
    var names: seq<string> := [];
    off := HEADER_SIZE;
    for i := 0 to count
      invariant off == NameStart(i) <= |buf| && names == TsNames(buf, name, i)
    {
      if off + NAME_BYTES > |buf| {
        return Err(OutOfRange), off;
      }
      names := names + [name(buf[off..off + NAME_BYTES])];
      off := off + NAME_BYTES;
    }
    r := Ok(names);
  }

  lemma {:induction false} RefusedForGood(buf: seq<Byte>, names: seq<string>, off: nat, n: nat, i: nat, k: nat, keys: Keys)
    requires i <= k <= |names| && off + 4 * (n * |names|) <= |buf|
    requires TsColumns(buf, names, off, n, i, keys).None?
    ensures TsColumns(buf, names, off, n, k, keys).None?
  {
    if i < k {
      RefusedForGood(buf, names, off, n, i, k - 1, keys);
    }
  }

  predicate StartsColumn(off: nat, start: nat, n: nat, i: nat) {
    off == start + 4 * (i * n)
  }

  lemma NextColumn(buf: seq<Byte>, names: seq<string>, start: nat, n: nat, i: nat, off: nat, keys: Keys)
    requires start + 4 * (n * |names|) <= |buf| && i < |names| && StartsColumn(off, start, n, i)
    ensures StartsColumn(off + n * 4, start, n, i + 1) && off + 4 * n <= |buf|
    ensures TsColumns(buf, names, start, n, i + 1, keys) ==
            Then(TsColumns(buf, names, start, n, i, keys), names[i], Words(buf, off, n), keys)
  {
    SliceFits(n, i + 1, |names|);
  }

  // Views of n words that start at multiples of 4 and end within the buffer.
  predicate ViewsFit(offsets: seq<nat>, n: nat, size: nat) {
    forall k :: 0 <= k < |offsets| ==> offsets[k] % 4 == 0 && offsets[k] + 4 * n <= size
  }

  method ParseColumns(buf: seq<Byte>, names: seq<string>, start: nat, n: nat, keys: Keys)
    returns (columns: Option<Object<Word>>, offsets: seq<nat>)
    requires start + 4 * (n * |names|) <= |buf| && start % 4 == 0
    ensures columns == TsColumns(buf, names, start, n, |names|, keys)
    ensures columns.Some? ==> |offsets| == |names|
    ensures ViewsFit(offsets, n, |buf|)
  {
    columns, offsets := Some(Empty()), [];
    var off: nat := start;
    for i := 0 to |names|
      invariant StartsColumn(off, start, n, i) && off % 4 == 0
      invariant columns.Some? && columns == TsColumns(buf, names, start, n, i, keys)
      invariant |offsets| == i && ViewsFit(offsets, n, |buf|)
    {
      NextColumn(buf, names, start, n, i, off, keys);
      offsets := offsets + [off];
      columns := Assign(columns.value, names[i], Words(buf, off, n), keys);
      if columns.None? {
        RefusedForGood(buf, names, start, n, i + 1, |names|, keys);
        return;
      }
      off := off + n * 4;
    }
  }

  // Every view the browser opens starts at a multiple of 4 and ends within the buffer.
  method ParseD1an(buf: seq<Byte>, high: Byte -> char, keys: Keys)
    returns (r: Result<(nat, map<string, seq<Word>>), Error>, offsets: seq<nat>)
    ensures r == TsRead(buf, high, keys)
    ensures r.Ok? ==> |offsets| == WordAt(buf, 12)
    ensures r.Ok? ==> forall i :: 0 <= i < |offsets| ==> offsets[i] % 4 == 0 && offsets[i] + 4 * r.value.0 <= |buf|
  {
    if |buf| < HEADER_SIZE {
      return Err(TruncatedHeader), [];
    }
    if WordAt(buf, 0) != MAGIC {
      return Err(BadMagic), [];
    }
    if WordAt(buf, 4) != VERSION {
      return Err(BadVersion), [];
    }
    var n: nat, count: nat := WordAt(buf, 8), WordAt(buf, 12);
    r, offsets := ParseContents(buf, TsName(high), n, count, keys);
  }

  method ParseContents(buf: seq<Byte>, name: seq<Byte> -> string, n: nat, count: nat, keys: Keys)
    returns (r: Result<(nat, map<string, seq<Word>>), Error>, offsets: seq<nat>)
    requires |buf| >= HEADER_SIZE
    ensures r == TsContents(buf, name, n, count, keys)
    ensures r.Ok? ==> r.value.0 == n && |offsets| == count
    ensures r.Ok? ==> forall i :: 0 <= i < |offsets| ==> offsets[i] % 4 == 0 && offsets[i] + 4 * n <= |buf|
  {
    var names, off := ParseNames(buf, name, count);
    if names.Err? {
      return Err(OutOfRange), [];
    }
    MulNonNegative(n, count);
    if |buf| < off + 4 * (n * count) {
      return Err(TruncatedBody), [];
    }
    var columns;
    columns, offsets := ParseColumns(buf, names.value, off, n, keys);
    r := FromObject(n, columns);
  }

  // ---- the round trip ----

  // Column by column, later ones over earlier ones of the same name.
  function AsMap(columns: seq<Column>): map<string, seq<Word>> {
    if columns == [] then map[]
    else AsMap(columns[..|columns| - 1])[columns[|columns| - 1].name := columns[|columns| - 1].data]
  }

  // The object the browser collects them in, none where an assignment throws.
  function Held(columns: seq<Column>, keys: Keys): Option<Object<Word>> {
    if columns == [] then Some(Empty())
    else
      Then(Held(columns[..|columns| - 1], keys), columns[|columns| - 1].name, columns[|columns| - 1].data, keys)
  }

  predicate Clean(c: Column, n: nat) {
    Writable(c) && |c.data| == n && forall i :: 0 <= i < |c.name| ==> c.name[i] as int != 0
  }

  lemma {:induction false} BodiesLength(columns: seq<Column>, n: nat)
    requires forall i :: 0 <= i < |columns| ==> |columns[i].data| == n
    ensures |Bodies(columns)| == 4 * (|columns| * n)
  {
    if columns != [] {
      BodiesLength(columns[..|columns| - 1], n);
      SliceFits(n, |columns|, |columns|);
    }
  }

  // The k-th name field and the k-th body sit where the readers look.
  lemma {:induction false} NameAt(columns: seq<Column>, k: nat)
    requires k < |columns| && forall i :: 0 <= i < |columns| ==> Writable(columns[i])
    ensures NameFields(columns)[NAME_BYTES * k..NAME_BYTES * (k + 1)] == NameField(columns[k].name)
  {
    var init := columns[..|columns| - 1];
    if k < |init| {
      NameAt(init, k);
      assert NameFields(columns)[NAME_BYTES * k..NAME_BYTES * (k + 1)] == NameFields(init)[NAME_BYTES * k..NAME_BYTES * (k + 1)];
    }
  }

  // The bodies of the columns from the k-th on.
  ghost function BodiesFrom(columns: seq<Column>, k: nat): seq<Byte>
    requires k <= |columns|
  {
    if k == |columns| then [] else BodiesFrom(columns[..|columns| - 1], k) + BytesOf(columns[|columns| - 1].data)
  }

  lemma {:induction false} BodyAt(columns: seq<Column>, k: nat)
    requires k < |columns|
    ensures Bodies(columns) == Bodies(columns[..k]) + BytesOf(columns[k].data) + BodiesFrom(columns, k + 1)
  {
    if k < |columns| - 1 {
      var init := columns[..|columns| - 1];
      BodyAt(init, k);
      assert init[..k] == columns[..k];
    }
  }

  lemma HeaderReadsBack(n: Word, count: Word, rest: seq<Byte>)
    ensures var raw := Header(n, count) + rest;
            WordAt(raw, 0) == MAGIC && WordAt(raw, 4) == VERSION && WordAt(raw, 8) == n && WordAt(raw, 12) == count
  {
    var raw := Header(n, count) + rest;
    var a, b, c, d := LittleEndian(MAGIC, 4), LittleEndian(VERSION, 4), LittleEndian(n, 4), LittleEndian(count, 4);
    assert raw == [] + a + (b + c + d + rest);
    WordReadsBack([], MAGIC, b + c + d + rest);
    assert raw == a + b + (c + d + rest);
    WordReadsBack(a, VERSION, c + d + rest);
    assert raw == (a + b) + c + (d + rest);
    WordReadsBack(a + b, n, d + rest);
    assert raw == (a + b + c) + d + rest;
    WordReadsBack(a + b + c, count, rest);
  }

  function Names(columns: seq<Column>): (names: seq<string>)
    ensures |names| == |columns| && forall i :: 0 <= i < |columns| ==> names[i] == columns[i].name
  {
    seq(|columns|, i requires 0 <= i < |columns| => columns[i].name)
  }

  ghost predicate AllClean(columns: seq<Column>, n: nat) {
    forall i :: 0 <= i < |columns| ==> Clean(columns[i], n)
  }

  lemma FieldReadsBack(name: string, high: Byte -> char)
    requires IsAscii(name) && |name| <= NAME_BYTES && (forall i :: 0 <= i < |name| ==> name[i] as int != 0)
    ensures PyName(NameField(name)) == Some(name) && TsName(high)(NameField(name)) == name
  {
    FieldHoldsName(name);
    AsciiDecodes(name, high);
  }

  lemma Middle(a: seq<Byte>, b: seq<Byte>, c: seq<Byte>, lo: nat, hi: nat)
    requires lo <= hi <= |b|
    ensures (a + b + c)[|a| + lo..|a| + hi] == b[lo..hi]
    ensures Read(a + b + c, |a| + lo, hi - lo) == b[lo..hi]
  {
  }

  // The k-th name field of a written file.
  lemma FieldInFile(columns: seq<Column>, head: seq<Byte>, f: seq<Byte>, rest: seq<Byte>, k: nat)
    requires |head| == HEADER_SIZE && k < |columns| && forall i :: 0 <= i < |columns| ==> Writable(columns[i])
    requires f == NameFields(columns)
    ensures (head + f + rest)[NameStart(k)..NameStart(k + 1)] == NameField(columns[k].name)
    ensures Read(head + f + rest, NameStart(k), NAME_BYTES) == NameField(columns[k].name)
  {
    NameAt(columns, k);
    Placed(head, f, rest, k, NameField(columns[k].name));
  }

  lemma Placed(head: seq<Byte>, f: seq<Byte>, rest: seq<Byte>, k: nat, field: seq<Byte>)
    requires |head| == HEADER_SIZE && NAME_BYTES * (k + 1) <= |f| && f[NAME_BYTES * k..NAME_BYTES * (k + 1)] == field
    ensures (head + f + rest)[NameStart(k)..NameStart(k + 1)] == field
    ensures Read(head + f + rest, NameStart(k), NAME_BYTES) == field
  {
    Middle(head, f, rest, NAME_BYTES * k, NAME_BYTES * (k + 1));
  }

  // Both readers find every name.
  ghost predicate FindsNames(raw: seq<Byte>, read: NameReader, name: seq<Byte> -> string, names: seq<string>) {
    && NameStart(|names|) <= |raw|
    && forall k :: 0 <= k < |names| ==> FindsName(raw, read, name, k, names[k])
  }

  ghost predicate FindsName(raw: seq<Byte>, read: NameReader, name: seq<Byte> -> string, k: nat, text: string) {
    && NameStart(k + 1) <= |raw|
    && read(Read(raw, NameStart(k), NAME_BYTES)) == Some(text)
    && name(raw[NameStart(k)..NameStart(k + 1)]) == text
  }

  lemma FileNamesFound(columns: seq<Column>, n: nat, head: seq<Byte>, rest: seq<Byte>, high: Byte -> char)
    requires |head| == HEADER_SIZE && AllClean(columns, n) && forall i :: 0 <= i < |columns| ==> Writable(columns[i])
    ensures FindsNames(head + NameFields(columns) + rest, PyName, TsName(high), Names(columns))
  {
    var raw := head + NameFields(columns) + rest;
    forall k | 0 <= k < |columns|
      ensures FindsName(raw, PyName, TsName(high), k, Names(columns)[k])
    {
      NameFound(columns, n, head, NameFields(columns), rest, high, k);
    }
  }

  lemma NameFound(columns: seq<Column>, n: nat, head: seq<Byte>, f: seq<Byte>, rest: seq<Byte>, high: Byte -> char, k: nat)
    requires |head| == HEADER_SIZE && AllClean(columns, n) && k < |columns| && forall i :: 0 <= i < |columns| ==> Writable(columns[i])
    requires f == NameFields(columns)
    ensures FindsName(head + f + rest, PyName, TsName(high), k, columns[k].name)
  {
    FieldInFile(columns, head, f, rest, k);
    assert Clean(columns[k], n);
    FieldReadsBack(columns[k].name, high);
  }

  lemma {:induction false} NamesReadBack(raw: seq<Byte>, read: NameReader, name: seq<Byte> -> string, names: seq<string>, k: nat)
    requires FindsNames(raw, read, name, names) && k <= |names|
    ensures PyNames(raw, read, k) == Ok(names[..k]) && TsNames(raw, name, k) == names[..k]
  {
    if k > 0 {
      NamesReadBack(raw, read, name, names, k - 1);
      assert names[..k] == names[..k - 1] + [names[k - 1]];
      assert FindsName(raw, read, name, k - 1, names[k - 1]);
    }
  }

  // The k-th body, wherever the bodies start.
  lemma BodyInFile(before: seq<Byte>, columns: seq<Column>, n: nat, k: nat)
    requires AllClean(columns, n) && k < |columns|
    ensures |Bodies(columns)| == 4 * (n * |columns|)
    ensures 0 <= k * n && k * n + n <= n * |columns|
    ensures Words(before + Bodies(columns), |before| + 4 * (k * n), n) == columns[k].data
  {
    CommutedLength(columns, n);
    PrefixLength(columns, n, k);
    SliceFits(n, k + 1, |columns|);
    assert Clean(columns[k], n);
    BodyAfter(before, columns, k, |before| + 4 * (k * n));
  }

  lemma BodyAfter(before: seq<Byte>, columns: seq<Column>, k: nat, off: nat)
    requires k < |columns| && off == |before| + |Bodies(columns[..k])|
    ensures off + 4 * |columns[k].data| <= |before + Bodies(columns)|
    ensures Words(before + Bodies(columns), off, |columns[k].data|) == columns[k].data
  {
    BodyAt(columns, k);
    Regroup(before, Bodies(columns[..k]), BytesOf(columns[k].data), BodiesFrom(columns, k + 1));
    BodyReadsBack(before + Bodies(columns[..k]), columns[k].data, BodiesFrom(columns, k + 1));
  }

  lemma Regroup(a: seq<Byte>, b: seq<Byte>, c: seq<Byte>, d: seq<Byte>)
    ensures a + (b + c + d) == a + b + c + d
  {
  }

  lemma NothingBefore(b: seq<Byte>)
    ensures [] + b == b
  {
  }

  lemma PrefixLength(columns: seq<Column>, n: nat, k: nat)
    requires AllClean(columns, n) && k <= |columns|
    ensures |Bodies(columns[..k])| == 4 * (k * n)
  {
    assert forall i :: 0 <= i < k ==> Clean(columns[i], n);
    BodiesLength(columns[..k], n);
  }

  lemma CommutedLength(columns: seq<Column>, n: nat)
    requires AllClean(columns, n)
    ensures |Bodies(columns)| == 4 * (n * |columns|)
  {
    assert forall i :: 0 <= i < |columns| ==> Clean(columns[i], n);
    BodiesLength(columns, n);
    assert n * |columns| == |columns| * n;
  }

  lemma {:induction false} ColumnsReadBack(before: seq<Byte>, columns: seq<Column>, n: nat, k: nat, keys: Keys)
    requires AllClean(columns, n) && k <= |columns|
    requires |before| + 4 * (n * |columns|) <= |before + Bodies(columns)|
    ensures TsColumns(before + Bodies(columns), Names(columns), |before|, n, k, keys) == Held(columns[..k], keys)
  {
    if k > 0 {
      ColumnsReadBack(before, columns, n, k - 1, keys);
      BodyInFile(before, columns, n, k - 1);
      NextColumn(before + Bodies(columns), Names(columns), |before|, n, k - 1, |before| + 4 * ((k - 1) * n), keys);
      HeldMore(columns, k, keys);
    }
  }

  lemma HeldMore(columns: seq<Column>, k: nat, keys: Keys)
    requires 0 < k <= |columns|
    ensures Held(columns[..k], keys) == Then(Held(columns[..k - 1], keys), columns[k - 1].name, columns[k - 1].data, keys)
  {
    assert columns[..k][..k - 1] == columns[..k - 1];
  }

  lemma WordsSlice(b: seq<Byte>, total: nat, lo: nat, n: nat)
    requires 4 * total <= |b| && lo + n <= total
    ensures Words(b, 0, total)[lo..lo + n] == Words(b, 4 * lo, n)
  {
  }

  lemma SliceReadsBack(columns: seq<Column>, n: nat, k: nat)
    requires AllClean(columns, n) && k < |columns| && |Bodies(columns)| == 4 * (n * |columns|)
    ensures 0 <= k * n && k * n + n <= n * |columns|
    ensures Words(Bodies(columns), 0, n * |columns|)[k * n..k * n + n] == columns[k].data
  {
    BodyFromStart(columns, n, k);
    WordsSlice(Bodies(columns), n * |columns|, k * n, n);
  }

  lemma BodyFromStart(columns: seq<Column>, n: nat, k: nat)
    requires AllClean(columns, n) && k < |columns|
    ensures |Bodies(columns)| == 4 * (n * |columns|)
    ensures 0 <= k * n && k * n + n <= n * |columns|
    ensures Words(Bodies(columns), 4 * (k * n), n) == columns[k].data
  {
    BodyInFile([], columns, n, k);
    NothingBefore(Bodies(columns));
  }

  lemma {:induction false} SlicesReadBack(columns: seq<Column>, n: nat, k: nat)
    requires AllClean(columns, n) && k <= |columns| && |Bodies(columns)| == 4 * (n * |columns|)
    ensures Sliced(Names(columns), Words(Bodies(columns), 0, n * |columns|), n, k) == AsMap(columns[..k])
  {
    if k > 0 {
      SlicesReadBack(columns, n, k - 1);
      SliceFits(n, k, |columns|);
      SliceReadsBack(columns, n, k - 1);
      assert columns[..k][..k - 1] == columns[..k - 1];
    }
  }

  lemma PyAssembles(raw: seq<Byte>, read: NameReader, n: nat, count: nat, names: seq<string>, body: seq<Byte>)
    requires PyNames(raw, read, count) == Ok(names) && |names| == count
    requires n * count >= 0 && Read(raw, NameStart(count), 4 * (n * count)) == body && |body| == 4 * (n * count)
    ensures PyContents(raw, read, n, count) == Ok(Sliced(names, Words(body, 0, n * count), n, count))
  {
  }

  lemma PyReadsBack(raw: seq<Byte>, head: seq<Byte>, columns: seq<Column>, n: nat, read: NameReader, name: seq<Byte> -> string)
    requires AllClean(columns, n) && FindsNames(raw, read, name, Names(columns))
    requires raw == head + Bodies(columns) && |head| == NameStart(|columns|)
    ensures PyContents(raw, read, n, |columns|) == Ok(AsMap(columns))
  {
    NamesReadBack(raw, read, name, Names(columns), |columns|);
    assert Names(columns)[..|columns|] == Names(columns) && columns[..|columns|] == columns;
    CommutedLength(columns, n);
    MulNonNegative(n, |columns|);
    ReadsRest(head, Bodies(columns));
    PyAssembles(raw, read, n, |columns|, Names(columns), Bodies(columns));
    SlicesReadBack(columns, n, |columns|);
  }

  lemma ReadsRest(head: seq<Byte>, rest: seq<Byte>)
    ensures Read(head + rest, |head|, |rest|) == rest
  {
  }

  lemma TsReadsBack(raw: seq<Byte>, head: seq<Byte>, columns: seq<Column>, n: nat, read: NameReader, name: seq<Byte> -> string,
                    keys: Keys)
    requires AllClean(columns, n) && FindsNames(raw, read, name, Names(columns))
    requires raw == head + Bodies(columns) && |head| == NameStart(|columns|)
    ensures TsContents(raw, name, n, |columns|, keys) == FromObject(n, Held(columns, keys))
  {
    NamesReadBack(raw, read, name, Names(columns), |columns|);
    CommutedLength(columns, n);
    ColumnsReadBack(head, columns, n, |columns|, keys);
    assert Names(columns)[..|columns|] == Names(columns) && columns[..|columns|] == columns;
  }

  lemma WriterAccepts(columns: seq<Column>)
    requires 0 < |columns| < W && |columns[0].data| < W && AllClean(columns, |columns[0].data|)
    ensures forall i :: 0 <= i < |columns| ==> Writable(columns[i])
    ensures D1anBytes(columns) == Ok(Header(|columns[0].data|, |columns|) + NameFields(columns) + Bodies(columns))
  {
    CheckedAreWritable(columns);
    forall i | 0 <= i < |columns|
      ensures Writable(columns[i]) && |columns[i].data| == |columns[0].data|
    {
      assert Clean(columns[i], |columns[0].data|);
    }
  }

  lemma ReadersFollowHeader(raw: seq<Byte>, high: Byte -> char, n: Word, count: Word, keys: Keys)
    requires |raw| >= HEADER_SIZE && WordAt(raw, 0) == MAGIC && WordAt(raw, 4) == VERSION
    requires WordAt(raw, 8) == n && WordAt(raw, 12) == count
    ensures PyRead(raw) == PyContents(raw, PyName, n, count)
    ensures TsRead(raw, high, keys) == TsContents(raw, TsName(high), n, count, keys)
  {
  }

  // For every non-empty list of equal-length columns with NUL-free ASCII names that fit, the Python reader
  // recovers exactly what was written, and the browser's what a plain object holds of it. Distinct names then
  // give one entry each (AsMapKeepsAll).
  lemma RoundTrip(columns: seq<Column>, high: Byte -> char, keys: Keys)
    requires 0 < |columns| < W && |columns[0].data| < W && AllClean(columns, |columns[0].data|)
    ensures D1anBytes(columns).Ok?
    ensures PyRead(D1anBytes(columns).value) == Ok(AsMap(columns))
    ensures TsRead(D1anBytes(columns).value, high, keys) == FromObject(|columns[0].data|, Held(columns, keys))
  {
    var n, count := |columns[0].data|, |columns|;
    WriterAccepts(columns);
    var fields, bodies := NameFields(columns), Bodies(columns);
    var head := Header(n, count) + fields;
    assert head + bodies == Header(n, count) + (fields + bodies);
    HeaderReadsBack(n, count, fields + bodies);
    ReadersFollowHeader(head + bodies, high, n, count, keys);
    FileNamesFound(columns, n, Header(n, count), bodies, high);
    PyReadsBack(head + bodies, head, columns, n, PyName, TsName(high));
    TsReadsBack(head + bodies, head, columns, n, PyName, TsName(high), keys);
  }

  // ---- what a plain object holds ----

  // The name is first listed after a column called __proto__.
  predicate Late(columns: seq<Column>, name: string) {
    exists k :: 0 <= k < |columns| && columns[k].name == name && name !in AsMap(columns[..k]) && PROTO in AsMap(columns[..k])
  }

  // Columns the object does not hold: __proto__, and numbers that are first listed after it and no index.
  predicate Lost(columns: seq<Column>, n: nat, name: string, keys: Keys) {
    IsLost(Late(columns, name), n, name, keys)
  }

  predicate IsLost(late: bool, n: nat, name: string, keys: Keys) {
    name == PROTO || (late && name !in READ_ONLY && PastTheEnd(keys(name), n))
  }

  lemma LateMore(columns: seq<Column>, name: string)
    requires columns != []
    ensures var init, last := columns[..|columns| - 1], columns[|columns| - 1];
      Late(columns, name) <==> Late(init, name) || (last.name == name && name !in AsMap(init) && PROTO in AsMap(init))
  {
    var init := columns[..|columns| - 1];
    assert forall k :: 0 <= k < |init| ==> init[k] == columns[k] && init[..k] == columns[..k];
  }

  lemma {:induction false} LateIsListed(columns: seq<Column>, name: string)
    ensures Late(columns, name) ==> name in AsMap(columns) && PROTO in AsMap(columns)
  {
    if columns != [] {
      LateIsListed(columns[..|columns| - 1], name);
      LateMore(columns, name);
    }
  }

  // The object's own entries are the columns written, the lost ones apart.
  ghost predicate Keeps(columns: seq<Column>, n: nat, o: Object<Word>, keys: Keys) {
    && o.prototype == (if PROTO in AsMap(columns) then Some(n) else None)
    && (forall name :: name in o.own <==> name in AsMap(columns) && !Lost(columns, n, name, keys))
    && forall name :: name in o.own ==> o.own[name] == AsMap(columns)[name]
  }

  // One more assignment, seen from one name.
  lemma AssignName(o: Object<Word>, r: Object<Word>, m: map<string, seq<Word>>, last: Column, n: nat, keys: Keys,
                   name: string, late: bool, later: bool)
    requires Assign(o, last.name, last.data, keys) == Some(r) && o.prototype == if PROTO in m then Some(n) else None
    requires name in o.own <==> name in m && !IsLost(late, n, name, keys)
    requires name in o.own ==> o.own[name] == m[name]
    requires late ==> name in m && PROTO in m
    requires later <==> late || (last.name == name && name !in m && PROTO in m)
    requires last.name in o.own ==> last.name in m
    ensures name in r.own <==> name in m[last.name := last.data] && !IsLost(later, n, name, keys)
    ensures name in r.own ==> r.own[name] == m[last.name := last.data][name]
  {
  }

  lemma AssignKeeps(columns: seq<Column>, n: nat, o: Object<Word>, r: Object<Word>, keys: Keys)
    requires columns != [] && |columns[|columns| - 1].data| == n && Keeps(columns[..|columns| - 1], n, o, keys)
    requires Assign(o, columns[|columns| - 1].name, columns[|columns| - 1].data, keys) == Some(r)
    ensures Keeps(columns, n, r, keys)
  {
    var init, last := columns[..|columns| - 1], columns[|columns| - 1];
    forall name
      ensures name in r.own <==> name in AsMap(columns) && !Lost(columns, n, name, keys)
      ensures name in r.own ==> r.own[name] == AsMap(columns)[name]
    {
      LateMore(columns, name);
      LateIsListed(init, name);
      AssignName(o, r, AsMap(init), last, n, keys, name, Late(init, name), Late(columns, name));
    }
  }

  // It throws exactly for a read-only name first listed now, after a __proto__.
  lemma AssignRefuses(columns: seq<Column>, n: nat, o: Object<Word>, keys: Keys)
    requires columns != [] && Keeps(columns[..|columns| - 1], n, o, keys)
    requires forall name :: name in READ_ONLY ==> !Late(columns[..|columns| - 1], name)
    ensures Assign(o, columns[|columns| - 1].name, columns[|columns| - 1].data, keys).None?
      <==> exists name :: name in READ_ONLY && Late(columns, name)
  {
    var last := columns[|columns| - 1];
    LateMore(columns, last.name);
    forall name | name in READ_ONLY && Late(columns, name)
      ensures name == last.name
    {
      LateMore(columns, name);
    }
  }

  /**
   The browser's object, exactly: an assignment throws if and only if one of the read-only names is first listed
   after a column called __proto__; otherwise every column is held as written but the lost ones.
   */
  lemma {:induction false} HeldExactly(columns: seq<Column>, n: nat, keys: Keys)
    requires forall i :: 0 <= i < |columns| ==> |columns[i].data| == n
    ensures Held(columns, keys).None? <==> exists name :: name in READ_ONLY && Late(columns, name)
    ensures Held(columns, keys).Some? ==> Keeps(columns, n, Held(columns, keys).value, keys)
  {
    if columns != [] {
      var init, last := columns[..|columns| - 1], columns[|columns| - 1];
      HeldExactly(init, n, keys);
      if Held(init, keys).Some? {
        var o := Held(init, keys).value;
        AssignRefuses(columns, n, o, keys);
        if Assign(o, last.name, last.data, keys).Some? {
          AssignKeeps(columns, n, o, Assign(o, last.name, last.data, keys).value, keys);
        }
      } else {
        var name :| name in READ_ONLY && Late(init, name);
        LateMore(columns, name);
      }
    }
  }

  // The browser recovers everything if and only if no column is called __proto__.
  lemma BrowserKeepsAllExactly(columns: seq<Column>, n: nat, keys: Keys)
    requires forall i :: 0 <= i < |columns| ==> |columns[i].data| == n
    ensures (Held(columns, keys).Some? && Held(columns, keys).value.own == AsMap(columns)) <==> PROTO !in AsMap(columns)
  {
    HeldExactly(columns, n, keys);
    if PROTO !in AsMap(columns) {
      forall name
        ensures !Late(columns, name)
      {
        LateIsListed(columns, name);
      }
    }
  }

  // A column of another name that throws, and one that is dropped.
  lemma LaterNamesSuffer(n: nat, data: seq<Word>, keys: Keys)
    requires |data| == n && keys("7") == Element(7) && n <= 7
    ensures Held([Column(PROTO, data), Column("length", data)], keys).None?
    ensures Held([Column(PROTO, data), Column("7", data)], keys) == Some(Object(map[], Some(n)))
  {
    var proto := Column(PROTO, data);
    assert [proto, Column("length", data)][..1] == [proto] == [proto, Column("7", data)][..1] && [proto][..0] == [];
    assert Held([proto], keys) == Some(Object(map[], Some(n)));
  }

  lemma {:induction false} AsMapKeepsAll(columns: seq<Column>, k: nat)
    requires k < |columns| && forall i, j :: 0 <= i < j < |columns| ==> columns[i].name != columns[j].name
    ensures columns[k].name in AsMap(columns) && AsMap(columns)[columns[k].name] == columns[k].data
  {
    if k < |columns| - 1 {
      AsMapKeepsAll(columns[..|columns| - 1], k);
    }
  }
}
