/**
 * The byte-level codec the A2S decoders stand on: little-endian integers, a
 * cursor reader over a fixed byte sequence, and an append-only builder.
 *
 * The Go code imports its reader and builder from a package that is not part
 * of this model, so these are this model's own definitions. The reader is a
 * value (the bytes plus a cursor); every read checks its bounds and yields
 * None when the bytes run out, rather than a zero value.
 */
module Packet {
  import opened Wrappers

  type byte = x: int | 0 <= x < 0x100
  type uint16 = x: int | 0 <= x < 0x1_0000
  type uint32 = x: int | 0 <= x < 0x1_0000_0000
  type int32 = x: int | -0x8000_0000 <= x < 0x8000_0000

  /** A wire string: the raw bytes of a Go string, without any character decoding. */
  type Text = seq<byte>

  predicate NoNul(s: Text) {
    forall i :: 0 <= i < |s| ==> s[i] != 0
  }

  // ---------------------------------------------------------------- integers

  /** The value of four bytes read least significant first. */
  function LeUint32(b: seq<byte>): uint32
    requires |b| == 4
  {
    b[0] as int + 0x100 * (b[1] as int + 0x100 * (b[2] as int + 0x100 * b[3] as int))
  }

  /** Byte `i` of the little-endian encoding of `x`. */
  function LeByte(x: uint32, i: nat): byte
    requires i < 4
  {
    var q1 := x / 0x100;
    var q2 := q1 / 0x100;
    if i == 0 then x % 0x100
    else if i == 1 then q1 % 0x100
    else if i == 2 then q2 % 0x100
    else q2 / 0x100
  }

  /** The four little-endian bytes of `x`. */
  function LeBytes(x: uint32): (b: seq<byte>)
    ensures |b| == 4
  {
    seq(4, i requires 0 <= i < 4 => LeByte(x, i))
  }

  lemma LeBytesDecode(x: uint32)
    ensures LeUint32(LeBytes(x)) == x
  {
    var b := LeBytes(x);
    var q1 := x / 0x100;
    var q2 := q1 / 0x100;
    var q3 := q2 / 0x100;
    assert x == x % 0x100 + 0x100 * q1;
    assert q1 == q1 % 0x100 + 0x100 * q2;
    assert q2 == q2 % 0x100 + 0x100 * q3;
    assert b[0] == x % 0x100 && b[1] == q1 % 0x100 && b[2] == q2 % 0x100 && b[3] == q3;
  }

  lemma LeUint32Encode(b: seq<byte>)
    requires |b| == 4
    ensures LeBytes(LeUint32(b)) == b
  {
    var x := LeUint32(b);
    var q2: int := b[2] as int + 0x100 * b[3] as int;
    var q1: int := b[1] as int + 0x100 * q2;
    assert x == b[0] as int + 0x100 * q1;
    assert x % 0x100 == b[0] && x / 0x100 == q1;
    assert q1 % 0x100 == b[1] && q1 / 0x100 == q2;
    assert q2 % 0x100 == b[2] && q2 / 0x100 == b[3];
    assert LeBytes(x)[0] == b[0] && LeBytes(x)[1] == b[1] && LeBytes(x)[2] == b[2] && LeBytes(x)[3] == b[3];
  }

  /** Go's `int32(u)` for a `uint32` u: the two's-complement reinterpretation. */
  function ToInt32(u: uint32): (v: int32)
    ensures v % 0x1_0000_0000 == u
  {
    if u < 0x8000_0000 then u else u - 0x1_0000_0000
  }

  /**
   * The two header values of the protocol: a little-endian int32 is -1 exactly
   * for the bytes FF FF FF FF, and -2 exactly for FE FF FF FF.
   */
  lemma HeaderValues(b: seq<byte>)
    requires |b| == 4
    ensures ToInt32(LeUint32(b)) == -1 <==> b == [0xFF, 0xFF, 0xFF, 0xFF]
    ensures ToInt32(LeUint32(b)) == -2 <==> b == [0xFE, 0xFF, 0xFF, 0xFF]
  {
    LeUint32Encode(b);
    LeBytesDecode(0xFFFF_FFFF);
    LeBytesDecode(0xFFFF_FFFE);
  }

  // ---------------------------------------------------------------- reader

  /** A cursor over a fixed byte sequence. */
  datatype Reader = Reader(data: seq<byte>, pos: nat)

  /** A value read, and the reader positioned just after it. */
  datatype Read<T> = Read(value: T, rest: Reader)

  function ReadUint8(rd: Reader): (r: Option<Read<byte>>)
    ensures r.Some? <==> rd.pos < |rd.data|
    ensures r.Some? ==> r.value.value == rd.data[rd.pos] && r.value.rest == Reader(rd.data, rd.pos + 1)
  {
    if rd.pos < |rd.data| then Some(Read(rd.data[rd.pos], Reader(rd.data, rd.pos + 1))) else None
  }

  function ReadUint32(rd: Reader): (r: Option<Read<uint32>>)
    ensures r.Some? <==> rd.pos + 4 <= |rd.data|
    ensures r.Some? ==> r.value.value == LeUint32(rd.data[rd.pos..rd.pos + 4])
    ensures r.Some? ==> r.value.rest == Reader(rd.data, rd.pos + 4)
  {
    if rd.pos + 4 <= |rd.data| then
      Some(Read(LeUint32(rd.data[rd.pos..rd.pos + 4]), Reader(rd.data, rd.pos + 4)))
    else None
  }

  function ReadInt32(rd: Reader): (r: Option<Read<int32>>)
    ensures r.Some? <==> rd.pos + 4 <= |rd.data|
    ensures r.Some? ==> r.value.value == ToInt32(LeUint32(rd.data[rd.pos..rd.pos + 4]))
    ensures r.Some? ==> r.value.rest == Reader(rd.data, rd.pos + 4)
  {
    var u :- ReadUint32(rd);
    Some(Read(ToInt32(u.value), u.rest))
  }

  /** The index of a zero byte of `data` at or after `from`, if any; FindNulFirst says it is the first. */
  function FindNul(data: seq<byte>, from: nat): (r: Option<nat>)
    decreases |data| - from
    ensures r.Some? ==> from <= r.value < |data| && data[r.value] == 0
  {
    if from >= |data| then None
    else if data[from] == 0 then Some(from)
    else FindNul(data, from + 1)
  }

  /** FindNul stops at the first zero byte, and finds none only when there is none. */
  lemma {:induction false} FindNulFirst(data: seq<byte>, from: nat)
    decreases |data| - from
    ensures FindNul(data, from).Some? ==> forall j :: from <= j < FindNul(data, from).value ==> data[j] != 0
    ensures FindNul(data, from).None? <==> forall j :: from <= j < |data| ==> data[j] != 0
  {
    if from < |data| && data[from] != 0 {
      FindNulFirst(data, from + 1);
    }
  }

  /** Reads the bytes up to the next zero byte and moves past that zero. */
  function ReadString(rd: Reader): (r: Option<Read<Text>>)
    ensures r.Some? ==>
      var s := r.value.value;
      && rd.pos + |s| < |rd.data|
      && rd.data[rd.pos..rd.pos + |s|] == s
      && rd.data[rd.pos + |s|] == 0
      && r.value.rest == Reader(rd.data, rd.pos + |s| + 1)
  {
    match FindNul(rd.data, rd.pos)
    case None => None
    case Some(i) => Some(Read(rd.data[rd.pos..i], Reader(rd.data, i + 1)))
  }

  /** A string read holds no zero byte, and a read fails exactly when no zero byte follows the cursor. */
  lemma ReadStringSpec(rd: Reader)
    ensures ReadString(rd).None? <==> forall j :: rd.pos <= j < |rd.data| ==> rd.data[j] != 0
    ensures ReadString(rd).Some? ==> NoNul(ReadString(rd).value.value)
  {
    FindNulFirst(rd.data, rd.pos);
    if ReadString(rd).Some? {
      var s := ReadString(rd).value.value;
      assert forall i :: 0 <= i < |s| ==> s[i] == rd.data[rd.pos + i];
    }
  }

  // ---------------------------------------------------------------- builder

  /** Appends raw bytes, as the requests' fixed headers are written. */
  function WriteBytes(buf: seq<byte>, raw: seq<byte>): seq<byte> {
    buf + raw
  }

  /** Appends a string and its zero terminator. */
  function WriteCString(buf: seq<byte>, s: Text): seq<byte> {
    buf + s + [0]
  }

  /** The byte codes of an ASCII string literal. */
  function Ascii(s: string): (b: Text)
    requires forall i :: 0 <= i < |s| ==> s[i] as int < 0x80
    ensures |b| == |s| && forall i :: 0 <= i < |s| ==> b[i] == s[i] as int
  {
    seq(|s|, i requires 0 <= i < |s| => s[i] as int)
  }

  // ---------------------------------------------------------------- round trips

  /** `s` stands at `p`, followed by its zero terminator. */
  predicate StringAt(data: seq<byte>, p: nat, s: Text) {
    p + |s| < |data| && data[p..p + |s|] == s && data[p + |s|] == 0
  }

  /** Reading a string at a cursor where it stands with its terminator. */
  lemma ReadStringAt(rd: Reader, s: Text)
    requires NoNul(s) && StringAt(rd.data, rd.pos, s)
    ensures ReadString(rd) == Some(Read(s, Reader(rd.data, rd.pos + |s| + 1)))
  {
    var end := rd.pos + |s|;
    assert forall j :: rd.pos <= j < end ==> rd.data[j] == rd.data[rd.pos..end][j - rd.pos];
    FindNulFirst(rd.data, rd.pos);
    assert FindNul(rd.data, rd.pos) == Some(end);
  }

  /*
   * Locating an encoding: when the bytes from `p` on are `x` followed by
   * `rest`, `x` stands at `p` and `rest` starts right after it.
   */

  lemma BytesAt(data: seq<byte>, p: nat, x: seq<byte>, rest: seq<byte>)
    requires p <= |data| && data[p..] == x + rest
    ensures p + |x| <= |data| && data[p..p + |x|] == x && data[p + |x|..] == rest
  {
    var tail := data[p..];
    assert data[p..p + |x|] == tail[..|x|];
    assert data[p + |x|..] == tail[|x|..];
  }

  lemma CStringAt(data: seq<byte>, p: nat, s: Text, rest: seq<byte>)
    requires p <= |data| && data[p..] == s + [0] + rest
    ensures StringAt(data, p, s) && data[p + |s| + 1..] == rest
  {
    BytesAt(data, p, s + [0], rest);
    assert data[p..p + |s|] == data[p..p + |s| + 1][..|s|];
    assert data[p + |s|] == data[p..p + |s| + 1][|s|];
  }

  /** Reading back a string the builder wrote, whatever follows it. */
  lemma ReadWrittenString(buf: seq<byte>, s: Text, rest: seq<byte>)
    requires NoNul(s)
    ensures ReadString(Reader(WriteCString(buf, s) + rest, |buf|))
         == Some(Read(s, Reader(WriteCString(buf, s) + rest, |buf| + |s| + 1)))
  {
    var data := WriteCString(buf, s) + rest;
    assert data[|buf|..] == s + [0] + rest;
    CStringAt(data, |buf|, s, rest);
    ReadStringAt(Reader(data, |buf|), s);
  }

  // ---------------------------------------------------------------- field layouts

  /*
   * The replies are fixed sequences of fields, read one after another with
   * the reads above. A layout lists the kinds of the fields in wire order.
   */

  datatype FieldKind = Uint8Field | Uint32Field | StringField

  datatype Field = Uint8Value(b: byte) | Uint32Value(u: uint32) | StringValue(s: Text)

  function KindOf(f: Field): FieldKind {
    match f
    case Uint8Value(_) => Uint8Field
    case Uint32Value(_) => Uint32Field
    case StringValue(_) => StringField
  }

  /** `fs` follows the layout `ks`: field by field, the kinds agree. */
  predicate HasKinds(fs: seq<Field>, ks: seq<FieldKind>) {
    |fs| == |ks| && forall i :: 0 <= i < |fs| ==> KindOf(fs[i]) == ks[i]
  }

  /** The fewest bytes a field of kind `k` takes: a string takes at least its terminator. */
  function MinSize(k: FieldKind): nat {
    match k
    case Uint8Field => 1
    case Uint32Field => 4
    case StringField => 1
  }

  /** The fewest bytes the fields of layout `ks` take together. */
  function LayoutMinSize(ks: seq<FieldKind>): nat
    decreases |ks|
  {
    if ks == [] then 0 else MinSize(ks[0]) + LayoutMinSize(ks[1..])
  }

  /** Reads one field of kind `k`: it has that kind and takes at least MinSize(k) bytes. */
  function ReadField(rd: Reader, k: FieldKind): (r: Option<Read<Field>>)
    ensures r.Some? ==> KindOf(r.value.value) == k
    ensures r.Some? ==> r.value.rest.data == rd.data && rd.pos + MinSize(k) <= r.value.rest.pos <= |rd.data|
  {
    match k
    case Uint8Field =>
      (match ReadUint8(rd) case None => None case Some(b) => Some(Read(Uint8Value(b.value), b.rest)))
    case Uint32Field =>
      (match ReadUint32(rd) case None => None case Some(u) => Some(Read(Uint32Value(u.value), u.rest)))
    case StringField =>
      (match ReadString(rd) case None => None case Some(t) => Some(Read(StringValue(t.value), t.rest)))
  }

  /** Reads the fields of layout `ks` one after another; any short read fails the whole. */
  function ReadFields(rd: Reader, ks: seq<FieldKind>): (r: Option<Read<seq<Field>>>)
    decreases |ks|
    ensures r.Some? ==> r.value.rest.data == rd.data && rd.pos + |ks| <= r.value.rest.pos
    ensures r.Some? && ks != [] ==> r.value.rest.pos <= |rd.data|
  {
    if ks == [] then Some(Read([], rd))
    else
      match ReadField(rd, ks[0])
      case None => None
      case Some(f) =>
        match ReadFields(f.rest, ks[1..])
        case None => None
        case Some(fs) => Some(Read([f.value] + fs.value, fs.rest))
  }

  /** The number of bytes field `f` takes on the wire. */
  function FieldSize(f: Field): nat {
    match f
    case Uint8Value(_) => 1
    case Uint32Value(_) => 4
    case StringValue(s) => |s| + 1
  }

  /** The bytes the builder writes for `f`. */
  function FieldBytes(f: Field): (b: seq<byte>)
    ensures |b| == FieldSize(f)
  {
    match f
    case Uint8Value(b) => [b]
    case Uint32Value(u) => LeBytes(u)
    case StringValue(s) => WriteCString([], s)
  }

  /** The fields `fs` written one after another, followed by `tail`. */
  function FieldsWire(fs: seq<Field>, tail: seq<byte>): seq<byte>
    decreases |fs|
  {
    if fs == [] then tail else WriteBytes(FieldBytes(fs[0]), FieldsWire(fs[1..], tail))
  }

  /** A field the reader can give back: a string must hold no zero byte. */
  predicate Writable(f: Field) {
    f.StringValue? ==> NoNul(f.s)
  }

  predicate AllWritable(fs: seq<Field>) {
    forall i :: 0 <= i < |fs| ==> Writable(fs[i])
  }

  /** The bytes the fields `fs` take on the wire. */
  function FieldsSize(fs: seq<Field>): nat
    decreases |fs|
  {
    if fs == [] then 0 else FieldSize(fs[0]) + FieldsSize(fs[1..])
  }

  /** Field `f` stands at `p`. */
  predicate FieldAt(data: seq<byte>, p: nat, f: Field) {
    match f
    case Uint8Value(b) => p < |data| && data[p] == b
    case Uint32Value(u) => p + 4 <= |data| && LeUint32(data[p..p + 4]) == u
    case StringValue(s) => StringAt(data, p, s)
  }

  /** The fields `fs` stand one after another from `p` on. */
  predicate FieldsAt(data: seq<byte>, p: nat, fs: seq<Field>)
    decreases |fs|
  {
    fs == [] || (FieldAt(data, p, fs[0]) && FieldsAt(data, p + FieldSize(fs[0]), fs[1..]))
  }

  /*
   * Round trips in two steps: the builder puts every field in place, and a
   * field in place reads back. Keeping the steps apart keeps each proof small.
   */

  lemma FieldWireAt(data: seq<byte>, p: nat, f: Field, rest: seq<byte>)
    requires p <= |data| && data[p..] == FieldBytes(f) + rest
    ensures FieldAt(data, p, f) && p + FieldSize(f) <= |data| && data[p + FieldSize(f)..] == rest
  {
    BytesAt(data, p, FieldBytes(f), rest);
    match f
    case Uint8Value(b) =>
    case Uint32Value(u) => LeBytesDecode(u);
    case StringValue(s) => CStringAt(data, p, s, rest);
  }

  lemma {:induction false} FieldsWireAt(data: seq<byte>, p: nat, fs: seq<Field>, tail: seq<byte>)
    requires p <= |data| && data[p..] == FieldsWire(fs, tail)
    ensures FieldsAt(data, p, fs) && p + FieldsSize(fs) <= |data| && data[p + FieldsSize(fs)..] == tail
    decreases |fs|
  {
    if fs != [] {
      FieldWireAt(data, p, fs[0], FieldsWire(fs[1..], tail));
      FieldsWireAt(data, p + FieldSize(fs[0]), fs[1..], tail);
    }
  }

  lemma ReadFieldAt(rd: Reader, f: Field)
    requires Writable(f) && FieldAt(rd.data, rd.pos, f)
    ensures ReadField(rd, KindOf(f)) == Some(Read(f, Reader(rd.data, rd.pos + FieldSize(f))))
  {
    match f
    case Uint8Value(b) =>
    case Uint32Value(u) =>
    case StringValue(s) => ReadStringAt(rd, s);
  }

  /** Each of the fields `fs`, read from `rd` on, gives itself back and ends where the next begins. */
  predicate ReadsBack(rd: Reader, fs: seq<Field>)
    decreases |fs|
  {
    fs == [] ||
    (ReadField(rd, KindOf(fs[0])) == Some(Read(fs[0], Reader(rd.data, rd.pos + FieldSize(fs[0]))))
     && ReadsBack(Reader(rd.data, rd.pos + FieldSize(fs[0])), fs[1..]))
  }

  lemma {:induction false} FieldsReadBack(rd: Reader, fs: seq<Field>)
    requires AllWritable(fs) && FieldsAt(rd.data, rd.pos, fs)
    ensures ReadsBack(rd, fs)
    decreases |fs|
  {
    if fs != [] {
      ReadFieldAt(rd, fs[0]);
      FieldsReadBack(Reader(rd.data, rd.pos + FieldSize(fs[0])), fs[1..]);
    }
  }

  lemma {:induction false} ReadFieldsAt(rd: Reader, fs: seq<Field>, ks: seq<FieldKind>)
    requires HasKinds(fs, ks) && ReadsBack(rd, fs)
    ensures ReadFields(rd, ks) == Some(Read(fs, Reader(rd.data, rd.pos + FieldsSize(fs))))
    decreases |fs|
  {
    if fs != [] {
      var next := Reader(rd.data, rd.pos + FieldSize(fs[0]));
      ReadFieldsAt(next, fs[1..], ks[1..]);
      assert [fs[0]] + fs[1..] == fs;
    }
  }

  /** What a layout read yields follows the layout. */
  lemma {:induction false} ReadFieldsKinds(rd: Reader, ks: seq<FieldKind>)
    decreases |ks|
    ensures ReadFields(rd, ks).Some? ==> HasKinds(ReadFields(rd, ks).value.value, ks)
  {
    if ks != [] && ReadField(rd, ks[0]).Some? {
      ReadFieldsKinds(ReadField(rd, ks[0]).value.rest, ks[1..]);
    }
  }

  /** A layout read takes at least the layout's least size. */
  lemma {:induction false} ReadFieldsMinSize(rd: Reader, ks: seq<FieldKind>)
    decreases |ks|
    ensures ReadFields(rd, ks).Some? ==> rd.pos + LayoutMinSize(ks) <= ReadFields(rd, ks).value.rest.pos
  {
    if ks != [] && ReadField(rd, ks[0]).Some? {
      ReadFieldsMinSize(ReadField(rd, ks[0]).value.rest, ks[1..]);
    }
  }

  /** Round trip for a layout: reading back what was written yields the same fields and stops where `tail` begins. */
  lemma ReadFieldsOf(rd: Reader, fs: seq<Field>, ks: seq<FieldKind>, tail: seq<byte>)
    requires HasKinds(fs, ks) && AllWritable(fs)
    requires rd.pos <= |rd.data| && rd.data[rd.pos..] == FieldsWire(fs, tail)
    ensures rd.pos + FieldsSize(fs) <= |rd.data| && rd.data[rd.pos + FieldsSize(fs)..] == tail
    ensures ReadFields(rd, ks) == Some(Read(fs, Reader(rd.data, rd.pos + FieldsSize(fs))))
  {
    FieldsWireAt(rd.data, rd.pos, fs, tail);
    FieldsReadBack(rd, fs);
    ReadFieldsAt(rd, fs, ks);
  }
}
