/** XDR encoding and decoding as the libvirt RPC layer does it (RFC 4506: sections 4.1, 4.2, 4.5, 4.9, 4.11
    and 4.19): big-endian integers, length-prefixed strings padded to four bytes. */
module Xdr {
  import opened Basics

  type byte = b: int | 0 <= b < 256

  type int32 = i: int | -0x8000_0000 <= i < 0x8000_0000

  type uint32 = i: int | 0 <= i < 0x1_0000_0000

  type int64 = i: int | -0x8000_0000_0000_0000 <= i < 0x8000_0000_0000_0000

  type uint64 = i: int | 0 <= i < 0x1_0000_0000_0000_0000

  // ---- Integers --------------------------------------------------------------------------------

  function Low(n: int): byte { n % 256 }

  /** The four big-endian bytes of an integer, taken modulo 2^32 (two's complement for negative ones). */
  function Put32(n: int): (b: seq<byte>)
    ensures |b| == 4
  {
    var a: int := n / 256;
    var b: int := a / 256;
    var c: int := b / 256;
    [Low(c), Low(b), Low(a), Low(n)]
  }

  function Get32(b: seq<byte>): uint32
    requires |b| == 4
  {
    (b[0] as int) * 0x100_0000 + (b[1] as int) * 0x1_0000 + (b[2] as int) * 0x100 + b[3] as int
  }

  lemma LowByte(n: int)
    ensures n == (n / 256) * 256 + Low(n)
  {
  }

  lemma Remainder32(n: int, q: int, r: uint32)
    requires n == q * 0x1_0000_0000 + r
    ensures n % 0x1_0000_0000 == r
  {
  }

  lemma Get32Put32(n: int)
    ensures Get32(Put32(n)) == n % 0x1_0000_0000
  {
    var a: int := n / 256;
    var b: int := a / 256;
    var c: int := b / 256;
    LowByte(n);
    LowByte(a);
    LowByte(b);
    LowByte(c);
    hide Low;
    Remainder32(n, c / 256, Get32(Put32(n)));
  }

  lemma LowOf(q: int, r: byte)
    ensures (q * 256 + r) / 256 == q && Low(q * 256 + r) == r
  {
  }

  /** Four bytes are the bytes of the word they make. */
  lemma {:induction false} Put32Get32(b: seq<byte>)
    requires |b| == 4
    ensures Put32(Get32(b)) == b
  {
    var w1: int := b[0];
    var w2: int := w1 * 256 + b[1];
    var w3: int := w2 * 256 + b[2];
    assert Get32(b) == w3 * 256 + b[3];
    LowOf(w3, b[3]);
    LowOf(w2, b[2]);
    LowOf(w1, b[1]);
    LowOf(0, b[0]);
    hide Low, Get32;
    assert Put32(w3 * 256 + b[3]) == [b[0], b[1], b[2], b[3]];
  }

  /** The eight big-endian bytes of an integer, taken modulo 2^64. */
  function Put64(n: int): (b: seq<byte>)
    ensures |b| == 8
  {
    Put32(n / 0x1_0000_0000) + Put32(n)
  }

  function Get64(b: seq<byte>): uint64
    requires |b| == 8
  {
    (Get32(b[..4]) as int) * 0x1_0000_0000 + Get32(b[4..]) as int
  }

  lemma Remainder64(n: int, q: int, r: uint64)
    requires n == q * 0x1_0000_0000_0000_0000 + r
    ensures n % 0x1_0000_0000_0000_0000 == r
  {
  }

  lemma Get64Put64(n: int)
    ensures Get64(Put64(n)) == n % 0x1_0000_0000_0000_0000
  {
    var hi: int := n / 0x1_0000_0000;
    assert Put64(n)[..4] == Put32(hi) && Put64(n)[4..] == Put32(n);
    Get32Put32(hi);
    Get32Put32(n);
    hide Put32, Get32;
    assert n == hi * 0x1_0000_0000 + n % 0x1_0000_0000;
    var top: int := hi / 0x1_0000_0000;
    assert hi == top * 0x1_0000_0000 + hi % 0x1_0000_0000;
    Remainder64(n, top, Get64(Put64(n)));
  }

  /** Reinterpretation of an unsigned word as signed. */
  function Signed32(u: uint32): int32
  {
    if u < 0x8000_0000 then u else u - 0x1_0000_0000
  }

  /** Taking a word as signed does not change its bytes. */
  lemma {:induction false} PutSigned32(u: uint32)
    ensures Put32(Signed32(u)) == Put32(u)
  {
    var n: int := u;
    var m: int := n - 0x1_0000_0000;
    assert m / 256 == n / 256 - 0x100_0000;
    assert m / 256 / 256 == n / 256 / 256 - 0x1_0000;
    assert m / 256 / 256 / 256 == n / 256 / 256 / 256 - 0x100;
    assert Put32(m) == Put32(n);
  }

  function Signed64(u: uint64): int64
  {
    if u < 0x8000_0000_0000_0000 then u else u - 0x1_0000_0000_0000_0000
  }

  // ---- Fields ----------------------------------------------------------------------------------

  datatype FieldType = TInt32 | TUint32 | TInt64 | TUint64 | TString | TOptional | TUuid | TOpaque(size: nat)

  datatype Field =
    | Int32(i: int32) | Uint32(u: uint32) | Int64(l: int64) | Uint64(n: uint64)
    | Str(s: seq<byte>) | Optional(o: Option<seq<byte>>) | Uuid(id: seq<byte>) | Opaque(data: seq<byte>, size: nat)

  function TypeOf(f: Field): FieldType
  {
    match f
    case Int32(_) => TInt32
    case Uint32(_) => TUint32
    case Int64(_) => TInt64
    case Uint64(_) => TUint64
    case Str(_) => TString
    case Optional(_) => TOptional
    case Uuid(_) => TUuid
    case Opaque(_, size) => TOpaque(size)
  }

  /** How many zero bytes follow `n` bytes of data. */
  function Pad(n: nat): (p: nat)
    ensures p <= 3 && (n + p) % 4 == 0
  {
    (4 - n % 4) % 4
  }

  function Zeros(n: nat): (z: seq<byte>)
    ensures |z| == n
  {
    seq(n, _ => 0)
  }

  function EncodeString(s: seq<byte>): seq<byte>
  {
    Put32(|s|) + s + Zeros(Pad(|s|))
  }

  /** Data cut or zero-filled to a fixed size. */
  function Fit(data: seq<byte>, size: nat): (r: seq<byte>)
    ensures |r| == size
  {
    if |data| >= size then data[..size] else data + Zeros(size - |data|)
  }

  function Encode(f: Field): seq<byte>
  {
    match f
    case Int32(i) => Put32(i)
    case Uint32(u) => Put32(u)
    case Int64(l) => Put64(l)
    case Uint64(n) => Put64(n)
    case Str(s) => EncodeString(s)
    case Optional(o) => if o.None? then Put32(0) else Put32(1) + EncodeString(o.value)
    case Uuid(id) => id
    case Opaque(data, size) => Fit(data, size) + Zeros(Pad(size))
  }

  function EncodeAll(fs: seq<Field>): seq<byte>
  {
    if fs == [] then [] else EncodeAll(fs[..|fs| - 1]) + Encode(fs[|fs| - 1])
  }

  // ---- Reading ---------------------------------------------------------------------------------

  /** What a read returns, and where it leaves the decoder; a failed read returns nothing. */
  datatype Read<+T> = Read(value: Option<T>, pos: nat)

  function Read32(data: seq<byte>, pos: nat): Read<uint32>
  {
    if pos + 4 > |data| then Read(None, pos) else Read(Some(Get32(data[pos..pos + 4])), pos + 4)
  }

  function Read64(data: seq<byte>, pos: nat): Read<uint64>
  {
    if pos + 8 > |data| then Read(None, pos) else Read(Some(Get64(data[pos..pos + 8])), pos + 8)
  }

  function ReadString(data: seq<byte>, pos: nat): Read<seq<byte>>
  {
    var length := Read32(data, pos);
    if length.value.None? then Read(None, pos)
    else
      var n, at := length.value.value, length.pos;
      if at + n > |data| then Read(None, at) else Read(Some(data[at..at + n]), at + n + Pad(n))
  }

  function ReadOptional(data: seq<byte>, pos: nat): Read<Option<seq<byte>>>
  {
    var present := Read32(data, pos);
    if present.value.None? then Read(None, pos)
    else if present.value.value == 0 then Read(Some(None), present.pos)
    else
      var s := ReadString(data, present.pos);
      if s.value.None? then Read(None, s.pos) else Read(Some(Some(s.value.value)), s.pos)
  }

  function ReadFixed(data: seq<byte>, pos: nat, size: nat): Read<seq<byte>>
  {
    if pos + size > |data| then Read(None, pos) else Read(Some(data[pos..pos + size]), pos + size + Pad(size))
  }

  function ReadField(data: seq<byte>, pos: nat, t: FieldType): (r: Read<Field>)
    ensures r.pos >= pos
    ensures pos <= |data| + 3 ==> r.pos <= |data| + 3
  {
    match t
    case TInt32 => var r := Read32(data, pos);
      Read(if r.value.Some? then Some(Int32(Signed32(r.value.value))) else None, r.pos)
    case TUint32 => var r := Read32(data, pos);
      Read(if r.value.Some? then Some(Uint32(r.value.value)) else None, r.pos)
    case TInt64 => var r := Read64(data, pos);
      Read(if r.value.Some? then Some(Int64(Signed64(r.value.value))) else None, r.pos)
    case TUint64 => var r := Read64(data, pos);
      Read(if r.value.Some? then Some(Uint64(r.value.value)) else None, r.pos)
    case TString => var r := ReadString(data, pos);
      Read(if r.value.Some? then Some(Str(r.value.value)) else None, r.pos)
    case TOptional => var r := ReadOptional(data, pos);
      Read(if r.value.Some? then Some(Optional(r.value.value)) else None, r.pos)
    case TUuid => var r := ReadFixed(data, pos, 16);
      Read(if r.value.Some? then Some(Uuid(r.value.value)) else None, r.pos)
    case TOpaque(size) => var r := ReadFixed(data, pos, size);
      Read(if r.value.Some? then Some(Opaque(r.value.value, size)) else None, r.pos)
  }

  /** Reads of a list of fields, up to the first that fails. */
  function ReadAll(data: seq<byte>, pos: nat, ts: seq<FieldType>): Read<seq<Field>>
  {
    if ts == [] then Read(Some([]), pos)
    else
      var init := ReadAll(data, pos, ts[..|ts| - 1]);
      if init.value.None? then init
      else
        var last := ReadField(data, init.pos, ts[|ts| - 1]);
        if last.value.None? then Read(None, last.pos) else Read(Some(init.value.value + [last.value.value]), last.pos)
  }

  // ---- Round trip ------------------------------------------------------------------------------

  /** What a field reads back as: fixed opaque data comes back at its size, everything else as it was. */
  function Fitted(f: Field): Field
  {
    if f.Opaque? then Opaque(Fit(f.data, f.size), f.size) else f
  }

  /** String lengths fit their 32-bit prefix and UUIDs have sixteen bytes. */
  predicate Encodable(f: Field)
  {
    match f
    case Str(s) => |s| < 0x1_0000_0000
    case Optional(o) => o.Some? ==> |o.value| < 0x1_0000_0000
    case Uuid(id) => |id| == 16
    case _ => true
  }

  lemma Read32At(pre: seq<byte>, n: int, post: seq<byte>)
    ensures Read32(pre + Put32(n) + post, |pre|) == Read(Some(n % 0x1_0000_0000), |pre| + 4)
  {
    var data := pre + Put32(n) + post;
    assert data[|pre|..|pre| + 4] == Put32(n);
    Get32Put32(n);
  }

  lemma Read64At(pre: seq<byte>, n: int, post: seq<byte>)
    ensures Read64(pre + Put64(n) + post, |pre|) == Read(Some(n % 0x1_0000_0000_0000_0000), |pre| + 8)
  {
    var data := pre + Put64(n) + post;
    assert data[|pre|..|pre| + 8] == Put64(n);
    Get64Put64(n);
  }

  /** A string is read back if and only if its length fits the prefix; a longer one comes back cut short. */
  lemma StringRoundTripIff(pre: seq<byte>, s: seq<byte>, post: seq<byte>)
    ensures ReadString(pre + EncodeString(s) + post, |pre|) == Read(Some(s), |pre| + |EncodeString(s)|)
            <==> |s| < 0x1_0000_0000
  {
    hide Put32, Get32, Pad;
    var data := pre + EncodeString(s) + post;
    var tail := s + Zeros(Pad(|s|)) + post;
    assert data == pre + Put32(|s|) + tail;
    Read32At(pre, |s|, tail);
    var n := |s| % 0x1_0000_0000;
    var at := |pre| + 4;
    assert data[at..at + n] == s[..n];
    if |s| < 0x1_0000_0000 {
      assert s[..n] == s;
    }
  }

  lemma {:induction false} OptionalRoundTrip(pre: seq<byte>, o: Option<seq<byte>>, post: seq<byte>)
    requires Encodable(Optional(o))
    ensures ReadOptional(pre + Encode(Optional(o)) + post, |pre|) == Read(Some(o), |pre| + |Encode(Optional(o))|)
  {
    if o.None? {
      Read32At(pre, 0, post);
    } else {
      var data := pre + Encode(Optional(o)) + post;
      assert data == pre + Put32(1) + (EncodeString(o.value) + post);
      Read32At(pre, 1, EncodeString(o.value) + post);
      assert data == (pre + Put32(1)) + EncodeString(o.value) + post;
      StringRoundTripIff(pre + Put32(1), o.value, post);
    }
  }

  lemma FixedRoundTrip(pre: seq<byte>, d: seq<byte>, post: seq<byte>)
    ensures ReadFixed(pre + (d + Zeros(Pad(|d|))) + post, |pre|, |d|) == Read(Some(d), |pre| + |d| + Pad(|d|))
  {
    var data := pre + (d + Zeros(Pad(|d|))) + post;
    assert data[|pre|..|pre| + |d|] == d;
  }

  lemma SignedBack32(i: int32)
    ensures Signed32(i % 0x1_0000_0000) == i
  {
  }

  lemma SignedBack64(l: int64)
    ensures Signed64(l % 0x1_0000_0000_0000_0000) == l
  {
  }

  lemma {:induction false} Integer32RoundTrip(pre: seq<byte>, f: Field, post: seq<byte>)
    requires f.Int32? || f.Uint32?
    ensures ReadField(pre + Encode(f) + post, |pre|, TypeOf(f)) == Read(Some(f), |pre| + |Encode(f)|)
  {
    if f.Int32? {
      Read32At(pre, f.i, post);
      SignedBack32(f.i);
    } else {
      Read32At(pre, f.u, post);
    }
  }

  lemma {:induction false} Integer64RoundTrip(pre: seq<byte>, f: Field, post: seq<byte>)
    requires f.Int64? || f.Uint64?
    ensures ReadField(pre + Encode(f) + post, |pre|, TypeOf(f)) == Read(Some(f), |pre| + |Encode(f)|)
  {
    hide Put64, Get64, Put32, Get32;
    if f.Int64? {
      Read64At(pre, f.l, post);
      SignedBack64(f.l);
    } else {
      Read64At(pre, f.n, post);
    }
  }

  /** Wherever an encoded field stands, reading it returns it and leaves the decoder just behind it. */
  lemma {:induction false} FieldRoundTrip(pre: seq<byte>, f: Field, post: seq<byte>)
    requires Encodable(f)
    ensures ReadField(pre + Encode(f) + post, |pre|, TypeOf(f)) == Read(Some(Fitted(f)), |pre| + |Encode(f)|)
  {
    match f
    case Int32(_) => Integer32RoundTrip(pre, f, post);
    case Uint32(_) => Integer32RoundTrip(pre, f, post);
    case Int64(_) => Integer64RoundTrip(pre, f, post);
    case Uint64(_) => Integer64RoundTrip(pre, f, post);
    case Str(s) => StringRoundTripIff(pre, s, post);
    case Optional(o) => OptionalRoundTrip(pre, o, post);
    case Uuid(id) =>
      assert id + Zeros(Pad(16)) == id;
      FixedRoundTrip(pre, id, post);
    case Opaque(d, size) => FixedRoundTrip(pre, Fit(d, size), post);
  }

  lemma {:induction false} EncodeAligned(f: Field)
    requires Encodable(f)
    ensures |Encode(f)| % 4 == 0
  {
    hide Put32, Put64, Zeros, Fit, Pad;
  }

  lemma {:induction false} AllAligned(fs: seq<Field>)
    requires forall f :: f in fs ==> Encodable(f)
    ensures |EncodeAll(fs)| % 4 == 0
  {
    hide Encode, Encodable;
    if fs != [] {
      EncodeAligned(fs[|fs| - 1]);
      AllAligned(fs[..|fs| - 1]);
    }
  }

  function Types(fs: seq<Field>): (ts: seq<FieldType>)
    ensures |ts| == |fs| && forall i :: 0 <= i < |fs| ==> ts[i] == TypeOf(fs[i])
  {
    if fs == [] then [] else Types(fs[..|fs| - 1]) + [TypeOf(fs[|fs| - 1])]
  }

  function FittedAll(fs: seq<Field>): (r: seq<Field>)
    ensures |r| == |fs| && forall i :: 0 <= i < |fs| ==> r[i] == Fitted(fs[i])
  {
    if fs == [] then [] else FittedAll(fs[..|fs| - 1]) + [Fitted(fs[|fs| - 1])]
  }

  lemma {:induction false} ReadAllMore(
    done: seq<byte>, e: seq<byte>, post: seq<byte>, ts: seq<FieldType>, fs: seq<Field>, t: FieldType, f: Field)
    requires ReadAll(done + (e + post), 0, ts) == Read(Some(fs), |done|)
    requires ReadField(done + e + post, |done|, t) == Read(Some(f), |done| + |e|)
    ensures ReadAll(done + e + post, 0, ts + [t]) == Read(Some(fs + [f]), |done| + |e|)
  {
    hide ReadField;
    assert done + (e + post) == done + e + post;
    assert (ts + [t])[..|ts|] == ts;
  }

  lemma {:induction false} ReadAllPrefix(fs: seq<Field>, post: seq<byte>)
    requires forall f :: f in fs ==> Encodable(f)
    ensures ReadAll(EncodeAll(fs) + post, 0, Types(fs)) == Read(Some(FittedAll(fs)), |EncodeAll(fs)|)
  {
    hide Encode, ReadField, Encodable, Fitted, TypeOf;
    if fs != [] {
      var init, last := fs[..|fs| - 1], fs[|fs| - 1];
      ReadAllPrefix(init, Encode(last) + post);
      FieldRoundTrip(EncodeAll(init), last, post);
      hide ReadAll;
      ReadAllMore(EncodeAll(init), Encode(last), post, Types(init), FittedAll(init), TypeOf(last), Fitted(last));
    }
  }

  /** Codec round trip: decoding what was encoded returns the same fields and consumes every byte, and the
      buffer is always a multiple of four bytes long. */
  lemma {:induction false} CodecRoundTrip(fs: seq<Field>)
    requires forall f :: f in fs ==> Encodable(f)
    ensures ReadAll(EncodeAll(fs), 0, Types(fs)) == Read(Some(FittedAll(fs)), |EncodeAll(fs)|)
    ensures |EncodeAll(fs)| % 4 == 0
  {
    AllAligned(fs);
    ReadAllPrefix(fs, []);
    assert EncodeAll(fs) + [] == EncodeAll(fs);
  }

  // ---- Layout --------------------------------------------------------------------------------------

  /** A word is written most significant byte first, a negative number as its two's complement. */
  lemma {:induction false} WordBytes(n: int)
    requires 0 <= n < 0x1_0000_0000
    ensures Put32(n) == [n / 16777216, n / 65536 % 256, n / 256 % 256, n % 256]
    ensures Put32(n - 4294967296) == Put32(n)
  {
    assert n / 256 / 256 == n / 65536 && n / 256 / 256 / 256 == n / 16777216;
    var m: int := n - 4294967296;
    assert m / 256 == n / 256 - 0x100_0000;
    assert m / 256 / 256 == n / 256 / 256 - 0x1_0000;
    assert m / 256 / 256 / 256 == n / 256 / 256 / 256 - 0x100;
  }

  /** A long word is its high half before its low half. */
  lemma {:induction false} LongBytes(n: int)
    requires 0 <= n < 0x1_0000_0000_0000_0000
    ensures Put64(n) == Put32(n / 4294967296) + Put32(n % 4294967296)
    ensures Put64(n - 18446744073709551616) == Put64(n)
  {
    var low := n % 4294967296;
    Same32(n, low, n / 4294967296);
    var m: int := n - 18446744073709551616;
    assert m / 4294967296 == n / 4294967296 - 4294967296;
    Same32(n, m, 4294967296);
    Same32(n / 4294967296, m / 4294967296, 1);
  }

  /** Numbers a multiple of 2^32 apart have the same four bytes. */
  lemma {:induction false} Same32(n: int, m: int, k: int)
    requires n - m == k * 4294967296
    ensures Put32(n) == Put32(m)
  {
    assert n / 256 == m / 256 + k * 16777216;
    assert n / 256 / 256 == m / 256 / 256 + k * 65536;
    assert n / 256 / 256 / 256 == m / 256 / 256 / 256 + k * 256;
  }

  /** A string is its length in four bytes, its bytes, and zeros up to the next multiple of four; an optional
      one is preceded by the word one, and is the word zero if absent. */
  lemma {:induction false} StringLayout(s: seq<byte>)
    ensures
      var b := Encode(Str(s));
      && |b| % 4 == 0 && 4 + |s| <= |b| < 8 + |s|
      && b[..4] == Put32(|s|) && b[4..4 + |s|] == s && forall i :: 4 + |s| <= i < |b| ==> b[i] == 0
    ensures Encode(Optional(None)) == [0, 0, 0, 0]
    ensures Encode(Optional(Some(s))) == [0, 0, 0, 1] + Encode(Str(s))
  {
    hide Put32;
    WordBytes(0);
    WordBytes(1);
  }

  /** Opaque data is cut or filled with zeros to its size and padded the same way; a UUID is its bytes. */
  lemma {:induction false} OpaqueLayout(s: seq<byte>, size: nat)
    ensures |s| == 16 ==> Encode(Uuid(s)) == s
    ensures
      var b := Encode(Opaque(s, size));
      && |b| % 4 == 0 && size <= |b| < size + 4
      && forall i :: 0 <= i < |b| ==> b[i] == if i < size && i < |s| then s[i] else 0
  {
    hide Put32, Put64, EncodeString;
    var b := Encode(Opaque(s, size));
    assert b == Fit(s, size) + Zeros(Pad(size));
  }

  /** The fields of a list one after the other, and the integers by their bytes. */
  lemma {:induction false} FieldsInOrder(fs: seq<Field>, f: Field)
    ensures EncodeAll([]) == [] && EncodeAll(fs + [f]) == EncodeAll(fs) + Encode(f)
    ensures f.Int32? ==> Encode(f) == Put32(f.i)
    ensures f.Uint32? ==> Encode(f) == Put32(f.u)
    ensures f.Int64? ==> Encode(f) == Put64(f.l)
    ensures f.Uint64? ==> Encode(f) == Put64(f.n)
  {
    assert (fs + [f])[..|fs|] == fs;
  }

  lemma {:induction false} EncodeConcat(fs: seq<Field>, gs: seq<Field>)
    ensures EncodeAll(fs + gs) == EncodeAll(fs) + EncodeAll(gs)
    decreases |gs|
  {
    hide Encode;
    if gs == [] {
      assert fs + gs == fs;
    } else {
      var init := gs[..|gs| - 1];
      EncodeConcat(fs, init);
      assert (fs + gs)[..|fs + gs| - 1] == fs + init;
    }
  }
}
