/** The encoder that appends to a buffer and the decoder that advances a position, proved against Xdr. */
module XdrCodec {
  import opened Basics
  import opened Xdr

  lemma EncodeNone(fs: seq<Field>)
    ensures EncodeAll(fs[..0]) == []
  {
  }

  lemma {:induction false} EncodeMore(fs: seq<Field>, i: nat)
    requires i < |fs|
    ensures EncodeAll(fs[..i + 1]) == EncodeAll(fs[..i]) + Encode(fs[i])
  {
    hide Encode;
    assert fs[..i + 1][..i] == fs[..i];
  }

  class Encoder {
    var buf: seq<byte>

    constructor ()
      ensures buf == []
    {
      buf := [];
    }

    method Write32(n: int)
      modifies this
      ensures buf == old(buf) + Put32(n)
    {
      buf := buf + Put32(n);
    }

    method Write64(n: int)
      modifies this
      ensures buf == old(buf) + Put64(n)
    {
      buf := buf + Put64(n);
    }

    /** Zero bytes up to the next four-byte boundary after `n` bytes of data. */
    method WritePad(n: nat)
      modifies this
      ensures buf == old(buf) + Zeros(Pad(n))
    {
      var pad := (4 - n % 4) % 4;
      var i := 0;
      while i < pad
        invariant 0 <= i <= pad
        invariant buf == old(buf) + Zeros(i)
      {
        buf := buf + [0];
        assert Zeros(i + 1) == Zeros(i) + [0];
        i := i + 1;
      }
    }

    method WriteString(s: seq<byte>)
      modifies this
      ensures buf == old(buf) + EncodeString(s)
    {
      hide Put32, Zeros, Pad;
      Write32(|s|);
      buf := buf + s;
      WritePad(|s|);
    }

    method WriteOptional(o: Option<seq<byte>>)
      modifies this
      ensures buf == old(buf) + Encode(Optional(o))
    {
      hide Put32, EncodeString;
      if o.None? {
        Write32(0);
      } else {
        Write32(1);
        WriteString(o.value);
      }
    }

    /** The first `size` bytes of the data, zero-filled; then padding. */
    method WriteFixed(data: seq<byte>, size: nat)
      modifies this
      ensures buf == old(buf) + Encode(Opaque(data, size))
    {
      hide Put32, Put64, EncodeString, Pad;
      var padded := new byte[size](_ => 0);
      var n := if |data| < size then |data| else size;
      forall i | 0 <= i < n {
        padded[i] := data[i];
      }
      assert padded[..] == Fit(data, size);
      buf := buf + padded[..];
      WritePad(size);
    }

    method Write(f: Field)
      modifies this
      ensures buf == old(buf) + Encode(f)
    {
      hide Put32, Put64, EncodeString, Zeros, Pad, Fit;
      match f
      case Int32(i) => Write32(i);
      case Uint32(u) => Write32(u);
      case Int64(l) => Write64(l);
      case Uint64(n) => Write64(n);
      case Str(s) => WriteString(s);
      case Optional(o) => WriteOptional(o);
      case Uuid(id) => buf := buf + id;
      case Opaque(data, size) => WriteFixed(data, size);
    }

    /** A whole list of fields; by CodecRoundTrip the buffer reads back as the list. */
    method WriteAll(fs: seq<Field>)
      modifies this
      ensures buf == old(buf) + EncodeAll(fs)
    {
      EncodeNone(fs);
      hide Encode, EncodeAll;
      var i := 0;
      while i < |fs|
        invariant 0 <= i <= |fs|
        invariant buf == old(buf) + EncodeAll(fs[..i])
      {
        EncodeMore(fs, i);
        Write(fs[i]);
        i := i + 1;
      }
      assert fs[..|fs|] == fs;
    }
  }

  class Decoder {
    const data: seq<byte>
    var pos: nat

    constructor (data: seq<byte>)
      ensures this.data == data && pos == 0
    {
      this.data := data;
      pos := 0;
    }

    method ReadUint32() returns (v: Option<uint32>)
      modifies this
      ensures Read(v, pos) == Read32(data, old(pos))
    {
      if pos + 4 > |data| {
        return None;
      }
      v := Some(Get32(data[pos..pos + 4]));
      pos := pos + 4;
    }

    method ReadInt32() returns (v: Option<int32>)
      modifies this
      ensures pos == Read32(data, old(pos)).pos
      ensures v == var r := Read32(data, old(pos)).value; if r.None? then None else Some(Signed32(r.value))
    {
      if pos + 4 > |data| {
        return None;
      }
      v := Some(Signed32(Get32(data[pos..pos + 4])));
      pos := pos + 4;
    }

    method ReadUint64() returns (v: Option<uint64>)
      modifies this
      ensures Read(v, pos) == Read64(data, old(pos))
    {
      if pos + 8 > |data| {
        return None;
      }
      v := Some(Get64(data[pos..pos + 8]));
      pos := pos + 8;
    }

    method ReadStr() returns (v: Option<seq<byte>>)
      modifies this
      ensures Read(v, pos) == ReadString(data, old(pos))
    {
      var length := ReadUint32();
      if length.None? {
        return None;
      }
      if pos + length.value > |data| {
        return None;
      }
      v := Some(data[pos..pos + length.value]);
      pos := pos + length.value;
      var pad := (4 - length.value % 4) % 4;
      pos := pos + pad;
    }

    method ReadOpt() returns (v: Option<Option<seq<byte>>>)
      modifies this
      ensures Read(v, pos) == ReadOptional(data, old(pos))
    {
      var present := ReadUint32();
      if present.None? {
        return None;
      }
      if present.value == 0 {
        return Some(None);
      }
      var s := ReadStr();
      if s.None? {
        return None;
      }
      return Some(Some(s.value));
    }

    method ReadOpaque(size: nat) returns (v: Option<seq<byte>>)
      modifies this
      ensures Read(v, pos) == ReadFixed(data, old(pos), size)
    {
      if pos + size > |data| {
        return None;
      }
      v := Some(data[pos..pos + size]);
      pos := pos + size;
      var pad := (4 - size % 4) % 4;
      pos := pos + pad;
    }
  }
}
