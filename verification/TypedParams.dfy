/** The typed-parameter loops of the four migration handlers, on arbitrary request bodies. */
module TypedParams {
  import opened Basics
  import opened Xdr
  import opened XdrCodec

  /** A parameter as the loops see it: a string value, or eight bytes that are skipped. */
  datatype Param = Param(name: seq<byte>, text: Option<seq<byte>>)

  const STRING_PARAM := 7

  function Ascii(s: string): seq<byte>
  {
    seq(|s|, i requires 0 <= i < |s| => Low(s[i] as int))
  }

  const DOMAIN_NAME := Ascii("domain_name")

  const DOMAIN_UUID := Ascii("domain_uuid")

  const DEST_URI := Ascii("dest_uri")

  /** One round of a loop. */
  function ReadParam(data: seq<byte>, pos: nat): (r: Read<Param>)
    ensures r.pos >= pos
    ensures pos <= |data| + 3 ==> r.pos <= |data| + 3
    ensures r.value.Some? ==> r.pos >= pos + 12
  {
    var name := ReadString(data, pos);
    if name.value.None? then Read(None, name.pos)
    else
      var kind := Read32(data, name.pos);
      if kind.value.None? then Read(None, kind.pos)
      else if Signed32(kind.value.value) == STRING_PARAM then
        var text := ReadString(data, kind.pos);
        if text.value.None? then Read(None, text.pos)
        else Read(Some(Param(name.value.value, Some(text.value.value))), text.pos)
      else
        var skipped := Read64(data, kind.pos);
        if skipped.value.None? then Read(None, skipped.pos)
        else Read(Some(Param(name.value.value, None)), skipped.pos)
  }

  /** The parameters read before the loop ended, whether it ran to its end, and where it stopped. */
  datatype Parsed = Parsed(params: seq<Param>, complete: bool, pos: nat)

  function ParseParams(data: seq<byte>, pos: nat, n: nat): Parsed
    decreases n
  {
    if n == 0 then Parsed([], true, pos)
    else
      var p := ReadParam(data, pos);
      if p.value.None? then Parsed([], false, p.pos)
      else
        var rest := ParseParams(data, p.pos, n - 1);
        Parsed([p.value.value] + rest.params, rest.complete, rest.pos)
  }

  /** The whole body: a count, then that many parameters. */
  function ParseBody(body: seq<byte>): Parsed
  {
    var count := Read32(body, 0);
    if count.value.None? then Parsed([], false, 0) else ParseParams(body, count.pos, count.value.value)
  }

  predicate Gives(p: Param, name: seq<byte>)
  {
    p.name == name && p.text.Some?
  }

  /** The value of the last string parameter with a name, empty if there is none. */
  function LastText(ps: seq<Param>, name: seq<byte>): seq<byte>
  {
    if ps == [] then []
    else
      var last := ps[|ps| - 1];
      if Gives(last, name) then last.text.value else LastText(ps[..|ps| - 1], name)
  }

  /** The last one wins, whatever came before it. */
  lemma {:induction false} LastWins(ps: seq<Param>, name: seq<byte>, i: nat)
    requires i < |ps| && Gives(ps[i], name)
    requires forall j :: i < j < |ps| ==> !Gives(ps[j], name)
    ensures LastText(ps, name) == ps[i].text.value
  {
    if i < |ps| - 1 {
      LastWins(ps[..|ps| - 1], name, i);
    }
  }

  lemma {:induction false} NoneGiven(ps: seq<Param>, name: seq<byte>)
    requires forall i :: 0 <= i < |ps| ==> !Gives(ps[i], name)
    ensures LastText(ps, name) == []
  {
    if ps != [] {
      NoneGiven(ps[..|ps| - 1], name);
    }
  }

  lemma {:induction false} ParseAdvances(data: seq<byte>, pos: nat, n: nat)
    requires pos <= |data| + 3
    ensures
      var p := ParseParams(data, pos, n);
      && pos + 12 * |p.params| <= p.pos <= |data| + 3
      && |p.params| <= n
      && (p.complete <==> |p.params| == n)
    decreases n
  {
    hide ReadParam;
    if n > 0 {
      var p := ReadParam(data, pos);
      if p.value.Some? {
        ParseAdvances(data, p.pos, n - 1);
      }
    }
  }

  /** On arbitrary bytes the decoder never stands more than three bytes past the end, and at most one
      parameter per twelve bytes is read whatever count the body claims; a body that claims more fails. */
  lemma {:induction false} ParseBounded(body: seq<byte>)
    ensures
      var p := ParseBody(body);
      && p.pos <= |body| + 3
      && |p.params| <= |body| / 12
      && (p.complete ==> |body| >= 4 && |p.params| == Get32(body[..4]))
  {
    var count := Read32(body, 0);
    if count.value.Some? {
      ParseAdvances(body, count.pos, count.value.value);
      assert body[0..4] == body[..4];
    }
  }

  /** What any of the four loops takes from a body: the last domain_uuid, or nothing if the body is cut
      short anywhere. */
  function UuidParam(body: seq<byte>): Option<seq<byte>>
  {
    if ParseBody(body).complete then Some(LastText(ParseBody(body).params, DOMAIN_UUID)) else None
  }

  /** One round of a loop on the decoder. */
  method NextParam(dec: Decoder) returns (p: Option<Param>)
    modifies dec
    ensures Read(p, dec.pos) == ReadParam(dec.data, old(dec.pos))
  {
    hide ReadString, Read32, Read64;
    var name := dec.ReadStr();
    if name.None? {
      return None;
    }
    var kind := dec.ReadInt32();
    if kind.None? {
      return None;
    }
    if kind.value == STRING_PARAM {
      var text := dec.ReadStr();
      if text.None? {
        return None;
      }
      return Some(Param(name.value, Some(text.value)));
    }
    var skipped := dec.ReadUint64();
    if skipped.None? {
      return None;
    }
    return Some(Param(name.value, None));
  }

  /** What has been read so far together with what is still to be read is the whole parse. */
  ghost predicate Continues(body: seq<byte>, start: nat, n: nat, seen: seq<Param>, pos: nat)
    requires |seen| <= n
  {
    var rest := ParseParams(body, pos, n - |seen|);
    ParseParams(body, start, n) == Parsed(seen + rest.params, rest.complete, rest.pos)
  }

  lemma ContinuesOn(body: seq<byte>, start: nat, n: nat, seen: seq<Param>, pos: nat)
    requires |seen| < n && Continues(body, start, n, seen, pos)
    ensures
      var p := ReadParam(body, pos);
      if p.value.Some? then Continues(body, start, n, seen + [p.value.value], p.pos)
      else !ParseParams(body, start, n).complete
  {
    hide ReadParam;
    var p := ReadParam(body, pos);
    if p.value.Some? {
      var rest := ParseParams(body, p.pos, n - |seen| - 1);
      assert seen + ([p.value.value] + rest.params) == seen + [p.value.value] + rest.params;
    }
  }

  lemma LastTextMore(ps: seq<Param>, p: Param, name: seq<byte>)
    ensures LastText(ps + [p], name) == if Gives(p, name) then p.text.value else LastText(ps, name)
  {
    assert (ps + [p])[..|ps|] == ps;
  }

  /** The loop of the Perform, Finish and Confirm handlers. */
  method ParseUuid(body: seq<byte>) returns (uuid: Option<seq<byte>>)
    ensures uuid == UuidParam(body)
  {
    hide ReadParam, Get32;
    var dec := new Decoder(body);
    var nparams := dec.ReadUint32();
    if nparams.None? {
      return None;
    }
    ghost var start, seen := dec.pos, [];
    var domUuid := [];
    var i := 0;
    while i < nparams.value
      invariant 0 <= i <= nparams.value && |seen| == i
      invariant Continues(body, start, nparams.value, seen, dec.pos)
      invariant domUuid == LastText(seen, DOMAIN_UUID)
    {
      ContinuesOn(body, start, nparams.value, seen, dec.pos);
      var p := NextParam(dec);
      if p.None? {
        return None;
      }
      LastTextMore(seen, p.value, DOMAIN_UUID);
      seen := seen + [p.value];
      if p.value.text.Some? && p.value.name == DOMAIN_UUID {
        domUuid := p.value.text.value;
      }
      i := i + 1;
    }
    assert seen + [] == seen;
    return Some(domUuid);
  }

  datatype PrepareParams = PrepareParams(name: seq<byte>, uuid: seq<byte>, destUri: seq<byte>)

  /** The loop of the Prepare handler, which keeps two more parameters. */
  method ParsePrepare(body: seq<byte>) returns (r: Option<PrepareParams>)
    ensures r.Some? <==> UuidParam(body).Some?
    ensures r.Some? ==>
              && r.value.uuid == UuidParam(body).value
              && r.value.name == LastText(ParseBody(body).params, DOMAIN_NAME)
              && r.value.destUri == LastText(ParseBody(body).params, DEST_URI)
  {
    hide ReadParam, Get32;
    var dec := new Decoder(body);
    var nparams := dec.ReadUint32();
    if nparams.None? {
      return None;
    }
    ghost var start, seen := dec.pos, [];
    var domName, domUuid, destUri := [], [], [];
    var i := 0;
    while i < nparams.value
      invariant 0 <= i <= nparams.value && |seen| == i
      invariant Continues(body, start, nparams.value, seen, dec.pos)
      invariant domName == LastText(seen, DOMAIN_NAME)
      invariant domUuid == LastText(seen, DOMAIN_UUID)
      invariant destUri == LastText(seen, DEST_URI)
    {
      ContinuesOn(body, start, nparams.value, seen, dec.pos);
      var p := NextParam(dec);
      if p.None? {
        return None;
      }
      LastTextMore(seen, p.value, DOMAIN_NAME);
      LastTextMore(seen, p.value, DOMAIN_UUID);
      LastTextMore(seen, p.value, DEST_URI);
      NamesDiffer();
      seen := seen + [p.value];
      if p.value.text.Some? {
        if p.value.name == DOMAIN_NAME {
          domName := p.value.text.value;
        } else if p.value.name == DOMAIN_UUID {
          domUuid := p.value.text.value;
        } else if p.value.name == DEST_URI {
          destUri := p.value.text.value;
        }
      }
      i := i + 1;
    }
    assert seen + [] == seen;
    return Some(PrepareParams(domName, domUuid, destUri));
  }

  lemma NamesDiffer()
    ensures DOMAIN_NAME != DOMAIN_UUID && DOMAIN_NAME != DEST_URI && DOMAIN_UUID != DEST_URI
  {
    assert "domain_name"[7] == 'n' && "domain_uuid"[7] == 'u' && |"dest_uri"| == 8;
    assert DOMAIN_NAME[7] == Low('n' as int) && DOMAIN_UUID[7] == Low('u' as int);
  }

  // ---- From the sender's side -------------------------------------------------------------------------

  /** A parameter as a client sends it: a string, which is type 7, or another type with eight bytes of value. */
  datatype Sent = Text(name: seq<byte>, value: seq<byte>) | Other(name: seq<byte>, kind: int32, bits: uint64)

  predicate Sendable(p: Sent)
  {
    |p.name| < 0x1_0000_0000 && (if p.Text? then |p.value| < 0x1_0000_0000 else p.kind != 7)
  }

  function FieldsOf(p: Sent): seq<Field>
  {
    if p.Text? then [Str(p.name), Int32(7), Str(p.value)] else [Str(p.name), Int32(p.kind), Uint64(p.bits)]
  }

  function AllFields(ps: seq<Sent>): seq<Field>
  {
    if ps == [] then [] else FieldsOf(ps[0]) + AllFields(ps[1..])
  }

  /** The body of a request: how many parameters, then each of them. */
  function BodyOf(ps: seq<Sent>): seq<byte>
    requires |ps| < 0x1_0000_0000
  {
    EncodeAll([Uint32(|ps|)] + AllFields(ps))
  }

  /** What the loops see of a parameter. */
  function SeenAs(p: Sent): Param
  {
    if p.Text? then Param(p.name, Some(p.value)) else Param(p.name, None)
  }

  lemma {:induction false} ThreeFields(a: Field, b: Field, c: Field)
    ensures EncodeAll([a, b, c]) == Encode(a) + Encode(b) + Encode(c)
  {
    hide Encode, EncodeAll;
    FieldsInOrder([], a);
    FieldsInOrder([a], b);
    FieldsInOrder([a, b], c);
    assert [] + [a] == [a] && [a] + [b] == [a, b] && [a, b] + [c] == [a, b, c];
    assert [] + Encode(a) == Encode(a);
  }

  lemma {:induction false} ReadStringAt(pre: seq<byte>, s: seq<byte>, post: seq<byte>)
    requires |s| < 0x1_0000_0000
    ensures ReadString(pre + EncodeString(s) + post, |pre|) == Read(Some(s), |pre| + |EncodeString(s)|)
  {
    StringRoundTripIff(pre, s, post);
  }

  lemma {:induction false} ReadText(pre: seq<byte>, name: seq<byte>, value: seq<byte>, post: seq<byte>)
    requires |name| < 0x1_0000_0000 && |value| < 0x1_0000_0000
    ensures
      var b := EncodeString(name) + Put32(7) + EncodeString(value);
      ReadParam(pre + b + post, |pre|) == Read(Some(Param(name, Some(value))), |pre| + |b|)
  {
    hide EncodeString, Put32, ReadString, Read32, Read64, Pad;
    var n, w, v := EncodeString(name), Put32(7), EncodeString(value);
    var data := pre + (n + w + v) + post;
    ReadStringAt(pre, name, w + v + post);
    Read32At(pre + n, 7, v + post);
    ReadStringAt(pre + n + w, value, post);
    assert data == pre + n + (w + v + post);
    assert data == (pre + n) + w + (v + post);
    assert data == (pre + n + w) + v + post;
  }

  lemma {:induction false} ReadOther(pre: seq<byte>, name: seq<byte>, kind: int32, bits: uint64, post: seq<byte>)
    requires |name| < 0x1_0000_0000 && kind != 7
    ensures
      var b := EncodeString(name) + Put32(kind) + Put64(bits);
      ReadParam(pre + b + post, |pre|) == Read(Some(Param(name, None)), |pre| + |b|)
  {
    hide EncodeString, Put32, Put64, ReadString, Read32, Read64, Pad, Signed32;
    var n, w, v := EncodeString(name), Put32(kind), Put64(bits);
    var data := pre + (n + w + v) + post;
    ReadStringAt(pre, name, w + v + post);
    Read32At(pre + n, kind, v + post);
    SignedBack32(kind);
    Read64At(pre + n + w, bits, post);
    assert data == pre + n + (w + v + post);
    assert data == (pre + n) + w + (v + post);
    assert data == (pre + n + w) + v + post;
  }

  lemma {:induction false} ReadSent(pre: seq<byte>, p: Sent, post: seq<byte>)
    requires Sendable(p)
    ensures
      var b := EncodeAll(FieldsOf(p));
      ReadParam(pre + b + post, |pre|) == Read(Some(SeenAs(p)), |pre| + |b|)
  {
    hide EncodeAll, EncodeString, Put32, Put64, ReadParam;
    if p.Text? {
      ThreeFields(Str(p.name), Int32(7), Str(p.value));
      ReadText(pre, p.name, p.value, post);
    } else {
      ThreeFields(Str(p.name), Int32(p.kind), Uint64(p.bits));
      ReadOther(pre, p.name, p.kind, p.bits, post);
    }
  }

  function AllSeen(ps: seq<Sent>): seq<Param>
  {
    seq(|ps|, i requires 0 <= i < |ps| => SeenAs(ps[i]))
  }

  lemma {:induction false} ParseSent(pre: seq<byte>, ps: seq<Sent>)
    requires forall p :: p in ps ==> Sendable(p)
    ensures
      var data := pre + EncodeAll(AllFields(ps));
      ParseParams(data, |pre|, |ps|) == Parsed(AllSeen(ps), true, |data|)
    decreases |ps|
  {
    hide ReadParam, EncodeAll, FieldsOf, SeenAs;
    var data := pre + EncodeAll(AllFields(ps));
    if ps == [] {
      NoFields();
    } else {
      var first, rest := EncodeAll(FieldsOf(ps[0])), EncodeAll(AllFields(ps[1..]));
      EncodeConcat(FieldsOf(ps[0]), AllFields(ps[1..]));
      assert data == pre + first + rest && data == (pre + first) + rest;
      ReadSent(pre, ps[0], rest);
      ParseSent(pre + first, ps[1..]);
      assert AllSeen(ps) == [SeenAs(ps[0])] + AllSeen(ps[1..]);
    }
  }

  lemma NoFields()
    ensures EncodeAll([]) == []
  {
  }

  /** The loops read a body as it was written: every parameter, in order, to the last byte. */
  lemma {:induction false} BodyReadBack(ps: seq<Sent>)
    requires |ps| < 0x1_0000_0000 && forall p :: p in ps ==> Sendable(p)
    ensures ParseBody(BodyOf(ps)) == Parsed(AllSeen(ps), true, |BodyOf(ps)|)
  {
    hide EncodeAll, Put32, Get32, Encode, AllSeen;
    var count, rest := Put32(|ps|), EncodeAll(AllFields(ps));
    CountFirst(ps);
    Read32At([], |ps|, rest);
    assert [] + count + rest == count + rest;
    ParseSent(count, ps);
    hide Read32, ParseParams;
  }

  lemma {:induction false} CountFirst(ps: seq<Sent>)
    requires |ps| < 0x1_0000_0000
    ensures BodyOf(ps) == Put32(|ps|) + EncodeAll(AllFields(ps))
  {
    hide EncodeAll, Put32;
    EncodeConcat([Uint32(|ps|)], AllFields(ps));
    FieldsInOrder([], Uint32(|ps|));
    assert [] + [Uint32(|ps|)] == [Uint32(|ps|)];
  }

  /** The value of the last string parameter with a name, stated over positions. */
  predicate LastSent(ps: seq<Sent>, name: seq<byte>, value: seq<byte>)
  {
    || (exists i :: 0 <= i < |ps| && ps[i] == Text(name, value) &&
          forall j :: i < j < |ps| ==> !(ps[j].Text? && ps[j].name == name))
    || (value == [] && forall j :: 0 <= j < |ps| ==> !(ps[j].Text? && ps[j].name == name))
  }

  lemma {:induction false} LastSentIs(ps: seq<Sent>, name: seq<byte>)
    ensures LastSent(ps, name, LastText(AllSeen(ps), name))
  {
    var seen := AllSeen(ps);
    if i :| 0 <= i < |ps| && ps[i].Text? && ps[i].name == name &&
            forall j :: i < j < |ps| ==> !(ps[j].Text? && ps[j].name == name) {
      LastWins(seen, name, i);
      assert ps[i] == Text(name, LastText(seen, name));
    } else {
      NoLast(ps, name);
      NoneGiven(seen, name);
    }
  }

  /** Where no position is the last with the name, none has it. */
  lemma {:induction false} NoLast(ps: seq<Sent>, name: seq<byte>)
    requires forall i :: 0 <= i < |ps| && ps[i].Text? && ps[i].name == name ==>
               exists j :: i < j < |ps| && ps[j].Text? && ps[j].name == name
    ensures forall j :: 0 <= j < |ps| ==> !(ps[j].Text? && ps[j].name == name)
  {
    NoLastFrom(ps, name, |ps|);
  }

  lemma {:induction false} NoLastFrom(ps: seq<Sent>, name: seq<byte>, k: nat)
    requires k <= |ps|
    requires forall i :: 0 <= i < |ps| && ps[i].Text? && ps[i].name == name ==>
               exists j :: i < j < |ps| && ps[j].Text? && ps[j].name == name
    ensures forall j :: |ps| - k <= j < |ps| ==> !(ps[j].Text? && ps[j].name == name)
  {
    if k > 0 {
      NoLastFrom(ps, name, k - 1);
    }
  }

  /** What the handlers take from a request a client wrote: the values of the last string parameters named
      "domain_uuid", "domain_name" and "dest_uri", empty where there is none. */
  lemma {:induction false} RequestUnderstood(ps: seq<Sent>)
    requires |ps| < 0x1_0000_0000 && forall p :: p in ps ==> Sendable(p)
    ensures
      var body := BodyOf(ps);
      && UuidParam(body).Some?
      && LastSent(ps, [100, 111, 109, 97, 105, 110, 95, 117, 117, 105, 100], UuidParam(body).value)
      && LastSent(ps, [100, 111, 109, 97, 105, 110, 95, 110, 97, 109, 101], LastText(ParseBody(body).params, DOMAIN_NAME))
      && LastSent(ps, [100, 101, 115, 116, 95, 117, 114, 105], LastText(ParseBody(body).params, DEST_URI))
  {
    BodyReadBack(ps);
    LastSentIs(ps, DOMAIN_UUID);
    LastSentIs(ps, DOMAIN_NAME);
    LastSentIs(ps, DEST_URI);
    NameBytes();
    hide BodyOf, ParseBody, LastText, LastSent, AllSeen;
  }

  lemma NameBytes()
    ensures DOMAIN_UUID == [100, 111, 109, 97, 105, 110, 95, 117, 117, 105, 100]
    ensures DOMAIN_NAME == [100, 111, 109, 97, 105, 110, 95, 110, 97, 109, 101]
    ensures DEST_URI == [100, 101, 115, 116, 95, 117, 114, 105]
  {
    var a, b, c := "domain_uuid", "domain_name", "dest_uri";
    assert a[0] == 'd' && a[1] == 'o' && a[2] == 'm' && a[3] == 'a' && a[4] == 'i' && a[5] == 'n' && a[6] == '_';
    assert a[7] == 'u' && a[8] == 'u' && a[9] == 'i' && a[10] == 'd';
    assert b[0] == 'd' && b[1] == 'o' && b[2] == 'm' && b[3] == 'a' && b[4] == 'i' && b[5] == 'n' && b[6] == '_';
    assert b[7] == 'n' && b[8] == 'a' && b[9] == 'm' && b[10] == 'e';
    assert c[0] == 'd' && c[1] == 'e' && c[2] == 's' && c[3] == 't' && c[4] == '_' && c[5] == 'u' && c[6] == 'r' && c[7] == 'i';
  }
}
