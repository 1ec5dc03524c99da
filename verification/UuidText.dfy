/** UUIDs as sixteen bytes and as text. */
module UuidText {
  import opened Basics
  import opened Xdr

  type Uuid16 = u: seq<byte> | |u| == 16 witness seq(16, _ => 0)

  function Digit(n: int): char
    requires 0 <= n < 16
  {
    if n < 10 then '0' + n as char else 'a' + (n - 10) as char
  }

  /** A number in lower-case hexadecimal, zero-filled to `width` digits; only that many are kept. */
  function Hex(n: nat, width: nat): (s: string)
    ensures |s| == width
  {
    if width == 0 then "" else Hex(n / 16, width - 1) + [Digit(n % 16)]
  }

  /** The number whose bytes these are, most significant first. */
  function Word(b: seq<byte>): nat
  {
    if b == [] then 0 else Word(b[..|b| - 1]) * 256 + b[|b| - 1]
  }

  /** One group of the text, formatted from the word its bytes make, and what follows the dash. */
  function Group(b: seq<byte>, tail: string): string
  {
    Hex(Word(b), 2 * |b|) + ("-" + tail)
  }

  function UuidString(u: Uuid16): string
  {
    Group(u[0..4], Group(u[4..6], Group(u[6..8], Group(u[8..10], Hex(Word(u[10..16]), 12)))))
  }

  function StripDashes(s: string): string
  {
    if s == "" then "" else (if s[0] == '-' then "" else [s[0]]) + StripDashes(s[1..])
  }

  /** The value of a hexadecimal digit in either case. */
  function Nibble(c: char): Option<int>
  {
    if '0' <= c <= '9' then Some(c as int - '0' as int)
    else if 'a' <= c <= 'f' then Some(c as int - 'a' as int + 10)
    else if 'A' <= c <= 'F' then Some(c as int - 'A' as int + 10)
    else None
  }

  /** The bytes two hexadecimal digits each; nothing if a character is not a digit or one is left over. */
  function HexDecode(s: string): Option<seq<byte>>
  {
    if s == "" then Some([])
    else if |s| == 1 then None
    else
      var hi, lo, rest := Nibble(s[0]), Nibble(s[1]), HexDecode(s[2..]);
      if hi.None? || lo.None? || rest.None? then None else Some([Low(hi.value * 16 + lo.value)] + rest.value)
  }

  function ParseUuid(s: string): Option<Uuid16>
  {
    var digits := StripDashes(s);
    if |digits| != 32 then None
    else
      var b := HexDecode(digits);
      if b.None? || |b.value| != 16 then None else Some(b.value)
  }

  // ---- Round trip ------------------------------------------------------------------------------

  /** Each byte as two digits. */
  function BytesHex(b: seq<byte>): string
  {
    if b == [] then "" else [Digit(b[0] / 16), Digit(b[0] % 16)] + BytesHex(b[1..])
  }

  lemma {:induction false} BytesHexSnoc(b: seq<byte>, x: byte)
    ensures BytesHex(b + [x]) == BytesHex(b) + [Digit(x / 16), Digit(x % 16)]
  {
    if b != [] {
      assert (b + [x])[1..] == b[1..] + [x];
      BytesHexSnoc(b[1..], x);
    }
  }

  lemma NibblesOf(w: int, x: byte)
    ensures (w * 256 + x) % 16 == x % 16 && (w * 256 + x) / 16 == w * 16 + x / 16
    ensures (w * 16 + x / 16) % 16 == x / 16 && (w * 16 + x / 16) / 16 == w
  {
  }

  /** Formatting the word of some bytes at two digits a byte writes out the bytes. */
  lemma {:induction false} HexOfWord(b: seq<byte>)
    ensures Hex(Word(b), 2 * |b|) == BytesHex(b)
  {
    hide Digit;
    if b != [] {
      var init, x := b[..|b| - 1], b[|b| - 1];
      HexOfWord(init);
      assert b == init + [x];
      BytesHexSnoc(init, x);
      var w: int := Word(init);
      NibblesOf(w, x);
      assert Hex(w * 256 + x, 2 * |b|) == Hex(w * 16 + x / 16, 2 * |b| - 1) + [Digit(x % 16)];
    }
  }

  lemma {:induction false} BytesHexConcat(a: seq<byte>, b: seq<byte>)
    ensures BytesHex(a + b) == BytesHex(a) + BytesHex(b)
  {
    if a == [] {
      assert a + b == b;
    } else {
      assert (a + b)[1..] == a[1..] + b;
      BytesHexConcat(a[1..], b);
    }
  }

  lemma {:induction false} BytesHexDecodes(b: seq<byte>)
    ensures HexDecode(BytesHex(b)) == Some(b) && |BytesHex(b)| == 2 * |b|
  {
    if b != [] {
      BytesHexDecodes(b[1..]);
      var s := BytesHex(b);
      assert s[2..] == BytesHex(b[1..]);
      DigitNibble(b[0] / 16);
      DigitNibble(b[0] % 16);
      hide Digit, Nibble;
      assert Low(b[0] / 16 * 16 + b[0] % 16) == b[0];
      assert b == [b[0]] + b[1..];
    }
  }

  lemma DigitNibble(n: int)
    requires 0 <= n < 16
    ensures Nibble(Digit(n)) == Some(n) && Digit(n) != '-'
  {
  }

  lemma {:induction false} StripConcat(s: string, t: string)
    ensures StripDashes(s + t) == StripDashes(s) + StripDashes(t)
  {
    if s == "" {
      assert s + t == t;
    } else {
      assert (s + t)[1..] == s[1..] + t;
      StripConcat(s[1..], t);
    }
  }

  lemma {:induction false} StripDigit(c: char, t: string)
    requires c != '-'
    ensures StripDashes([c] + t) == [c] + StripDashes(t)
  {
    assert ([c] + t)[1..] == t;
  }

  lemma {:induction false} StripBytesHex(b: seq<byte>)
    ensures StripDashes(BytesHex(b)) == BytesHex(b)
  {
    hide Digit;
    if b != [] {
      var high, low, rest := Digit(b[0] / 16), Digit(b[0] % 16), BytesHex(b[1..]);
      StripBytesHex(b[1..]);
      DigitNibble(b[0] / 16);
      DigitNibble(b[0] % 16);
      hide StripDashes;
      StripDigit(low, rest);
      StripDigit(high, [low] + rest);
      assert BytesHex(b) == [high] + ([low] + rest);
    }
  }

  /** A dash is dropped and the group before it kept. */
  lemma {:induction false} StripGroup(b: seq<byte>, tail: string)
    ensures StripDashes(Group(b, tail)) == BytesHex(b) + StripDashes(tail)
  {
    HexOfWord(b);
    hide Hex, Word, BytesHex;
    StripConcat(BytesHex(b), "-" + tail);
    StripBytesHex(b);
    assert ("-" + tail)[1..] == tail;
  }

  /** Each group in turn: the digits of the groups are the digits of all the bytes. */
  lemma {:induction false} StripGroups(b: seq<byte>, rest: seq<byte>, tail: string)
    requires StripDashes(tail) == BytesHex(rest)
    ensures StripDashes(Group(b, tail)) == BytesHex(b + rest)
  {
    StripGroup(b, tail);
    BytesHexConcat(b, rest);
  }

  lemma {:induction false} UuidDigits(u: Uuid16)
    ensures StripDashes(UuidString(u)) == BytesHex(u)
  {
    hide Hex, Word, StripDashes, BytesHex, Group;
    HexOfWord(u[10..16]);
    StripBytesHex(u[10..16]);
    var t0 := Hex(Word(u[10..16]), 12);
    var t1 := Group(u[8..10], t0);
    var t2 := Group(u[6..8], t1);
    var t3 := Group(u[4..6], t2);
    StripGroups(u[8..10], u[10..16], t0);
    assert u[8..10] + u[10..16] == u[8..16];
    StripGroups(u[6..8], u[8..16], t1);
    assert u[6..8] + u[8..16] == u[6..16];
    StripGroups(u[4..6], u[6..16], t2);
    assert u[4..6] + u[6..16] == u[4..16];
    StripGroups(u[0..4], u[4..16], t3);
    assert u[0..4] + u[4..16] == u;
  }

  /** UUID text and bytes: parsing the text of any sixteen bytes gives those bytes back. */
  lemma {:induction false} UuidRoundTrip(u: Uuid16)
    ensures ParseUuid(UuidString(u)) == Some(u)
  {
    UuidDigits(u);
    BytesHexDecodes(u);
  }

  /** Two UUIDs have the same text only if they are the same bytes. */
  lemma {:induction false} UuidStringInjective(u: Uuid16, v: Uuid16)
    ensures UuidString(u) == UuidString(v) <==> u == v
  {
    UuidRoundTrip(u);
    UuidRoundTrip(v);
  }

  // ---- Layout --------------------------------------------------------------------------------------

  /** Half-byte `k` of the sixteen bytes, the high half of each byte first. */
  function HalfByte(u: Uuid16, k: nat): int
    requires k < 32
  {
    if k % 2 == 0 then u[k / 2] / 16 else u[k / 2] % 16
  }

  /** Where the digit of half-byte `k` stands in the text: dashes follow the first eight digits and then every
      four, three times. */
  function Place(k: nat): nat
  {
    if k < 8 then k else if k < 12 then k + 1 else if k < 16 then k + 2 else if k < 20 then k + 3 else k + 4
  }

  lemma {:induction false} BytesHexAt(b: seq<byte>, k: nat)
    requires k < 2 * |b|
    ensures |BytesHex(b)| == 2 * |b|
    ensures BytesHex(b)[k] == Digit(if k % 2 == 0 then b[k / 2] / 16 else b[k / 2] % 16)
    decreases |b|
  {
    hide Digit;
    BytesHexLength(b);
    if k >= 2 {
      BytesHexAt(b[1..], k - 2);
      assert BytesHex(b)[k] == BytesHex(b[1..])[k - 2];
      assert b[1..][(k - 2) / 2] == b[k / 2];
    }
  }

  lemma {:induction false} BytesHexLength(b: seq<byte>)
    ensures |BytesHex(b)| == 2 * |b|
  {
    if b != [] {
      BytesHexLength(b[1..]);
    }
  }

  lemma DigitIsLower(n: int)
    requires 0 <= n < 16
    ensures Digit(n) == "0123456789abcdef"[n]
  {
  }

  function Joined(a: string, b: string, c: string, d: string, e: string): string
  {
    a + "-" + b + "-" + c + "-" + d + "-" + e
  }

  /** The text in five groups of digits. */
  lemma {:induction false} TextGroups(u: Uuid16)
    ensures UuidString(u) ==
            Joined(BytesHex(u[0..4]), BytesHex(u[4..6]), BytesHex(u[6..8]), BytesHex(u[8..10]), BytesHex(u[10..16]))
  {
    hide Hex, Word, BytesHex;
    HexOfWord(u[0..4]);
    HexOfWord(u[4..6]);
    HexOfWord(u[6..8]);
    HexOfWord(u[8..10]);
    HexOfWord(u[10..16]);
  }

  lemma {:induction false} JoinedAt(a: string, b: string, c: string, d: string, e: string, k: nat)
    requires |a| == 8 && |b| == |c| == |d| == 4 && |e| == 12 && k < 32
    ensures
      var s := Joined(a, b, c, d, e);
      && |s| == 36 && s[8] == s[13] == s[18] == s[23] == '-'
      && s[Place(k)] == if k < 8 then a[k] else if k < 12 then b[k - 8] else if k < 16 then c[k - 12]
                        else if k < 20 then d[k - 16] else e[k - 20]
  {
  }

  lemma {:induction false} DigitsAt(u: Uuid16, k: nat)
    requires k < 32
    ensures |BytesHex(u[0..4])| == 8 && |BytesHex(u[4..6])| == |BytesHex(u[6..8])| == |BytesHex(u[8..10])| == 4
    ensures |BytesHex(u[10..16])| == 12
    ensures Digit(HalfByte(u, k)) ==
            if k < 8 then BytesHex(u[0..4])[k] else if k < 12 then BytesHex(u[4..6])[k - 8]
            else if k < 16 then BytesHex(u[6..8])[k - 12] else if k < 20 then BytesHex(u[8..10])[k - 16]
            else BytesHex(u[10..16])[k - 20]
  {
    hide BytesHex, Digit;
    BytesHexLength(u[0..4]);
    BytesHexLength(u[4..6]);
    BytesHexLength(u[6..8]);
    BytesHexLength(u[8..10]);
    BytesHexLength(u[10..16]);
    if k < 8 {
      BytesHexAt(u[0..4], k);
    } else if k < 12 {
      BytesHexAt(u[4..6], k - 8);
    } else if k < 16 {
      BytesHexAt(u[6..8], k - 12);
    } else if k < 20 {
      BytesHexAt(u[8..10], k - 16);
    } else {
      BytesHexAt(u[10..16], k - 20);
    }
  }

  /** The text of a UUID, character by character: thirty-six of them, dashes at four places, and at every other
      place the lower-case digit of one half-byte, in order. */
  lemma {:induction false} TextLayout(u: Uuid16, k: nat)
    requires k < 32
    ensures |UuidString(u)| == 36
    ensures UuidString(u)[8] == UuidString(u)[13] == UuidString(u)[18] == UuidString(u)[23] == '-'
    ensures UuidString(u)[Place(k)] == "0123456789abcdef"[HalfByte(u, k)]
  {
    hide UuidString, BytesHex, Digit, Joined, Place;
    TextGroups(u);
    DigitsAt(u, k);
    JoinedAt(BytesHex(u[0..4]), BytesHex(u[4..6]), BytesHex(u[6..8]), BytesHex(u[8..10]), BytesHex(u[10..16]), k);
    DigitIsLower(HalfByte(u, k));
  }

  // ---- What parses -----------------------------------------------------------------------------------

  /** A hexadecimal digit in either case, and its value. */
  predicate IsDigit(c: char, n: int)
  {
    0 <= n < 16 && (c == "0123456789abcdef"[n] || c == "0123456789ABCDEF"[n])
  }

  lemma {:induction false} NibbleIs(c: char, n: int)
    ensures Nibble(c) == Some(n) <==> IsDigit(c, n)
  {
    if 0 <= n < 16 {
      var l, u := "0123456789abcdef", "0123456789ABCDEF";
      assert l[n] == if n < 10 then '0' + n as char else 'a' + (n - 10) as char;
      assert u[n] == if n < 10 then '0' + n as char else 'A' + (n - 10) as char;
    }
  }

  /** Two digits make a byte. */
  lemma {:induction false} PairIff(c: char, d: char, x: byte)
    ensures Nibble(c).Some? && Nibble(d).Some? && Low(Nibble(c).value * 16 + Nibble(d).value) == x <==>
            IsDigit(c, x / 16) && IsDigit(d, x % 16)
  {
    hide IsDigit;
    NibbleIs(c, x / 16);
    NibbleIs(d, x % 16);
    if Nibble(c).Some? && Nibble(d).Some? {
      NibbleSmall(c);
      NibbleSmall(d);
    }
  }

  lemma NibbleSmall(c: char)
    ensures Nibble(c).Some? ==> 0 <= Nibble(c).value < 16
  {
  }

  /** The digits spell the bytes, two a byte. */
  predicate Spells(s: string, b: seq<byte>)
  {
    |s| == 2 * |b| && forall i :: 0 <= i < |b| ==> IsDigit(s[2 * i], b[i] / 16) && IsDigit(s[2 * i + 1], b[i] % 16)
  }

  lemma {:induction false} SpellsMore(s: string, b: seq<byte>)
    requires |s| >= 2 && b != []
    ensures Spells(s, b) <==> IsDigit(s[0], b[0] / 16) && IsDigit(s[1], b[0] % 16) && Spells(s[2..], b[1..])
  {
    hide IsDigit;
    if Spells(s, b) {
      assert IsDigit(s[2 * 0], b[0] / 16) && IsDigit(s[2 * 0 + 1], b[0] % 16);
      forall i | 0 <= i < |b[1..]|
        ensures IsDigit(s[2..][2 * i], b[1..][i] / 16) && IsDigit(s[2..][2 * i + 1], b[1..][i] % 16)
      {
        assert IsDigit(s[2 * (i + 1)], b[i + 1] / 16) && IsDigit(s[2 * (i + 1) + 1], b[i + 1] % 16);
      }
    }
    if IsDigit(s[0], b[0] / 16) && IsDigit(s[1], b[0] % 16) && Spells(s[2..], b[1..]) {
      forall i | 0 <= i < |b|
        ensures IsDigit(s[2 * i], b[i] / 16) && IsDigit(s[2 * i + 1], b[i] % 16)
      {
        if i > 0 {
          assert IsDigit(s[2..][2 * (i - 1)], b[1..][i - 1] / 16) && IsDigit(s[2..][2 * (i - 1) + 1], b[1..][i - 1] % 16);
        }
      }
    }
  }

  lemma {:induction false} HexDecodeIff(s: string, b: seq<byte>)
    ensures HexDecode(s) == Some(b) <==> Spells(s, b)
    decreases |s|
  {
    hide Nibble, IsDigit;
    if |s| >= 2 && b != [] {
      HexDecodeIff(s[2..], b[1..]);
      PairIff(s[0], s[1], b[0]);
      SpellsMore(s, b);
      hide Spells;
      assert b == [b[0]] + b[1..];
    }
  }

  /** Exactly what parses, and to what: after dropping the dashes, thirty-two hexadecimal digits in either case
      that spell the bytes. */
  lemma {:induction false} ParseIff(s: string, u: Uuid16)
    ensures ParseUuid(s) == Some(u) <==>
            var d := StripDashes(s);
            |d| == 32 && forall i :: 0 <= i < 16 ==> IsDigit(d[2 * i], u[i] / 16) && IsDigit(d[2 * i + 1], u[i] % 16)
  {
    hide StripDashes, HexDecode, IsDigit;
    HexDecodeIff(StripDashes(s), u);
  }

  /** Dashes are dropped wherever they stand, and nothing else is. */
  lemma {:induction false} DashesDropped(s: string, t: string, c: char)
    ensures StripDashes(s + "-" + t) == StripDashes(s) + StripDashes(t)
    ensures c != '-' ==> StripDashes(s + [c] + t) == StripDashes(s) + [c] + StripDashes(t)
    ensures ParseUuid(s + "-" + t) == ParseUuid(s + t)
  {
    StripConcat(s, t);
    StripConcat(s + "-", t);
    StripConcat(s, "-");
    StripConcat(s + [c], t);
    StripConcat(s, [c]);
    assert "-"[1..] == "" && [c][1..] == "";
  }

  function Lookup<D>(domains: map<string, D>, u: Uuid16): Option<D>
  {
    if UuidString(u) in domains then Some(domains[UuidString(u)]) else None
  }

  /** A domain stored under the text of the UUID parsed from its XML, in any spelling, is found by exactly
      the references that carry the same sixteen bytes; every other reference finds what it found before. */
  lemma {:induction false} FoundByReference<D>(domains: map<string, D>, xml: string, d: D, reference: Uuid16)
    requires ParseUuid(xml).Some?
    ensures Lookup(domains[UuidString(ParseUuid(xml).value) := d], reference) ==
            if reference == ParseUuid(xml).value then Some(d) else Lookup(domains, reference)
  {
    UuidStringInjective(reference, ParseUuid(xml).value);
    hide UuidString, ParseUuid;
  }
}
