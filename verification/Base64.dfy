/** The base64 alphabet and the pure reference forms of section 6.3 and 6.4 of RFC 4880:
    `Encode` turns bytes into characters, `Sextets` and `Bytes` turn characters back.
    The streaming encoder and decoder are proved against these functions. */
module Base64 {
  type byte = bv8

  /** The three bytes of a CRC-24. */
  type Crc = (byte, byte, byte)

  const TAB: byte := 0x09
  const LF: byte := 0x0a
  const CR: byte := 0x0d
  const BLANK: byte := 0x20
  const DASH: byte := 0x2d
  const EQ: byte := 0x3d

  /** Entry `v` of B64ENC: the 64 characters repeated four times, so only the low six bits count. */
  function EncChar(v: byte): byte {
    var s := v & 0x3f;
    if s < 26 then s + 0x41
    else if s < 52 then s + 0x47
    else if s < 62 then s - 4
    else if s == 62 then 0x2b
    else 0x2f
  }

  const SPACE: byte := 0xfd
  const EQUALS: byte := 0xfe
  const WRONG: byte := 0xff

  /** Entry `c` of B64DEC: a 6-bit value, or one of the three marks above. */
  function DecChar(c: byte): byte {
    if 0x41 <= c <= 0x5a then c - 0x41
    else if 0x61 <= c <= 0x7a then c - 0x47
    else if 0x30 <= c <= 0x39 then c + 4
    else if c == 0x2b then 62
    else if c == 0x2f then 63
    else if c == 0x3d then EQUALS
    else if c == 0x09 || c == 0x0a || c == 0x0d || c == 0x20 then SPACE
    else WRONG
  }

  lemma DecEnc(v: byte)
    ensures DecChar(EncChar(v)) == v & 0x3f
    ensures DecChar(EncChar(v)) < 64
  {
  }

  /** Only the characters of the alphabet have a value. */
  lemma EncDec(c: byte)
    requires DecChar(c) < 64
    ensures EncChar(DecChar(c)) == c
  {
  }

  /** armored_encode3: one quantum, byte arithmetic. */
  function Encode3(a: byte, b: byte, c: byte): (r: seq<byte>)
    ensures |r| == 4
  {
    [EncChar(a >> 2), EncChar((a << 4) | (b >> 4)), EncChar((b << 2) | (c >> 6)), EncChar(c)]
  }

  /** The same quantum as the line loop computes it, through a 24-bit word. */
  function Encode24(a: byte, b: byte, c: byte): (r: seq<byte>)
    ensures |r| == 4
  {
    var t := ((a as bv32) << 16) | ((b as bv32) << 8) | (c as bv32);
    [EncChar(((t >> 18) & 0xff) as byte), EncChar(((t >> 12) & 0xff) as byte),
     EncChar(((t >> 6) & 0xff) as byte), EncChar((t & 0xff) as byte)]
  }

  lemma EncodeFormsAgree(a: byte, b: byte, c: byte)
    ensures Encode24(a, b, c) == Encode3(a, b, c)
  {
    var t := ((a as bv32) << 16) | ((b as bv32) << 8) | (c as bv32);
    assert ((t >> 18) & 0xff) as byte & 0x3f == (a >> 2) & 0x3f;
    assert ((t >> 12) & 0xff) as byte & 0x3f == ((a << 4) | (b >> 4)) & 0x3f;
    assert ((t >> 6) & 0xff) as byte & 0x3f == ((b << 2) | (c >> 6)) & 0x3f;
    assert (t & 0xff) as byte & 0x3f == c & 0x3f;
  }

  /** Four 6-bit values to three bytes, through a 24-bit word as both decoding loops do it. */
  function Decode4(p: byte, q: byte, r: byte, s: byte): (d: seq<byte>)
    ensures |d| == 3
  {
    var w := ((p as bv32) << 18) | ((q as bv32) << 12) | ((r as bv32) << 6) | (s as bv32);
    [((w >> 16) & 0xff) as byte, ((w >> 8) & 0xff) as byte, (w & 0xff) as byte]
  }

  lemma SextetsToBytes(a: byte, b: byte, c: byte)
    ensures Decode4((a >> 2) & 0x3f, ((a << 4) | (b >> 4)) & 0x3f, ((b << 2) | (c >> 6)) & 0x3f, c & 0x3f)
            == [a, b, c]
  {
  }

  lemma QuantumRoundTrip(a: byte, b: byte, c: byte)
    ensures var e := Encode3(a, b, c);
            Decode4(DecChar(e[0]), DecChar(e[1]), DecChar(e[2]), DecChar(e[3])) == [a, b, c]
  {
    var e := Encode3(a, b, c);
    assert DecChar(e[0]) == (a >> 2) & 0x3f by { DecEnc(a >> 2); }
    assert DecChar(e[1]) == ((a << 4) | (b >> 4)) & 0x3f by { DecEnc((a << 4) | (b >> 4)); }
    assert DecChar(e[2]) == ((b << 2) | (c >> 6)) & 0x3f by { DecEnc((b << 2) | (c >> 6)); }
    assert DecChar(e[3]) == c & 0x3f by { DecEnc(c); }
    SextetsToBytes(a, b, c);
  }

  // ----- Byte and character sequences -----

  /** Characters of the whole 3-byte groups of `s`; one or two trailing bytes are not encoded. */
  function Encode(s: seq<byte>): (r: seq<byte>)
    ensures |r| == |s| / 3 * 4
  {
    if |s| < 3 then [] else Encode3(s[0], s[1], s[2]) + Encode(s[3..])
  }

  /** The last quantum, for one or two bytes. */
  function EncodeTail(t: seq<byte>): (r: seq<byte>)
    requires |t| <= 2
  {
    if |t| == 1 then [EncChar(t[0] >> 2), EncChar(t[0] << 4), 0x3d, 0x3d]
    else if |t| == 2 then [EncChar(t[0] >> 2), EncChar((t[0] << 4) | (t[1] >> 4)), EncChar(t[1] << 2), 0x3d]
    else []
  }

  /** The examples of section 6.5 of RFC 4880: 14fb9c03d97e, 14fb9c03d9 and 14fb9c03. */
  lemma Rfc4880Examples()
    ensures Encode([0x14, 0xfb, 0x9c, 0x03, 0xd9, 0x7e]) == [0x46, 0x50, 0x75, 0x63, 0x41, 0x39, 0x6c, 0x2b]
    ensures EncodeTail([0x03, 0xd9]) == [0x41, 0x39, 0x6b, EQ]
    ensures EncodeTail([0x03]) == [0x41, 0x77, EQ, EQ]
  {
    var s: seq<byte> := [0x14, 0xfb, 0x9c, 0x03, 0xd9, 0x7e];
    assert s[3..] == [0x03, 0xd9, 0x7e] && s[3..][3..] == [];
    assert Encode3(0x14, 0xfb, 0x9c) == [0x46, 0x50, 0x75, 0x63];
    assert Encode3(0x03, 0xd9, 0x7e) == [0x41, 0x39, 0x6c, 0x2b];
  }

  /** The bytes of `s` that do not fill a group of three. */
  function TailOf(s: seq<byte>): (t: seq<byte>)
    ensures |t| == |s| % 3
  {
    s[|s| / 3 * 3..]
  }

  /** Decoding of the whole groups of four 6-bit values in `x`. */
  function Bytes(x: seq<byte>): (r: seq<byte>)
    ensures |r| == |x| / 4 * 3
  {
    if |x| < 4 then [] else Decode4(x[0], x[1], x[2], x[3]) + Bytes(x[4..])
  }

  /** Bytes of the last, padded group: `eq` is the number of '=' characters. */
  function PaddedBytes(x: seq<byte>, eq: nat): (r: seq<byte>)
    requires eq <= 2 && (eq == 0 || |x| == 4 - eq)
  {
    if eq == 1 then
      var w := ((x[0] as bv32) << 10) | ((x[1] as bv32) << 4) | ((x[2] as bv32) >> 2);
      [((w >> 8) & 0xff) as byte, (w & 0xff) as byte]
    else if eq == 2 then [(x[0] << 2) | (x[1] >> 4)]
    else []
  }

  /** Characters that may stand inside base64 data. */
  predicate IsBody(c: byte) {
    DecChar(c) < 64 || DecChar(c) == SPACE
  }

  predicate AllBody(s: seq<byte>) {
    forall i :: 0 <= i < |s| ==> IsBody(s[i])
  }

  /** The 6-bit values of the characters of `s`, everything else dropped. */
  function Sextets(s: seq<byte>): (r: seq<byte>)
    ensures |r| <= |s|
  {
    if s == [] then []
    else (if DecChar(s[0]) < 64 then [DecChar(s[0])] else []) + Sextets(s[1..])
  }

  /** Length of the longest prefix of body characters. */
  function BodyLen(s: seq<byte>): (n: nat)
    ensures n <= |s| && AllBody(s[..n]) && (n < |s| ==> !IsBody(s[n]))
  {
    if s == [] || !IsBody(s[0]) then 0
    else
      var m := BodyLen(s[1..]);
      assert s[..1 + m] == [s[0]] + s[1..][..m];
      1 + m
  }

  lemma {:induction false} EncodeAppend(x: seq<byte>, y: seq<byte>)
    requires |x| % 3 == 0
    ensures Encode(x + y) == Encode(x) + Encode(y)
  {
    hide Encode3;
    if x == [] {
      assert x + y == y;
    } else {
      assert (x + y)[3..] == x[3..] + y;
      EncodeAppend(x[3..], y);
    }
  }

  lemma {:induction false} BytesAppend(x: seq<byte>, y: seq<byte>)
    requires |x| % 4 == 0
    ensures Bytes(x + y) == Bytes(x) + Bytes(y)
  {
    hide Decode4;
    if x == [] {
      assert x + y == y;
    } else {
      assert (x + y)[4..] == x[4..] + y;
      BytesAppend(x[4..], y);
    }
  }

  lemma {:induction false} SextetsAppend(x: seq<byte>, y: seq<byte>)
    ensures Sextets(x + y) == Sextets(x) + Sextets(y)
  {
    hide DecChar;
    if x == [] {
      assert x + y == y;
    } else {
      assert (x + y)[1..] == x[1..] + y;
      SextetsAppend(x[1..], y);
    }
  }

  lemma SextetsOne(c: byte)
    ensures Sextets([c]) == if DecChar(c) < 64 then [DecChar(c)] else []
  {
    hide DecChar;
    assert [c][1..] == [];
  }

  lemma {:induction false} BodyLenAppend(x: seq<byte>, y: seq<byte>)
    requires AllBody(x)
    ensures BodyLen(x + y) == |x| + BodyLen(y)
  {
    hide IsBody;
    if x == [] {
      assert x + y == y;
    } else {
      assert (x + y)[1..] == x[1..] + y;
      BodyLenAppend(x[1..], y);
    }
  }

  /** Decoding undoes encoding, whole groups. */
  lemma {:induction false} DecodeEncode(s: seq<byte>)
    requires |s| % 3 == 0
    ensures AllBody(Encode(s)) && |Sextets(Encode(s))| == |Encode(s)|
    ensures Bytes(Sextets(Encode(s))) == s
  {
    hide Encode, Encode3, Decode4, DecChar, EncChar, Sextets, Bytes, IsBody;
    if s == [] {
      NothingEncoded();
    } else {
      var e, t := Encode3(s[0], s[1], s[2]), Encode(s[3..]);
      FirstGroup(s);
      DecodeEncode(s[3..]);
      Encode3Sextets(s[0], s[1], s[2]);
      SextetsAppend(e, t);
      BytesAppend(Sextets(e), Sextets(t));
      QuantumRoundTrip(s[0], s[1], s[2]);
      BytesOfFour(Sextets(e));
      assert [s[0], s[1], s[2]] + s[3..] == s;
    }
  }

  lemma NothingEncoded()
    ensures Encode([]) == [] && Sextets([]) == [] && Bytes([]) == []
  {
  }

  lemma FirstGroup(s: seq<byte>)
    requires |s| >= 3
    ensures Encode(s) == Encode3(s[0], s[1], s[2]) + Encode(s[3..])
  {
    hide Encode3;
  }

  lemma BytesOfFour(x: seq<byte>)
    requires |x| == 4
    ensures Bytes(x) == Decode4(x[0], x[1], x[2], x[3])
  {
    assert x[4..] == [];
  }

  lemma {:induction false} Encode3Sextets(a: byte, b: byte, c: byte)
    ensures var e := Encode3(a, b, c);
            AllBody(e) && Sextets(e) == [DecChar(e[0]), DecChar(e[1]), DecChar(e[2]), DecChar(e[3])]
  {
    DecEnc(a >> 2);
    DecEnc((a << 4) | (b >> 4));
    DecEnc((b << 2) | (c >> 6));
    DecEnc(c);
    FourSextets(Encode3(a, b, c));
  }

  lemma {:induction false} FourSextets(e: seq<byte>)
    requires |e| == 4 && forall i :: 0 <= i < 4 ==> DecChar(e[i]) < 64
    ensures Sextets(e) == [DecChar(e[0]), DecChar(e[1]), DecChar(e[2]), DecChar(e[3])]
  {
    hide DecChar;
    assert e[1..][1..] == e[2..] && e[2..][1..] == e[3..] && e[3..][1..] == [];
    assert Sextets(e[3..]) == [DecChar(e[3])];
    assert Sextets(e[2..]) == [DecChar(e[2])] + Sextets(e[3..]);
    assert Sextets(e[1..]) == [DecChar(e[1])] + Sextets(e[2..]);
  }

  // ----- Groups of a longer string -----

  lemma EncodeNone(s: seq<byte>)
    ensures Encode(s[..0]) == []
  {
  }

  lemma EncodeNext(s: seq<byte>, pos: nat)
    requires pos % 3 == 0 && pos + 3 <= |s|
    ensures Encode(s[..pos + 3]) == Encode(s[..pos]) + Encode3(s[pos], s[pos + 1], s[pos + 2])
  {
    hide Encode3;
    var q := s[pos..pos + 3];
    assert s[..pos + 3] == s[..pos] + q;
    EncodeAppend(s[..pos], q);
    assert q[3..] == [];
  }

  /** Only whole groups are encoded. */
  lemma EncodeWhole(s: seq<byte>, n: nat)
    requires n % 3 == 0 && n <= |s| < n + 3
    ensures Encode(s) == Encode(s[..n])
  {
    hide Encode3;
    assert s == s[..n] + s[n..];
    EncodeAppend(s[..n], s[n..]);
  }

  /** Fewer than three bytes in all: nothing can be encoded yet. */
  lemma TailGrows(s: seq<byte>, more: seq<byte>)
    requires |TailOf(s)| + |more| < 3
    ensures Encode(s + more) == Encode(s)
    ensures TailOf(s + more) == TailOf(s) + more
  {
    hide Encode;
    var n := |s| / 3 * 3;
    assert (s + more)[..n] == s[..n];
    EncodeWhole(s, n);
    EncodeWhole(s + more, n);
    assert |s + more| / 3 * 3 == n;
  }
}
