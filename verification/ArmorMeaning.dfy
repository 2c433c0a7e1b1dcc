/** What the writer's text means to a reader. */
module ArmorMeaning {
  import opened Options
  import opened Base64
  import opened ArmorText
  import opened ArmorReference
  import opened ArmorDecoder

  /** Line ends between the characters do not change the data. */
  lemma {:induction false} CharsMeaning(s: seq<byte>)
    requires AllBody(Chars(s))
    ensures AllBody(s) && Sextets(s) == Sextets(Chars(s))
  {
    hide DecChar;
    if s != [] {
      var a, r := [s[0]], s[1..];
      assert s == a + r;
      EolIsSpace();
      SextetsOne(s[0]);
      SextetsAppend(a, r);
      if s[0] == CR || s[0] == LF {
        assert Chars(s) == Chars(r);
        CharsMeaning(r);
      } else {
        assert Chars(s) == a + Chars(r);
        assert Chars(s)[1..] == Chars(r) && Chars(s)[0] == s[0];
        CharsMeaning(r);
        SextetsAppend(a, Chars(r));
      }
    }
  }

  lemma EolIsSpace()
    ensures DecChar(LF) == SPACE && DecChar(CR) == SPACE
  {
  }

  /** Text with the characters of the whole groups of a payload, and its decoding. */
  lemma WholeMeaning(w: seq<byte>, payload: seq<byte>)
    requires Chars(w) == Encode(payload)
    ensures AllBody(w) && |Sextets(w)| % 4 == 0
    ensures Bytes(Sextets(w)) + TailOf(payload) == payload
  {
    hide Encode, Chars, Sextets, Bytes, IsBody;
    var n := |payload| / 3 * 3;
    EncodeWhole(payload, n);
    DecodeEncode(payload[..n]);
    CharsMeaning(w);
    assert payload[..n] + payload[n..] == payload;
  }


  /** The characters of the last quantum before the padding. */
  function TailChars(t: seq<byte>): (r: seq<byte>)
    requires |t| <= 2
  {
    if t == [] then [] else EncodeTail(t)[..|t| + 1]
  }

  /** The padding behind them. */
  function TailPad(t: seq<byte>): (n: nat)
    requires |t| <= 2
    ensures n <= 2
  {
    if t == [] then 0 else 3 - |t|
  }

  lemma TailMeaning(t: seq<byte>)
    requires 1 <= |t| <= 2
    ensures var c := TailChars(t);
            && EncodeTail(t) == c + seq(TailPad(t), i => EQ)
            && AllBody(c) && |Sextets(c)| == |t| + 1
            && PaddedBytes(Sextets(c), TailPad(t)) == t
  {
    hide Sextets, EncChar, DecChar, PaddedBytes;
    if |t| == 1 {
      OneByte(t[0]);
      TwoChars(t[0] >> 2, t[0] << 4);
      assert t == [t[0]] && TailChars(t) == [EncChar(t[0] >> 2), EncChar(t[0] << 4)];
    } else {
      TwoBytes(t[0], t[1]);
      var p, q, r := t[0] >> 2, (t[0] << 4) | (t[1] >> 4), t[1] << 2;
      ThreeChars(p, q, r);
      assert t == [t[0], t[1]] && TailChars(t) == [EncChar(p), EncChar(q), EncChar(r)];
    }
  }

  lemma TwoChars(p: byte, q: byte)
    ensures var c := [EncChar(p), EncChar(q)]; AllBody(c) && Sextets(c) == [p & 0x3f, q & 0x3f]
  {
    hide Sextets, EncChar, DecChar;
    var a, b := [EncChar(p)], [EncChar(q)];
    DecEnc(p);
    DecEnc(q);
    SextetsOne(EncChar(p));
    SextetsOne(EncChar(q));
    SextetsAppend(a, b);
    assert a + b == [EncChar(p), EncChar(q)];
  }

  lemma ThreeChars(p: byte, q: byte, r: byte)
    ensures var c := [EncChar(p), EncChar(q), EncChar(r)]; AllBody(c) && Sextets(c) == [p & 0x3f, q & 0x3f, r & 0x3f]
  {
    hide Sextets, EncChar, DecChar;
    var a, b := [EncChar(p), EncChar(q)], [EncChar(r)];
    TwoChars(p, q);
    DecEnc(r);
    SextetsOne(EncChar(r));
    SextetsAppend(a, b);
    assert a + b == [EncChar(p), EncChar(q), EncChar(r)];
  }

  lemma OneByte(a: byte)
    ensures PaddedBytes([(a >> 2) & 0x3f, (a << 4) & 0x3f], 2) == [a]
  {
  }

  lemma TwoBytes(a: byte, b: byte)
    ensures PaddedBytes([(a >> 2) & 0x3f, ((a << 4) | (b >> 4)) & 0x3f, (b << 2) & 0x3f], 1) == [a, b]
  {
  }

  // ----- The closing lines -----

  /** The CRC line and the closing line. */
  function EndLines(crc: Crc, footer: seq<byte>): (r: seq<byte>) {
    CrcLine(crc) + [CR, LF] + (footer + [CR, LF])
  }

  function CrcLine(crc: Crc): (r: seq<byte>)
    ensures |r| == 5
  {
    [EQ] + Encode3(crc.0, crc.1, crc.2)
  }

  lemma LineIs(line: seq<byte>, more: seq<byte>, cap: nat)
    requires LF !in line && CR !in line && |line| + 2 < cap
    ensures PeekLine(line + [CR, LF] + more, cap) == Some(line)
  {
    var s := line + [CR, LF] + more;
    var w := Peek(s, cap - 1);
    var k := |line| + 1;
    assert k < |w| && w[k] == LF && w[..k] == line + [CR];
    assert LfIndex(w) == k;
    assert w[..k - 1] == line;
  }

  lemma CharsAreNotEol(a: byte, b: byte, c: byte)
    ensures var e := Encode3(a, b, c); LF !in e && CR !in e
  {
    hide DecChar, EncChar;
    DecEnc(a >> 2);
    DecEnc((a << 4) | (b >> 4));
    DecEnc((b << 2) | (c >> 6));
    DecEnc(c);
    EolIsSpace();
  }

  lemma {:induction false} CrcMeaning(a: byte, b: byte, c: byte)
    ensures var e := Encode3(a, b, c);
            var d := [DecChar(e[0]), DecChar(e[1]), DecChar(e[2]), DecChar(e[3])];
            && (forall i :: 0 <= i < 4 ==> d[i] < 64)
            && CrcBytes(d) == (a, b, c)
  {
    hide DecChar, CrcBytes, Encode3;
    Encode3Values(a, b, c);
    CrcBits(a, b, c);
    var e := Encode3(a, b, c);
    assert [DecChar(e[0]), DecChar(e[1]), DecChar(e[2]), DecChar(e[3])]
           == [(a >> 2) & 0x3f, ((a << 4) | (b >> 4)) & 0x3f, ((b << 2) | (c >> 6)) & 0x3f, c & 0x3f];
  }

  lemma Encode3Values(a: byte, b: byte, c: byte)
    ensures var e := Encode3(a, b, c);
            && DecChar(e[0]) == (a >> 2) & 0x3f && DecChar(e[1]) == ((a << 4) | (b >> 4)) & 0x3f
            && DecChar(e[2]) == ((b << 2) | (c >> 6)) & 0x3f && DecChar(e[3]) == c & 0x3f
            && DecChar(e[0]) < 64 && DecChar(e[1]) < 64 && DecChar(e[2]) < 64 && DecChar(e[3]) < 64
  {
    hide DecChar, EncChar;
    DecEnc(a >> 2);
    DecEnc((a << 4) | (b >> 4));
    DecEnc((b << 2) | (c >> 6));
    DecEnc(c);
  }

  lemma CrcBits(a: byte, b: byte, c: byte)
    ensures CrcBytes([(a >> 2) & 0x3f, ((a << 4) | (b >> 4)) & 0x3f, ((b << 2) | (c >> 6)) & 0x3f, c & 0x3f])
            == (a, b, c)
  {
  }

  lemma ReadCrcLine(crc: Crc, footer: seq<byte>)
    ensures ReadPadding(EndLines(crc, footer)) == Some((0, EndLines(crc, footer)))
    ensures ReadCrc(EndLines(crc, footer)) == Some((crc, footer + [CR, LF]))
  {
    hide PeekLine, Encode3, CrcBytes, DecChar;
    var s, line := EndLines(crc, footer), CrcLine(crc);
    CharsAreNotEol(crc.0, crc.1, crc.2);
    LineIs(line, footer + [CR, LF], 64);
    LineIs(line, footer + [CR, LF], 8);
    CrcMeaning(crc.0, crc.1, crc.2);
    var e := Encode3(crc.0, crc.1, crc.2);
    assert line[1] == e[0] && line[2] == e[1] && line[3] == e[2] && line[4] == e[3];
    assert s[5..] == [CR, LF] + (footer + [CR, LF]);
    assert ([CR, LF] + (footer + [CR, LF]))[2..] == footer + [CR, LF];
  }

  lemma ReadPadLine(k: nat, crc: Crc, footer: seq<byte>)
    requires 1 <= k <= 2
    ensures ReadPadding(seq(k, i => EQ) + [CR, LF] + EndLines(crc, footer)) == Some((k, EndLines(crc, footer)))
  {
    hide PeekLine, EndLines;
    var line := seq(k, i => EQ);
    var s := line + [CR, LF] + EndLines(crc, footer);
    LineIs(line, EndLines(crc, footer), 64);
    assert s[|line|..] == [CR, LF] + EndLines(crc, footer);
    assert ([CR, LF] + EndLines(crc, footer))[2..] == EndLines(crc, footer);
  }

  lemma ReadFooter(footer: seq<byte>)
    requires footer != [] && footer[0] == DASH
    ensures ReadTrailer(footer + [CR, LF], footer) == Some([])
  {
    hide SkipChars;
    var s, eol := footer + [CR, LF], [CR, LF];
    SkipNone(s, {CR, LF, BLANK, TAB});
    assert s[|footer|..] == eol;
    SkipNone(eol, {TAB, BLANK});
    assert eol[2..] == [];
  }

  lemma SkipNone(s: seq<byte>, chars: set<byte>)
    requires s != [] && s[0] !in chars
    ensures SkipChars(s, chars) == s
  {
  }

  /** Reading what follows the data: `k` padding characters on their own line end, or none. */
  lemma CloseMeaning(k: nat, crc: Crc, footer: seq<byte>)
    requires k <= 2 && footer != [] && footer[0] == DASH
    ensures var t := if k == 0 then EndLines(crc, footer) else seq(k, i => EQ) + [CR, LF] + EndLines(crc, footer);
            Close(t, Mode(false, footer)) == Some(End(k, Some(crc), []))
  {
    hide ReadPadding, ReadCrc, ReadTrailer, EndLines;
    ReadCrcLine(crc, footer);
    ReadFooter(footer);
    if k > 0 {
      ReadPadLine(k, crc, footer);
    }
  }

  // ----- Whole texts -----

  /** The data characters of a payload, then something that closes with the right padding. */
  lemma DataMeaning(w: seq<byte>, payload: seq<byte>, fill: seq<byte>, t: seq<byte>, m: Mode)
    requires Chars(w) == Encode(payload) && AllBody(fill) && Sextets(fill) == []
    requires (t == [] || !IsBody(t[0])) && Ends(t, m)
    requires Close(t, m).Some? && Close(t, m).value.eq == TailPad(TailOf(payload))
    requires w + TailChars(TailOf(payload)) + fill + t != []
    ensures var text := w + TailChars(TailOf(payload)) + fill + t;
            Parse([], text, m) == Some(payload) && CrcOf(text, m) == Close(t, m).value.crc
  {
    hide Encode, Chars, Sextets, Bytes, IsBody, Ends, Close, Parse, CrcOf, Final;
    hide TailChars, TailOf, PaddedBytes, TailPad;
    var tail := TailOf(payload);
    var c := TailChars(tail);
    WholeMeaning(w, payload);
    TailCharsMeaning(tail);
    var a := w + c + fill;
    SextetsAppend(w + c, fill);
    SextetsAppend(w, c);
    assert [] + Sextets(a) == Sextets(w) + Sextets(c);
    ParseStop([], a, t, m);
    CrcOfEnd(a, t, m);
    FinalSplit(Sextets(w), Sextets(c), TailPad(tail));
  }

  lemma TailCharsMeaning(t: seq<byte>)
    requires |t| <= 2
    ensures var c := TailChars(t);
            && AllBody(c) && |Sextets(c)| < 4 && (|Sextets(c)| + TailPad(t)) % 4 == 0
            && PaddedBytes(Sextets(c), TailPad(t)) == t
            && EncodeTail(t) == c + seq(TailPad(t), i => EQ)
            && (t == [] ==> c == [])
  {
    hide DecChar, EncChar;
    if t != [] {
      TailMeaning(t);
    }
  }

  /** A text that the writer may produce: the characters of the payload with line ends anywhere, the
      last quantum, and the closing lines. */
  function Armored(w: seq<byte>, payload: seq<byte>, open: bool, crc: Crc, footer: seq<byte>): (r: seq<byte>) {
    w + EncodeTail(TailOf(payload)) + Closing(open, crc, footer)
  }

  /** Reading it gives back the payload and the CRC that was written. */
  lemma ArmoredMeaning(w: seq<byte>, payload: seq<byte>, open: bool, crc: Crc, footer: seq<byte>)
    requires Chars(w) == Encode(payload) && footer != [] && footer[0] == DASH
    requires |payload| % 3 == 0 || open
    ensures Parse([], Armored(w, payload, open, crc, footer), Mode(false, footer)) == Some(payload)
    ensures CrcOf(Armored(w, payload, open, crc, footer), Mode(false, footer)) == Some(crc)
  {
    hide *;
    var m, tail := Mode(false, footer), TailOf(payload);
    var fill, t := LineFill(tail, open), EndText(tail, crc, footer);
    ArmoredParts(w, payload, open, crc, footer);
    FillMeaning(tail, open);
    RestMeaning(tail, crc, footer);
    DataMeaning(w, payload, fill, t, m);
  }

  /** Line end behind whole groups. */
  function LineFill(tail: seq<byte>, open: bool): (r: seq<byte>) {
    if tail == [] && open then [CR, LF] else []
  }

  /** From the padding or, without padding, from the CRC line on. */
  function EndText(tail: seq<byte>, crc: Crc, footer: seq<byte>): (r: seq<byte>)
    requires |tail| <= 2
  {
    if tail == [] then EndLines(crc, footer)
    else seq(TailPad(tail), i => EQ) + [CR, LF] + EndLines(crc, footer)
  }

  lemma ArmoredParts(w: seq<byte>, payload: seq<byte>, open: bool, crc: Crc, footer: seq<byte>)
    requires |payload| % 3 == 0 || open
    ensures var tail := TailOf(payload);
            Armored(w, payload, open, crc, footer)
            == w + TailChars(tail) + LineFill(tail, open) + EndText(tail, crc, footer)
  {
    hide EndLines, Closing, TailOf, TailChars, EncodeTail, TailPad;
    var tail, z := TailOf(payload), EndLines(crc, footer);
    TailCharsMeaning(tail);
    ClosingIs(open, crc, footer);
    var c, pad := TailChars(tail), seq(TailPad(tail), i => EQ);
    if tail == [] {
      NoPad();
      WholeParts(w, if open then [CR, LF] else [], z);
    } else {
      PaddedParts(w, c, pad, [CR, LF], z);
    }
  }

  lemma WholeParts(w: seq<byte>, fill: seq<byte>, z: seq<byte>)
    ensures w + [] + (fill + z) == w + [] + fill + z
  {
  }

  lemma PaddedParts(w: seq<byte>, c: seq<byte>, pad: seq<byte>, eol: seq<byte>, z: seq<byte>)
    ensures w + (c + pad) + (eol + z) == w + c + [] + (pad + eol + z)
  {
    assert pad + (eol + z) == pad + eol + z;
    assert w + (c + pad) == w + c + pad;
    assert w + c + [] == w + c;
  }

  lemma NoPad()
    ensures TailPad([]) == 0
  {
  }

  lemma FillMeaning(tail: seq<byte>, open: bool)
    ensures AllBody(LineFill(tail, open)) && Sextets(LineFill(tail, open)) == []
  {
    hide Sextets, IsBody;
    EolMeaning();
    NoSextets();
  }

  lemma RestMeaning(tail: seq<byte>, crc: Crc, footer: seq<byte>)
    requires |tail| <= 2 && footer != [] && footer[0] == DASH
    ensures var t, m := EndText(tail, crc, footer), Mode(false, footer);
            && t != [] && !IsBody(t[0]) && Ends(t, m)
            && Close(t, m) == Some(End(TailPad(tail), Some(crc), []))
  {
    hide Close, EndLines, DecChar;
    EqIsEquals();
    EndLinesStart(crc, footer);
    CloseMeaning(TailPad(tail), crc, footer);
    assert EndText(tail, crc, footer)[0] == EQ;
  }

  /** The text of a payload broken into lines of any length. */
  lemma WrappedMeaning(payload: seq<byte>, llen: nat, crc: Crc, footer: seq<byte>)
    requires 0 < llen && footer != [] && footer[0] == DASH
    ensures Parse([], ArmorTail(payload, llen, crc, footer), Mode(false, footer)) == Some(payload)
    ensures CrcOf(ArmorTail(payload, llen, crc, footer), Mode(false, footer)) == Some(crc)
  {
    hide Encode, Chars, Wrap, Parse, CrcOf, EncodeTail, Closing, Column;
    var w := Wrap(Encode(payload), 0, llen, [CR, LF]);
    EncodeNoEol(payload);
    CharsEol();
    CharsWrap(Encode(payload), 0, llen, [CR, LF]);
    ArmoredMeaning(w, payload, |payload| % 3 > 0 || Column(0, |Encode(payload)|, llen) > 0, crc, footer);
  }

  lemma EolMeaning()
    ensures AllBody([CR, LF]) && Sextets([CR, LF]) == []
  {
    hide DecChar;
    EolIsSpace();
    SextetsAppend([CR], [LF]);
    SextetsOne(CR);
    SextetsOne(LF);
  }

  lemma NoSextets()
    ensures Sextets([]) == []
  {
  }

  lemma EqIsEquals()
    ensures DecChar(EQ) == EQUALS
  {
  }

  lemma EndLinesStart(crc: Crc, footer: seq<byte>)
    ensures EndLines(crc, footer) != [] && EndLines(crc, footer)[0] == EQ
  {
  }

  lemma ClosingIs(open: bool, crc: Crc, footer: seq<byte>)
    ensures Closing(open, crc, footer) == (if open then [CR, LF] else []) + EndLines(crc, footer)
  {
    hide Encode3;
  }

  /** Bare base64: every payload but the empty one survives. */
  lemma Base64Meaning(payload: seq<byte>, llen: nat, footer: seq<byte>)
    requires 0 < llen
    ensures Parse([], Body(payload, llen, []), Mode(true, footer)) == if payload == [] then None else Some(payload)
  {
    hide Encode, Chars, Wrap, Sextets, Close, Parse, TailChars, EncodeTail, DecChar, Column, TailOf;
    var m, tail := Mode(true, footer), TailOf(payload);
    var w := Wrap(Encode(payload), 0, llen, []);
    TailCharsMeaning(tail);
    if payload == [] {
      EmptyBody(llen);
      ParseEmpty([], m);
    } else {
      EncodeNoEol(payload);
      CharsEol();
      CharsWrap(Encode(payload), 0, llen, []);
      NoSextets();
      EqIsEquals();
      var k := TailPad(tail);
      var pad := seq(k, i => EQ);
      Base64CloseMeaning(k, m);
      BodyNotEmpty(payload, llen);
      assert Body(payload, llen, []) == w + TailChars(tail) + [] + pad;
      DataMeaning(w, payload, [], pad, m);
    }
  }

  lemma EmptyBody(llen: nat)
    requires 0 < llen
    ensures Body([], llen, []) == []
  {
    hide Encode, TailOf, EncodeTail, Wrap;
    NothingEncoded();
    NoTail();
    WrapStep([], 0, llen, []);
  }

  lemma NoTail()
    ensures TailOf([]) == [] && EncodeTail([]) == []
  {
    hide EncChar;
  }

  lemma BodyNotEmpty(payload: seq<byte>, llen: nat)
    requires 0 < llen && payload != []
    ensures Body(payload, llen, []) != []
  {
    hide Encode3, EncChar;
  }

  lemma Base64CloseMeaning(k: nat, m: Mode)
    requires k <= 2 && m.noheaders
    ensures Close(seq(k, i => EQ), m).Some? && Close(seq(k, i => EQ), m).value.eq == k
  {
    var pad := seq(k, i => EQ);
    EqIsEquals();
    assert Peek(pad, 16) == pad && Stripped(pad) == k;
  }
}
