/** The lines that close an armored text, described by their bytes: when the padding and the CRC line are
    accepted, and what a text without a CRC line means. */
module ArmorClosing {
  import opened Options
  import opened Base64
  import opened ArmorText
  import opened ArmorReference
  import opened ArmorDecoder
  import opened ArmorMeaning
  import opened ArmorRuns
  import opened ArmorRoundTrip

  // ----- Lines -----

  /** A line and its end: a line feed, with one carriage return before it that is not part of the line. */
  predicate IsLine(line: seq<byte>, eol: seq<byte>) {
    && LF !in line
    && (eol == [CR, LF] || (eol == [LF] && (line == [] || line[|line| - 1] != CR)))
  }

  /** A line that fits the buffer with its end is peeked without its end. */
  lemma LineReads(line: seq<byte>, eol: seq<byte>, more: seq<byte>, cap: nat)
    requires IsLine(line, eol) && |line| + |eol| < cap
    ensures PeekLine(line + (eol + more), cap) == Some(line)
    ensures SkipEol(eol + more) == Some(more)
  {
    var s := line + (eol + more);
    var w := Peek(s, cap - 1);
    var k := |line| + |eol| - 1;
    assert k < |w| && w[k] == LF;
    assert w[..k] == line + eol[..|eol| - 1];
    LfIs(w, k);
    assert w[..|line|] == line;
    assert (eol + more)[|eol|..] == more;
  }

  lemma {:induction false} LfIs(w: seq<byte>, k: nat)
    requires k < |w| && w[k] == LF && LF !in w[..k]
    ensures LfIndex(w) == k
  {
    if k > 0 {
      assert w[..k] == [w[0]] + w[1..][..k - 1];
      LfIs(w[1..], k - 1);
    }
  }

  /** Any other text has no line end among the bytes looked at. */
  lemma LineParts(s: seq<byte>, cap: nat) returns (line: seq<byte>, eol: seq<byte>, more: seq<byte>)
    requires 0 < cap
    ensures LF in Peek(s, cap - 1) ==> s == line + (eol + more) && IsLine(line, eol) && |line| + |eol| < cap
    ensures LF !in Peek(s, cap - 1) ==> PeekLine(s, cap) == None
  {
    hide LfIndex;
    var w := Peek(s, cap - 1);
    var k := LfIndex(w);
    line, eol, more := [], [], s;
    if k < |w| {
      line, eol := SplitEol(w, k);
      more := s[k + 1..];
      assert s == w[..k + 1] + more;
      Assoc(line, eol, more);
    }
  }

  lemma Assoc(a: seq<byte>, b: seq<byte>, c: seq<byte>)
    ensures a + b + c == a + (b + c)
  {
  }

  lemma SplitEol(w: seq<byte>, k: nat) returns (line: seq<byte>, eol: seq<byte>)
    requires k < |w| && w[k] == LF && LF !in w[..k]
    ensures w[..k + 1] == line + eol && IsLine(line, eol)
  {
    var cr := k > 0 && w[k - 1] == CR;
    line := if cr then w[..k - 1] else w[..k];
    eol := if cr then [CR, LF] else [LF];
    assert forall i :: 0 <= i < |line| ==> line[i] == w[..k][i];
  }

  // ----- Padding -----

  /** What the padding reader makes of the next line: one or two '=' are the padding and are read; a line of
      five characters, or a longer one that starts with five dashes, means no padding and stays unread;
      any other line is refused. */
  lemma PaddingReads(line: seq<byte>, eol: seq<byte>, more: seq<byte>)
    requires IsLine(line, eol) && |line| + |eol| < 64
    ensures ReadPadding(line + (eol + more))
            == if line == [EQ] then Some((1, more))
               else if line == [EQ, EQ] then Some((2, more))
               else if |line| == 5 || [DASH, DASH, DASH, DASH, DASH] <= line then Some((0, line + (eol + more)))
               else None
  {
    hide PeekLine, SkipEol;
    LineReads(line, eol, more, 64);
    assert (line + (eol + more))[|line|..] == eol + more;
    if |line| > 5 {
      assert line[..5] == DASHES <==> [DASH, DASH, DASH, DASH, DASH] <= line;
    }
  }

  /** For every text: padding is accepted exactly if the next line is such a line and ends within 63 bytes. */
  lemma PaddingExact(s: seq<byte>)
    ensures ReadPadding(s).Some? <==>
            exists line, eol, more ::
              && s == line + (eol + more) && IsLine(line, eol) && |line| + |eol| < 64
              && (line == [EQ] || line == [EQ, EQ] || |line| == 5 || [DASH, DASH, DASH, DASH, DASH] <= line)
  {
    hide ReadPadding, PeekLine, IsLine;
    forall line, eol, more | s == line + (eol + more) && IsLine(line, eol) && |line| + |eol| < 64
      ensures ReadPadding(s).Some? <==>
              line == [EQ] || line == [EQ, EQ] || |line| == 5 || [DASH, DASH, DASH, DASH, DASH] <= line
    {
      PaddingReads(line, eol, more);
    }
    var line, eol, more := LineParts(s, 64);
    if LF !in Peek(s, 63) {
      PaddingNeedsLine(s);
    }
  }

  lemma PaddingNeedsLine(s: seq<byte>)
    requires PeekLine(s, 64) == None
    ensures ReadPadding(s) == None
  {
  }

  /** Bare base64: the next 16 bytes are at most two '=' and then white space, and no more. */
  lemma Base64PaddingExact(s: seq<byte>, n: nat)
    ensures ReadBase64Padding(s) == Some(n) <==>
            && n <= 2 && n <= |Peek(s, 16)|
            && (forall i :: 0 <= i < n ==> Peek(s, 16)[i] == EQ)
            && (forall i :: n <= i < |Peek(s, 16)| ==> Peek(s, 16)[i] in {TAB, LF, CR, BLANK})
  {
    hide DecChar;
    var pad := Peek(s, 16);
    forall i | 0 <= i < |pad| ensures DecChar(pad[i]) == SPACE <==> pad[i] in {TAB, LF, CR, BLANK} {
      SpaceIs(pad[i]);
    }
    EqIsEquals();
    var m := Stripped(pad);
    assert m > 0 ==> pad[m - 1] !in {TAB, LF, CR, BLANK};
    assert m < |pad| ==> pad[m] in {TAB, LF, CR, BLANK} && pad[m] != EQ;
  }

  lemma SpaceIs(c: byte)
    ensures DecChar(c) == SPACE <==> c in {TAB, LF, CR, BLANK}
  {
  }

  // ----- The CRC line -----

  /** The next line is read as the CRC line of `crc` exactly if it is that line, and is then read with its
      end; otherwise nothing is read. */
  lemma CrcReads(line: seq<byte>, eol: seq<byte>, more: seq<byte>, crc: Crc)
    requires IsLine(line, eol) && |line| + |eol| < 8
    ensures ReadCrc(line + (eol + more)) == Some((crc, more)) <==> line == [EQ] + Encode3(crc.0, crc.1, crc.2)
    ensures ReadCrc(line + (eol + more)).Some? ==> ReadCrc(line + (eol + more)).value.1 == more
  {
    hide PeekLine, SkipEol, Encode3, CrcBytes, DecChar;
    LineReads(line, eol, more, 8);
    assert (line + (eol + more))[|line|..] == eol + more;
    if line == [EQ] + Encode3(crc.0, crc.1, crc.2) {
      CrcMeaning(crc.0, crc.1, crc.2);
      var e := Encode3(crc.0, crc.1, crc.2);
      assert line[1] == e[0] && line[2] == e[1] && line[3] == e[2] && line[4] == e[3];
    }
    if ReadCrc(line + (eol + more)) == Some((crc, more)) {
      CrcChars(line[1], line[2], line[3], line[4]);
      assert line == [EQ] + [line[1], line[2], line[3], line[4]];
    }
  }

  /** Four base64 characters are the encoding of the three bytes they stand for. */
  lemma CrcChars(p: byte, q: byte, r: byte, s: byte)
    requires DecChar(p) < 64 && DecChar(q) < 64 && DecChar(r) < 64 && DecChar(s) < 64
    ensures var c := CrcBytes([DecChar(p), DecChar(q), DecChar(r), DecChar(s)]);
            Encode3(c.0, c.1, c.2) == [p, q, r, s]
  {
    hide DecChar, EncChar, CrcBytes, Encode3;
    EncDec(p);
    EncDec(q);
    EncDec(r);
    EncDec(s);
    var c := CrcBytes([DecChar(p), DecChar(q), DecChar(r), DecChar(s)]);
    SextetsKept(DecChar(p), DecChar(q), DecChar(r), DecChar(s));
    EncodeSextets(c.0, c.1, c.2, DecChar(p), DecChar(q), DecChar(r), DecChar(s));
  }

  lemma EncodeSextets(a: byte, b: byte, c: byte, p: byte, q: byte, r: byte, s: byte)
    requires (a >> 2) & 0x3f == p && ((a << 4) | (b >> 4)) & 0x3f == q
    requires ((b << 2) | (c >> 6)) & 0x3f == r && c & 0x3f == s
    ensures Encode3(a, b, c) == [EncChar(p), EncChar(q), EncChar(r), EncChar(s)]
  {
    hide EncChar;
    EncLow(a >> 2);
    EncLow((a << 4) | (b >> 4));
    EncLow((b << 2) | (c >> 6));
    EncLow(c);
  }

  lemma EncLow(v: byte)
    ensures EncChar(v) == EncChar(v & 0x3f)
  {
  }

  lemma SextetsKept(p: byte, q: byte, r: byte, s: byte)
    requires p < 64 && q < 64 && r < 64 && s < 64
    ensures var c := CrcBytes([p, q, r, s]);
            && (c.0 >> 2) & 0x3f == p && ((c.0 << 4) | (c.1 >> 4)) & 0x3f == q
            && ((c.1 << 2) | (c.2 >> 6)) & 0x3f == r && c.2 & 0x3f == s
  {
  }

  // ----- The end of the data -----

  /** The data ends at a '=', and in armored text at a '-' too; bare base64 may also just end. Any other character
      that is no base64 character and no white space, and the end of armored text, refuse the text. */
  lemma DataEnds(pre: seq<byte>, a: seq<byte>, t: seq<byte>, m: Mode)
    requires AllBody(a) && a + t != [] && (t == [] || !IsBody(t[0]))
    ensures var ends := if t == [] then m.noheaders else t[0] == EQ || (t[0] == DASH && !m.noheaders);
            Parse(pre, a + t, m) == if ends then Closed(pre + Sextets(a), t, m) else None
  {
    hide Parse, Closed, Sextets, DecChar;
    ParseStop(pre, a, t, m);
    if t != [] {
      EqualsIs(t[0]);
    }
  }

  lemma EqualsIs(c: byte)
    ensures DecChar(c) == EQUALS <==> c == EQ
  {
  }

  // ----- Text without a CRC line -----

  /** The closing line alone, or a line of padding and the closing line: no CRC. Without padding the closing
      line must fit the line buffer. */
  lemma PlainClose(k: nat, eol: seq<byte>, footer: seq<byte>)
    requires k <= 2 && IsLine(footer, eol) && DASHES <= footer
    ensures var t := if k == 0 then footer + eol else seq(k, i => EQ) + (eol + (footer + eol));
            Close(t, Mode(false, footer))
            == if k == 0 && |footer| + |eol| >= 64 then None else Some(End(k, None, []))
  {
    hide ReadPadding, ReadCrc, ReadTrailer, IsLine;
    var last := footer + eol;
    assert last == footer + (eol + []) && last == [] + (footer + ([] + eol));
    FooterNoCrc(footer, eol);
    TrailerReads([], footer, [], eol) by { EolStart(footer, eol); }
    EolSkipped(footer, eol);
    if k == 0 {
      if |footer| + |eol| < 64 {
        PaddingReads(footer, eol, []);
      } else {
        LongFooter(footer, eol);
      }
    } else {
      PadIsLine(k, footer, eol);
      PaddingReads(seq(k, i => EQ), eol, last);
    }
  }

  lemma EolStart(footer: seq<byte>, eol: seq<byte>)
    requires IsLine(footer, eol)
    ensures eol != [] && eol[0] !in {TAB, BLANK}
  {
  }

  lemma EolSkipped(footer: seq<byte>, eol: seq<byte>)
    requires IsLine(footer, eol)
    ensures SkipEol(eol) == Some([])
  {
    assert eol[|eol|..] == [];
  }

  lemma PadIsLine(k: nat, footer: seq<byte>, eol: seq<byte>)
    requires 1 <= k <= 2 && IsLine(footer, eol)
    ensures IsLine(seq(k, i => EQ), eol) && |eol| <= 2
    ensures seq(k, i => EQ) == if k == 1 then [EQ] else [EQ, EQ]
  {
    assert LF !in seq(k, i => EQ);
  }

  lemma FooterNoCrc(footer: seq<byte>, eol: seq<byte>)
    requires IsLine(footer, eol) && DASHES <= footer
    ensures ReadCrc(footer + eol) == None
  {
    var s := footer + eol;
    var r := PeekLine(s, 8);
    if r.Some? && |r.value| == 5 {
      assert r.value[0] == s[0];
    }
  }

  lemma LongFooter(footer: seq<byte>, eol: seq<byte>)
    requires IsLine(footer, eol) && |footer| + |eol| >= 64
    ensures ReadPadding(footer + eol) == None
  {
    var s := footer + eol;
    assert LF !in Peek(s, 63);
    var line, eol1, more := LineParts(s, 64);
  }

  /** Armored text without a CRC line, with either line end: the payload comes back and no CRC is reported.
      Only a closing line too long for the line buffer is refused, and only directly behind whole groups. */
  lemma PlainMeaning(w: seq<byte>, payload: seq<byte>, eol: seq<byte>, footer: seq<byte>)
    requires Chars(w) == Encode(payload) && IsLine(footer, eol) && DASHES <= footer
    ensures var text := w + EncodeTail(TailOf(payload)) + eol + footer + eol;
            && CrcOf(text, Mode(false, footer)) == None
            && Parse([], text, Mode(false, footer))
               == if |payload| % 3 == 0 && |footer| + |eol| >= 64 then None else Some(payload)
  {
    hide *;
    var tail := TailOf(payload);
    PadOf(payload);
    TailCharsMeaning(tail);
    if TailPad(tail) == 0 {
      PlainWhole(w, payload, eol, footer);
      WholeText(w, TailChars(tail), seq(TailPad(tail), i => EQ), eol, footer);
    } else {
      PlainPadded(w, payload, eol, footer);
      PaddedText(w, TailChars(tail), seq(TailPad(tail), i => EQ), eol, footer);
    }
  }

  lemma PlainWhole(w: seq<byte>, payload: seq<byte>, eol: seq<byte>, footer: seq<byte>)
    requires Chars(w) == Encode(payload) && IsLine(footer, eol) && DASHES <= footer
    requires TailPad(TailOf(payload)) == 0 && TailChars(TailOf(payload)) == []
    ensures var text := w + TailChars(TailOf(payload)) + eol + (footer + eol);
            && CrcOf(text, Mode(false, footer)) == None
            && Parse([], text, Mode(false, footer)) == if |footer| + |eol| >= 64 then None else Some(payload)
  {
    hide Encode, Chars, Sextets, Bytes, IsBody, Ends, Close, Parse, CrcOf, TailChars, TailOf, TailPad, IsLine;
    var m, t := Mode(false, footer), footer + eol;
    PlainClose(0, eol, footer);
    EolBody(footer, eol);
    PlainStart(t, m);
    if |footer| + |eol| < 64 {
      DataMeaning(w, payload, eol, t, m);
    } else {
      Refused(w, payload, eol, t, m);
    }
  }

  lemma PlainPadded(w: seq<byte>, payload: seq<byte>, eol: seq<byte>, footer: seq<byte>)
    requires Chars(w) == Encode(payload) && IsLine(footer, eol) && DASHES <= footer
    requires TailPad(TailOf(payload)) != 0
    ensures var pad := seq(TailPad(TailOf(payload)), i => EQ);
            var text := w + TailChars(TailOf(payload)) + [] + (pad + (eol + (footer + eol)));
            && CrcOf(text, Mode(false, footer)) == None
            && Parse([], text, Mode(false, footer)) == Some(payload)
  {
    hide Encode, Chars, Sextets, Bytes, IsBody, Ends, Close, Parse, CrcOf, TailChars, TailOf, TailPad, IsLine;
    var m, k := Mode(false, footer), TailPad(TailOf(payload));
    var t := seq(k, i => EQ) + (eol + (footer + eol));
    PlainClose(k, eol, footer);
    PlainStart(t, m);
    NoSextets();
    DataMeaning(w, payload, [], t, m);
  }

  lemma PadOf(payload: seq<byte>)
    ensures var t := TailOf(payload); TailPad(t) == 0 <==> |payload| % 3 == 0
    ensures var t := TailOf(payload); TailPad(t) == 0 ==> t == [] && TailChars(t) == []
  {
  }

  lemma PlainStart(t: seq<byte>, m: Mode)
    requires t != [] && (t[0] == EQ || t[0] == DASH) && !m.noheaders
    ensures !IsBody(t[0]) && Ends(t, m)
  {
  }

  lemma EolBody(footer: seq<byte>, eol: seq<byte>)
    requires IsLine(footer, eol)
    ensures AllBody(eol) && Sextets(eol) == []
  {
    EolMeaning();
    SextetsOne(LF);
  }

  lemma WholeText(w: seq<byte>, c: seq<byte>, pad: seq<byte>, eol: seq<byte>, footer: seq<byte>)
    requires c == [] && pad == []
    ensures w + (c + pad) + eol + footer + eol == w + c + eol + (footer + eol)
  {
  }

  lemma PaddedText(w: seq<byte>, c: seq<byte>, pad: seq<byte>, eol: seq<byte>, footer: seq<byte>)
    ensures w + (c + pad) + eol + footer + eol == w + c + [] + (pad + (eol + (footer + eol)))
  {
    assert w + (c + pad) == w + c + [] + pad;
  }

  lemma Refused(w: seq<byte>, payload: seq<byte>, fill: seq<byte>, t: seq<byte>, m: Mode)
    requires Chars(w) == Encode(payload) && AllBody(fill)
    requires t != [] && !IsBody(t[0]) && Ends(t, m) && Close(t, m) == None
    requires TailChars(TailOf(payload)) == []
    ensures var text := w + TailChars(TailOf(payload)) + fill + t;
            Parse([], text, m) == None && CrcOf(text, m) == None
  {
    hide Encode, Chars, Sextets, Bytes, IsBody, Ends, Close, Parse, TailChars, TailOf, BodyLen;
    WholeMeaning(w, payload);
    var a := w + [] + fill;
    ParseStop([], a, t, m);
    EndOfBody(a, t);
  }

  /** A reader on such a text delivers the payload and does not complain about a checksum. */
  method ReadPlain(text: seq<byte>, footer: seq<byte>, size: nat, crc24: seq<byte> -> Crc,
                   ghost w: seq<byte>, ghost payload: seq<byte>, ghost eol: seq<byte>)
    returns (r: Option<seq<byte>>, mismatch: bool)
    requires Chars(w) == Encode(payload) && IsLine(footer, eol) && DASHES <= footer && size > BLOCK
    requires text == w + EncodeTail(TailOf(payload)) + eol + footer + eol
    ensures r == if |payload| % 3 == 0 && |footer| + |eol| >= 64 then None else Some(payload)
    ensures r.Some? ==> !mismatch
  {
    hide Parse, EndOf, CloseCrc, Chars, Encode, IsLine, EncodeTail, TailOf;
    PlainMeaning(w, payload, eol, footer);
    var src := new ArmoredSource(text, Mode(false, footer), crc24);
    PrependEmpty(Parse([], text, Mode(false, footer)));
    var outside;
    r, outside := ReadAll(src, size);
    mismatch := src.mismatch;
  }
}
