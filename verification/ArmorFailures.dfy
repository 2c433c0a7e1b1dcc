/** Inputs on which the armor reader goes wrong, each reached from a new reader. */
module ArmorFailures {
  import opened Options
  import opened Base64
  import opened ArmorText
  import opened ArmorReference
  import opened ArmorDecoder
  import opened ArmorRuns
  import opened ArmorMeaning

  // ----- An exact drain -----

  const HEAD: nat := 3072

  /** Whole groups that fill one block, in one line, and then an armored text. */
  function LongText(head: seq<byte>, payload: seq<byte>, llen: nat, crc: Crc, footer: seq<byte>): (r: seq<byte>)
    requires 0 < llen
  {
    Encode(head) + ArmorTail(payload, llen, crc, footer)
  }

  /** Whole groups ahead of a text only add their bytes. */
  lemma HeadMeaning(head: seq<byte>, t: seq<byte>, payload: seq<byte>, m: Mode)
    requires |head| % 3 == 0 && Parse([], t, m) == Some(payload)
    ensures Parse([], Encode(head) + t, m) == Some(head + payload)
  {
    hide *;
    var x := Sextets(Encode(head));
    if t == [] {
      ParseEmpty([], m);
    }
    HeadValues(head);
    ParseBody([], Encode(head), t, m);
    assert [] + x == x + [];
    ParseQuads(x, [], t, m);
    PrependSome(head, payload);
  }

  lemma HeadValues(head: seq<byte>)
    requires |head| % 3 == 0
    ensures AllBody(Encode(head)) && |Sextets(Encode(head))| % 4 == 0 && Bytes(Sextets(Encode(head))) == head
  {
    hide Encode, Sextets, Bytes, IsBody;
    DecodeEncode(head);
  }

  lemma PrependSome(p: seq<byte>, q: seq<byte>)
    ensures Prepend(p, Some(q)) == Some(p + q)
  {
  }

  /** A read of all but 3 bytes of the first block leaves those 3 pending and nothing else. */
  lemma FirstBlock(head: seq<byte>, tail: seq<byte>, m: Mode)
    requires |head| == HEAD && !m.noheaders
    ensures LookAhead(0, Encode(head) + tail, HEAD - 3, m) == Ahead(3, false, 0, tail)
  {
    hide Encode, Sextets, BodyLen, LookAhead, IsBody;
    var a := Encode(head);
    DecodeEncode(head);
    assert (a + tail)[..BLOCK] == a && (a + tail)[BLOCK..] == tail;
    assert Peek(a + tail, BLOCK) == a;
    BlockIs(0, a + tail, BLOCK, m);
    LookOn(0, a + tail, HEAD - 3, m, 4, 0);
  }

  lemma FirstRead(v: View, e: Event, w: View, head: seq<byte>, tail: seq<byte>)
    requires v == View(v.mode, Encode(head) + tail, [], [], 0, false, None, []) && !v.mode.noheaders
    requires Step(v, e.len, w, e.out, e.lost) && e.len == HEAD - 3 == |head| - 3 && Outcome(v).Some?
    ensures w.mode == v.mode && !w.eof && |w.pending| == 3 && w.stale == 0 && w.brest == [] && w.input == tail
    ensures Outcome(w).Some? && |Outcome(v).value| == |e.out| + |Outcome(w).value|
  {
    hide *;
    FirstBlock(head, tail, v.mode);
    FreshRead(v, e, w, Ahead(3, false, 0, tail));
  }

  lemma FreshRead(v: View, e: Event, w: View, a: Ahead)
    requires Step(v, e.len, w, e.out, e.lost) && !v.eof && v.pending == [] && v.stale == 0 && Outcome(v).Some?
    requires LookAhead(|v.brest|, v.input, e.len, v.mode) == a && !a.eof
    ensures w.mode == v.mode && !w.eof && w.stale == 0
    ensures |w.pending| == a.over && |w.brest| == a.brest && w.input == a.input
    ensures Outcome(w).Some? && |Outcome(v).value| == |e.out| + |Outcome(w).value|
  {
    hide LookAhead, Outcome, CrcOf, EndOf;
  }

  lemma SecondRead(v: View, e: Event, w: View)
    requires Step(v, e.len, w, e.out, e.lost) && e.len == 3 == |v.pending| && Outcome(v).Some?
    requires !v.eof && v.stale == 0
    ensures w.mode == v.mode && !w.eof && w.pending == [] && w.stale > 0 && w.brest == v.brest && w.input == v.input
    ensures Outcome(w).Some? && |Outcome(v).value| == |e.out| + |Outcome(w).value|
  {
    hide LookAhead, Outcome, CrcOf, EndOf;
  }

  lemma ThirdRead(v: View, e: Event, w: View)
    requires Step(v, e.len, w, e.out, e.lost) && !v.eof && v.stale > 0 && v.pending == []
    requires |v.input| <= BLOCK && Outcome(v).Some? && |Outcome(v).value| > e.len
    ensures Outcome(w).Some? && |e.out| + |Outcome(w).value| < |Outcome(v).value|
  {
    hide LookAhead, Parse, CrcOf, EndOf;
    EndsInBlock(v.brest, v.input, e.len, v.mode);
    StaleReadLoses(v, e, w);
  }

  /** It does happen: reads of 3069, 3 and 3 bytes on such a text, and part of it is gone. */
  method ExactDrainLoses(head: seq<byte>, payload: seq<byte>, llen: nat, footer: seq<byte>, crc24: seq<byte> -> Crc)
    returns (got: seq<byte>, ghost later: seq<byte>)
    requires |head| == HEAD && |payload| > 3 && 0 < llen && footer != [] && footer[0] == DASH
    requires |ArmorTail(payload, llen, crc24(head + payload), footer)| <= BLOCK
    ensures |got| <= HEAD + 3 && |got + later| < |head + payload|
  {
    hide Parse, ArmorTail, CrcOf, Step, Encode;
    ghost var tail := ArmorTail(payload, llen, crc24(head + payload), footer);
    var text := LongText(head, payload, llen, crc24(head + payload), footer);
    var src := new ArmoredSource(text, Mode(false, footer), crc24);
    var buf := new byte[HEAD];
    ghost var v0 := src.State();
    WrappedMeaning(payload, llen, crc24(head + payload), footer);
    HeadMeaning(head, tail, payload, v0.mode);
    PrependEmpty(Parse([], text, v0.mode));
    PrependEmpty(Parse([], tail, v0.mode));
    var st, n, lost := src.Read(buf, HEAD - 3);
    got := buf[..n];
    ghost var v1, e0 := src.State(), Event(HEAD - 3, buf[..n], lost);
    FirstRead(v0, e0, v1, head, tail);
    st, n, lost := src.Read(buf, 3);
    got := got + buf[..n];
    ghost var v2, e1 := src.State(), Event(3, buf[..n], lost);
    SecondRead(v1, e1, v2);
    st, n, lost := src.Read(buf, 3);
    got := got + buf[..n];
    ghost var v3, e2 := src.State(), Event(3, buf[..n], lost);
    ThirdRead(v2, e2, v3);
    later := Outcome(v3).value;
  }

  // ----- Bare base64 -----

  /** Bare base64 has no CRC context, yet a read served from the pending bytes uses it. Any payload of
      more than 3 bytes that fits a block: a read of 3 bytes succeeds, and the next one gets there. */
  method NoCrcContext(payload: seq<byte>, llen: nat, footer: seq<byte>, crc24: seq<byte> -> Crc)
    returns (first: Status, second: Status)
    requires 0 < llen && |payload| > 3 && |Body(payload, llen, [])| <= BLOCK
    ensures first == Done && second == NoCrc
  {
    hide Parse, Body, CrcOf, Step;
    var text := Body(payload, llen, []);
    var src := new ArmoredSource(text, Mode(true, footer), crc24);
    var buf := new byte[3];
    ghost var v := src.State();
    Base64Meaning(payload, llen, footer);
    PrependEmpty(Some(payload));
    var n;
    ghost var lost;
    first, n, lost := src.Read(buf, 3);
    StillPending(v, Event(3, buf[..n], lost), src.State());
    second, n, lost := src.Read(buf, 1);
  }

  lemma StillPending(v: View, e: Event, w: View)
    requires Step(v, e.len, w, e.out, e.lost) && !v.eof && v.stale == 0 && v.pending == []
    requires |v.input| <= BLOCK && Outcome(v).Some? && |Outcome(v).value| > e.len
    ensures w.eof && w.pending != []
  {
    hide LookAhead, Parse, CrcOf, EndOf;
    EndsInBlock(v.brest, v.input, e.len, v.mode);
  }

  /** Two characters, padding, and a byte that a signed index takes before the start of the table. */
  const HIGH_TEXT: seq<byte> := [0x51, 0x51, EQ, EQ, 0x80]

  lemma HighTextIsBad(footer: seq<byte>)
    ensures BadEnd(HIGH_TEXT, Mode(true, footer))
  {
    hide DecChar, Stripped, BodyLen;
    var a, t := HIGH_TEXT[..2], HIGH_TEXT[2..];
    assert HIGH_TEXT == a + t;
    HighTextChars();
    EndOfBody(a, t);
    assert Peek(t, 16) == t;
    NotStripped(t);
  }

  lemma HighTextChars()
    ensures IsBody(0x51) && DecChar(EQ) == EQUALS && DecChar(0x80) == WRONG
  {
  }

  lemma NotStripped(t: seq<byte>)
    requires t != [] && DecChar(t[|t| - 1]) != SPACE
    ensures Stripped(t) == |t|
  {
    hide DecChar;
  }

  /** Every text of one block with such an end leads the first read outside the table, and no other. */
  method OutsideTheTable(text: seq<byte>, len: nat, footer: seq<byte>, crc24: seq<byte> -> Crc) returns (st: Status)
    requires |text| <= BLOCK
    ensures st == OutsideTable <==> BadEnd(text, Mode(true, footer))
  {
    hide Parse, CrcOf, Step, BadEnd;
    var src := new ArmoredSource(text, Mode(true, footer), crc24);
    var buf := new byte[len];
    ghost var v := src.State();
    var n;
    ghost var lost;
    st, n, lost := src.Read(buf, len);
    if st == Done && text != [] {
      DoneIsEnd(v, Event(len, buf[..n], lost), src.State());
    }
    EmptyEnd(v.mode);
  }

  lemma DoneIsEnd(v: View, e: Event, w: View)
    requires Step(v, e.len, w, e.out, e.lost) && !v.eof && v.pending == []
    requires 0 < |v.input| <= BLOCK && v.mode.noheaders
    ensures w.eof
  {
    hide LookAhead, Parse, CrcOf, EndOf, Outcome;
    EndsInBlock(v.brest, v.input, e.len, v.mode);
  }
}
