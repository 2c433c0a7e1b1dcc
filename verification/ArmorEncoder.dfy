/** The streaming armor writer. `Next` describes what one write does at any line length, with the
    arithmetic of the code; the class is proved against it. For line lengths that are multiples of 4
    this is the line-wrapped base64 of the concatenated input, whatever the sizes of the writes. */
module ArmorEncoder {
  import opened Base64
  import opened ArmorText

  const MIN_LINE: nat := 16
  const MAX_LINE: nat := 76
  /** The length used for bare base64, where the end of line is empty. */
  const BASE64_LINE: nat := 256
  /** PGP_INPUT_CACHE_SIZE / 2 */
  const ENCBUF: nat := 16384
  /** lout and llen are unsigned numbers of 32 bits. */
  const U32: nat := 0x1_0000_0000

  // ----- One turn of the line loop -----

  /** llen & ~3 */
  function Rounded(llen: nat): (r: nat)
    ensures r <= llen < r + 4 && r % 4 == 0
  {
    llen / 4 * 4
  }

  /** Characters that fit the line. Past the end of the line the subtraction wraps. */
  function Room(llen: nat, lout: nat): (n: nat) {
    if lout == 0 then Rounded(llen) else (Rounded(llen) - lout) % U32
  }

  /** Input bytes that would fill the line. */
  function Want(llen: nat, lout: nat): (n: nat) {
    3 * (Room(llen, lout) / 4)
  }

  /** Input bytes one turn takes: a whole line if there is enough, else whole groups. */
  function TurnSize(llen: nat, lout: nat, room: nat): (n: nat)
    ensures n <= room && n % 3 == 0
  {
    if Want(llen, lout) > room then 3 * (room / 3) else Want(llen, lout)
  }

  /** The column that turn leaves. */
  function TurnColumn(llen: nat, lout: nat, room: nat): (col: nat)
    requires lout < U32
    ensures col < U32
  {
    if Want(llen, lout) > room then (lout + room / 3 * 4) % U32 else 0
  }

  /** Each turn takes input or starts a new line. */
  lemma TurnMoves(llen: nat, lout: nat, room: nat)
    requires 4 <= llen && lout < U32 && 3 <= room
    ensures TurnSize(llen, lout, room) >= 3 || (lout > 0 && TurnColumn(llen, lout, room) == 0)
  {
  }

  /** The characters of one turn, and how far they reach in encbuf from position `enc`; a full buffer
      is written out first. */
  function TurnEnd(llen: nat, lout: nat, room: nat, e: nat, enc: nat): (end: nat)
    requires lout < U32
  {
    Flushed(llen, enc) + TurnSize(llen, lout, room) / 3 * 4 + if TurnColumn(llen, lout, room) == 0 then e else 0
  }

  function Flushed(llen: nat, enc: nat): (at: nat)
    ensures at <= enc
  {
    if enc > ENCBUF - Rounded(llen) - 2 then 0 else enc
  }

  // ----- One write -----

  datatype Added = Added(text: seq<byte>, lout: nat)

  /** The line loop. */
  function Lines(data: seq<byte>, lout: nat, llen: nat, eol: seq<byte>): (r: Added)
    requires 4 <= llen && lout < U32
    ensures r.lout < U32
    decreases |data|, lout
  {
    if |data| < 3 then Added([], lout)
    else
      TurnMoves(llen, lout, |data|);
      var n, col := TurnSize(llen, lout, |data|), TurnColumn(llen, lout, |data|);
      var rest := Lines(data[n..], col, llen, eol);
      Added(Encode(data[..n]) + (if col == 0 then eol else []) + rest.text, rest.lout)
  }

  /** Does every turn on `len` bytes stay inside encbuf? `e` is the size of a line end. */
  predicate LinesFit(len: nat, lout: nat, llen: nat, e: nat, enc: nat)
    requires 4 <= llen && lout < U32
    decreases len, lout
  {
    len < 3 ||
    (TurnEnd(llen, lout, len, e, enc) <= ENCBUF &&
     (TurnMoves(llen, lout, len);
      LinesFit(len - TurnSize(llen, lout, len), TurnColumn(llen, lout, len), llen, e,
               TurnEnd(llen, lout, len, e, enc))))
  }

  /** Kept bytes are completed to a group; the column is compared with the line length as it is. */
  function Fill(tail: seq<byte>, more: seq<byte>, lout: nat, llen: nat, eol: seq<byte>): (r: Added)
    requires lout < U32 && |tail| + |more| == 3
    ensures r.lout < U32
  {
    var d := tail + more;
    var col := (lout + 4) % U32;
    if col == llen then Added(Encode3(d[0], d[1], d[2]) + eol, 0) else Added(Encode3(d[0], d[1], d[2]), col)
  }

  /** State of the writer between calls. */
  datatype Pen = Pen(lout: nat, tail: seq<byte>, out: seq<byte>)

  predicate Ready(p: Pen, llen: nat) {
    4 <= llen <= BASE64_LINE && p.lout < U32 && |p.tail| <= 2
  }

  /** What is done before the line loop, and how many bytes of `buf` that takes. */
  function First(p: Pen, buf: seq<byte>, llen: nat, eol: seq<byte>): (r: Added)
    requires Ready(p, llen) && |buf| + |p.tail| >= 3
    ensures r.lout < U32
  {
    if p.tail == [] then Added([], p.lout) else Fill(p.tail, buf[..FirstSize(p)], p.lout, llen, eol)
  }

  function FirstSize(p: Pen): (n: nat)
    requires |p.tail| <= 2
  {
    if p.tail == [] then 0 else 3 - |p.tail|
  }

  function Next(p: Pen, buf: seq<byte>, llen: nat, eol: seq<byte>): (q: Pen)
    requires Ready(p, llen)
    ensures Ready(q, llen)
  {
    if |buf| + |p.tail| < 3 then p.(tail := p.tail + buf)
    else
      var a, data := First(p, buf, llen, eol), buf[FirstSize(p)..];
      var b := Lines(data, a.lout, llen, eol);
      Pen(b.lout, TailOf(data), p.out + (a.text + b.text))
  }

  predicate Fits(p: Pen, buf: seq<byte>, llen: nat, eol: seq<byte>)
    requires Ready(p, llen)
  {
    |buf| + |p.tail| < 3 ||
    var a := First(p, buf, llen, eol);
    LinesFit(|buf| - FirstSize(p), a.lout, llen, |eol|, |a.text|)
  }

  // ----- The writer -----

  class ArmoredDest {
    /** crc24 of the bytes fed to the CRC context */
    const crc24: seq<byte> -> Crc
    const base64: bool
    const eol: seq<byte>
    /** first lines, written before any data */
    const header: seq<byte>
    /** closing "-----END PGP ...-----" line */
    const footer: seq<byte>
    var llen: nat
    var lout: nat
    /** the first tailc bytes of tail[2] */
    var tail: seq<byte>
    var fed: seq<byte>
    /** writedst */
    var out: seq<byte>
    /** everything written so far */
    ghost var input: seq<byte>

    ghost function State(): Pen
      reads this
    {
      Pen(lout, tail, out)
    }

    /** At any line length: nothing is lost, and taking line ends out of the text gives the base64
        characters of the input. */
    ghost predicate Sound()
      reads this
    {
      && Ready(State(), llen) && lout % 4 == 0 && eol == (if base64 then [] else [CR, LF])
      && tail == TailOf(input) && (!base64 ==> fed == input)
      && header <= out && Chars(out[|header|..]) == Encode(input)
    }

    /** The text is the input broken into lines of the line length. */
    ghost predicate Valid()
      reads this
    {
      Sound() && State() == PenOf(input, llen, eol, header)
    }

    constructor (crc24: seq<byte> -> Crc, base64: bool, header: seq<byte>, footer: seq<byte>)
      ensures Valid() && input == []
      ensures this.crc24 == crc24 && this.base64 == base64 && this.footer == footer
      ensures this.header == (if base64 then [] else header)
      ensures llen == if base64 then BASE64_LINE else MAX_LINE
    {
      this.crc24, this.base64, this.footer := crc24, base64, footer;
      this.header := if base64 then [] else header;
      eol := if base64 then [] else [CR, LF];
      llen := if base64 then BASE64_LINE else MAX_LINE;
      lout, tail, fed, input := 0, [], [], [];
      out := if base64 then [] else header;
      new;
      hide PenOf, Chars, Encode, TailOf;
      EmptyPen(llen, eol, this.header);
      NothingWritten(out);
    }

    /** armored_dst_set_line_length: any length in range is accepted, at any time. */
    method SetLineLength(len: nat) returns (ok: bool)
      requires Sound()
      modifies `llen
      ensures ok <==> MIN_LINE <= len <= MAX_LINE
      ensures llen == if ok then len else old(llen)
      ensures Sound() && (old(Valid()) && input == [] ==> Valid())
    {
      ok := MIN_LINE <= len <= MAX_LINE;
      if ok {
        llen := len;
      }
    }

    /** armored_dst_write. Not ok stands for a turn of the line loop that would write past encbuf. */
    method Write(buf: seq<byte>) returns (ok: bool)
      requires Sound()
      modifies `lout, `tail, `fed, `out, `input
      ensures ok <==> Fits(old(State()), buf, llen, eol)
      ensures ok ==> State() == Next(old(State()), buf, llen, eol) && input == old(input) + buf && Sound()
      ensures old(Valid()) && llen % 4 == 0 ==> ok && Valid()
    {
      hide Encode, Next, Fits, PenOf, Chars, TailOf;
      ghost var p := State();
      if llen % 4 == 0 && p == PenOf(input, llen, eol, header) {
        NextWraps(input, buf, llen, eol, header);
      }
      NextSound(p, input, buf, llen, eol, header);
      NextColumn(p, buf, llen, eol);
      if !base64 {
        fed := fed + buf;
      }
      if |buf| + |tail| < 3 {
        NextShort(p, buf, llen, eol);
        tail := tail + buf;
        ok := true;
      } else {
        ok := PutAll(buf);
      }
      input := input + buf;
    }

    /** The part of a write that encodes. */
    method PutAll(buf: seq<byte>) returns (ok: bool)
      requires Ready(State(), llen) && |buf| + |tail| >= 3 && |eol| <= 2
      modifies `lout, `tail, `out
      ensures ok <==> Fits(old(State()), buf, llen, eol)
      ensures ok ==> State() == Next(old(State()), buf, llen, eol)
    {
      hide Encode, Lines, LinesFit, First, Fits, Next, TailOf, FirstSize;
      ghost var p := State();
      var encbuf := new byte[ENCBUF];
      var enc: nat, pos: nat := FillTail(buf, encbuf);
      ghost var first, a := pos, First(p, buf, llen, eol);
      ghost var goal := Lines(buf[pos..], lout, llen, eol);
      Assoc(out, a.text, goal.text);
      NextIs(p, buf, llen, eol);
      ok, enc, pos := PutLines(buf, pos, encbuf, enc);
      if !ok {
        return;
      }
      TailFrom(buf, first, pos);
      out := out + encbuf[..enc];
      tail := buf[pos..];
    }

    /** The line loop. */
    method PutLines(buf: seq<byte>, from: nat, encbuf: array<byte>, at: nat) returns (ok: bool, enc: nat, pos: nat)
      requires 4 <= llen <= BASE64_LINE && lout < U32 && |eol| <= 2
      requires from <= |buf| && encbuf.Length == ENCBUF && at <= ENCBUF
      modifies `lout, `out, encbuf
      ensures ok <==> LinesFit(|buf| - from, old(lout), llen, |eol|, at)
      ensures ok ==> from <= pos <= |buf| < pos + 3 && (pos - from) % 3 == 0 && enc <= ENCBUF
      ensures var goal := Lines(buf[from..], old(lout), llen, eol);
              ok ==> lout == goal.lout && out + encbuf[..enc] == old(out + encbuf[..at]) + goal.text
    {
      hide Encode, Lines, LinesFit, TurnSize, TurnColumn, TurnEnd;
      ghost var goal := Lines(buf[from..], lout, llen, eol);
      ghost var text := out + encbuf[..at] + goal.text;
      enc, pos := at, from;
      while pos + 3 <= |buf|
        invariant from <= pos <= |buf| && (pos - from) % 3 == 0 && lout < U32 && enc <= ENCBUF
        invariant out + encbuf[..enc] + Lines(buf[pos..], lout, llen, eol).text == text
        invariant Lines(buf[pos..], lout, llen, eol).lout == goal.lout
        invariant LinesFit(|buf| - pos, lout, llen, |eol|, enc) <==> LinesFit(|buf| - from, old(lout), llen, |eol|, at)
        decreases |buf| - pos, lout
      {
        LinesNextAt(out + encbuf[..enc], buf, pos, lout, llen, eol);
        FitsNext(|buf| - pos, lout, llen, |eol|, enc);
        TurnMoves(llen, lout, |buf| - pos);
        ok, enc, pos := PutLine(buf, pos, encbuf, enc);
        if !ok {
          return;
        }
      }
      LinesNone(buf[pos..], lout, llen, eol);
      LinesFitNone(|buf| - pos, lout, llen, |eol|, enc);
      assert out + encbuf[..enc] + [] == out + encbuf[..enc];
      ok := true;
    }

    /** Bytes kept from earlier calls are completed to a group and encoded first. */
    method FillTail(buf: seq<byte>, encbuf: array<byte>) returns (enc: nat, pos: nat)
      requires Ready(State(), llen) && |buf| + |tail| >= 3 && encbuf.Length == ENCBUF && |eol| <= 2
      modifies `lout, encbuf
      ensures pos == FirstSize(old(State())) <= |buf| && enc <= 6 && lout < U32
      ensures var a := First(old(State()), buf, llen, eol);
              encbuf[..enc] == a.text && lout == a.lout
    {
      hide Encode3;
      enc, pos := 0, 0;
      if |tail| > 0 {
        pos := 3 - |tail|;
        var d := tail + buf[..pos];
        enc := PutQuantum(encbuf, 0, d);
        lout := (lout + 4) % U32;
        if lout == llen {
          enc := AppendEol(encbuf, enc);
          lout := 0;
        }
      }
    }

    /** One turn of the line loop: the rest of the current line, or all whole groups left. */
    method PutLine(buf: seq<byte>, from: nat, encbuf: array<byte>, at: nat) returns (ok: bool, enc: nat, pos: nat)
      requires 4 <= llen <= BASE64_LINE && lout < U32 && |eol| <= 2
      requires from + 3 <= |buf| && encbuf.Length == ENCBUF && at <= ENCBUF
      modifies `lout, `out, encbuf
      ensures var room := |buf| - from;
              && lout == TurnColumn(llen, old(lout), room) && enc == TurnEnd(llen, old(lout), room, |eol|, at)
              && pos == from + TurnSize(llen, old(lout), room)
              && (ok <==> enc <= ENCBUF)
              && (ok ==> out + encbuf[..enc]
                         == old(out + encbuf[..at]) + (Encode(buf[from..pos]) + if lout == 0 then eol else []))
    {
      hide Encode, TurnSize, TurnColumn, Flushed;
      var adjusted := llen / 4 * 4;
      enc := Flush(adjusted, encbuf, at);
      var n := PickLine(adjusted, |buf| - from);
      pos := from + n;
      var full := lout == 0;
      ok := enc + n / 3 * 4 + (if full then |eol| else 0) <= ENCBUF;
      if ok {
        enc := PutChars(buf[from..pos], full, encbuf, enc);
      } else {
        enc := enc + n / 3 * 4 + if full then |eol| else 0;
      }
    }

    /** A buffer that could not hold another line is written out. */
    method Flush(adjusted: nat, encbuf: array<byte>, at: nat) returns (enc: nat)
      requires adjusted == Rounded(llen) && at <= encbuf.Length
      modifies `out
      ensures enc == Flushed(llen, at) && out + encbuf[..enc] == old(out) + encbuf[..at]
    {
      enc := at;
      if enc > ENCBUF - adjusted - 2 {
        out := out + encbuf[..enc];
        enc := 0;
        assert out + [] == out;
      }
    }

    /** How much input this turn takes, and the column it leaves. */
    method PickLine(adjusted: nat, room: nat) returns (n: nat)
      requires adjusted == Rounded(llen) && lout < U32
      modifies `lout
      ensures n == TurnSize(llen, old(lout), room) && lout == TurnColumn(llen, old(lout), room)
    {
      var inllen := adjusted / 4 + adjusted / 2;
      n := if lout == 0 then inllen else (adjusted - lout) % U32 / 4 * 3;
      if n > room {
        n := room / 3 * 3;
        lout := (lout + n / 3 * 4) % U32;
      } else {
        lout := 0;
      }
    }

    method PutChars(line: seq<byte>, full: bool, encbuf: array<byte>, at: nat) returns (enc: nat)
      requires |line| % 3 == 0 && |eol| <= 2 && at + |Encode(line)| + (if full then |eol| else 0) <= encbuf.Length
      modifies encbuf
      ensures enc == at + |Encode(line)| + (if full then |eol| else 0) <= encbuf.Length
      ensures out + encbuf[..enc] == out + old(encbuf[..at]) + (Encode(line) + if full then eol else [])
    {
      hide Encode;
      ghost var was := encbuf[..at];
      enc := EncodeLine(line, encbuf, at);
      if full {
        enc := AppendEol(encbuf, enc);
      }
      ghost var added := Encode(line) + if full then eol else [];
      assert encbuf[..enc] == was + added;
      assert out + (was + added) == out + was + added;
    }

    /** armored_dst_finish */
    method Finish()
      requires Sound()
      modifies `out
      ensures out == old(out) + EncodeTail(tail)
                     + if base64 then [] else Closing(|tail| > 0 || lout > 0, crc24(input), footer)
      ensures old(Valid()) ==>
        out == header + if base64 then Body(input, llen, []) else ArmorTail(input, llen, crc24(input), footer)
    {
      hide Encode, Wrap, Column, Closing, EncodeTail, Chars;
      ghost var was := out;
      FinishTail();
      if !base64 {
        FinishArmor();
      }
      if old(Valid()) {
        var w, t := Wrap(Encode(input), 0, llen, eol), EncodeTail(tail);
        assert header + w + t == header + (w + t);
        if !base64 {
          var c := Closing(|tail| > 0 || lout > 0, crc24(input), footer);
          assert header + (w + t) + c == header + (w + t + c);
        }
      }
    }

    /** The padded last quantum. */
    method FinishTail()
      requires |tail| <= 2
      modifies `out
      ensures out == old(out) + EncodeTail(tail)
    {
      if |tail| == 1 {
        out := out + [EncChar(tail[0] >> 2), EncChar(tail[0] << 4), EQ, EQ];
      } else if |tail| == 2 {
        out := out + [EncChar(tail[0] >> 2), EncChar((tail[0] << 4) | (tail[1] >> 4)), EncChar(tail[1] << 2), EQ];
      }
    }

    method FinishArmor()
      requires eol == [CR, LF]
      modifies `out
      ensures out == old(out) + Closing(|tail| > 0 || lout > 0, crc24(fed), footer)
    {
      hide Encode3;
      if |tail| > 0 || lout > 0 {
        out := out + eol;
      }
      var crc := crc24(fed);
      out := out + [EQ] + Encode3(crc.0, crc.1, crc.2);
      out := out + eol;
      out := out + footer;
      out := out + eol;
    }

    method PutQuantum(encbuf: array<byte>, enc: nat, d: seq<byte>) returns (r: nat)
      requires |d| == 3 && enc + 4 <= encbuf.Length
      modifies encbuf
      ensures r == enc + 4 && encbuf[..r] == old(encbuf[..enc]) + Encode3(d[0], d[1], d[2])
    {
      hide Encode3;
      r := PutFour(encbuf, enc, Encode3(d[0], d[1], d[2]));
    }

    method PutFour(encbuf: array<byte>, enc: nat, e: seq<byte>) returns (r: nat)
      requires |e| == 4 && enc + 4 <= encbuf.Length
      modifies encbuf
      ensures r == enc + 4 && encbuf[..r] == old(encbuf[..enc]) + e
    {
      encbuf[enc] := e[0];
      encbuf[enc + 1] := e[1];
      encbuf[enc + 2] := e[2];
      encbuf[enc + 3] := e[3];
      r := enc + 4;
    }

    /** armor_append_eol */
    method AppendEol(encbuf: array<byte>, enc: nat) returns (r: nat)
      requires |eol| <= 2 && enc + |eol| <= encbuf.Length
      modifies encbuf
      ensures r == enc + |eol| && encbuf[..r] == old(encbuf[..enc]) + eol
    {
      r := enc;
      if |eol| > 0 {
        encbuf[r] := eol[0];
        r := r + 1;
      }
      if |eol| > 1 {
        encbuf[r] := eol[1];
        r := r + 1;
      }
    }

    /** The inner loop of armored_dst_write: one line, or the part of it there is input for. */
    method EncodeLine(line: seq<byte>, encbuf: array<byte>, enc: nat) returns (r: nat)
      requires |line| % 3 == 0 && enc + |line| / 3 * 4 <= encbuf.Length
      modifies encbuf
      ensures r == enc + |line| / 3 * 4
      ensures encbuf[..r] == old(encbuf[..enc]) + Encode(line)
    {
      hide Encode24, Encode3, Encode;
      var pos := 0;
      r := enc;
      EncodeNone(line);
      while pos < |line|
        invariant pos <= |line| && pos % 3 == 0 && r == enc + pos / 3 * 4
        invariant encbuf[..r] == old(encbuf[..enc]) + Encode(line[..pos])
      {
        EncodeFormsAgree(line[pos], line[pos + 1], line[pos + 2]);
        EncodeNext(line, pos);
        r := PutFour(encbuf, r, Encode24(line[pos], line[pos + 1], line[pos + 2]));
        pos := pos + 3;
      }
      assert line[..pos] == line;
    }
  }

  // ----- Steps of the line loop -----

  lemma LinesNext(data: seq<byte>, lout: nat, llen: nat, eol: seq<byte>)
    requires 4 <= llen && lout < U32 && |data| >= 3
    ensures var n, col := TurnSize(llen, lout, |data|), TurnColumn(llen, lout, |data|);
            var rest := Lines(data[n..], col, llen, eol);
            Lines(data, lout, llen, eol)
            == Added(Encode(data[..n]) + (if col == 0 then eol else []) + rest.text, rest.lout)
  {
    hide TurnSize, TurnColumn, Encode;
  }

  /** The same inside a longer input, behind the text `before`. */
  lemma LinesNextAt(before: seq<byte>, buf: seq<byte>, from: nat, lout: nat, llen: nat, eol: seq<byte>)
    requires 4 <= llen && lout < U32 && from + 3 <= |buf|
    ensures var n, col := TurnSize(llen, lout, |buf| - from), TurnColumn(llen, lout, |buf| - from);
            var all, rest := Lines(buf[from..], lout, llen, eol), Lines(buf[from + n..], col, llen, eol);
            && before + all.text == before + (Encode(buf[from..from + n]) + if col == 0 then eol else []) + rest.text
            && all.lout == rest.lout
  {
    hide TurnSize, TurnColumn, Encode, Lines;
    var data, n := buf[from..], TurnSize(llen, lout, |buf| - from);
    LinesNext(data, lout, llen, eol);
    assert data[..n] == buf[from..from + n] && data[n..] == buf[from + n..];
  }

  lemma NextShort(p: Pen, buf: seq<byte>, llen: nat, eol: seq<byte>)
    requires Ready(p, llen) && |buf| + |p.tail| < 3
    ensures Fits(p, buf, llen, eol) && Next(p, buf, llen, eol) == p.(tail := p.tail + buf)
  {
  }

  lemma NextIs(p: Pen, buf: seq<byte>, llen: nat, eol: seq<byte>)
    requires Ready(p, llen) && |buf| + |p.tail| >= 3
    ensures var a, data := First(p, buf, llen, eol), buf[FirstSize(p)..];
            var b := Lines(data, a.lout, llen, eol);
            && Next(p, buf, llen, eol) == Pen(b.lout, TailOf(data), p.out + (a.text + b.text))
            && (Fits(p, buf, llen, eol) <==> LinesFit(|data|, a.lout, llen, |eol|, |a.text|))
  {
    hide First, Lines, LinesFit, TailOf;
  }

  lemma LinesNone(data: seq<byte>, lout: nat, llen: nat, eol: seq<byte>)
    requires 4 <= llen && lout < U32 && |data| < 3
    ensures Lines(data, lout, llen, eol) == Added([], lout)
  {
  }

  lemma FitsNext(len: nat, lout: nat, llen: nat, e: nat, enc: nat)
    requires 4 <= llen && lout < U32 && len >= 3
    ensures LinesFit(len, lout, llen, e, enc) <==>
            && TurnEnd(llen, lout, len, e, enc) <= ENCBUF
            && LinesFit(len - TurnSize(llen, lout, len), TurnColumn(llen, lout, len), llen, e,
                        TurnEnd(llen, lout, len, e, enc))
  {
    hide TurnSize, TurnColumn, TurnEnd;
  }

  lemma LinesFitNone(len: nat, lout: nat, llen: nat, e: nat, enc: nat)
    requires 4 <= llen && lout < U32 && len < 3
    ensures LinesFit(len, lout, llen, e, enc)
  {
  }

  lemma Assoc(a: seq<byte>, b: seq<byte>, c: seq<byte>)
    ensures a + b + c == a + (b + c)
  {
  }

  lemma TailFrom(s: seq<byte>, from: nat, pos: nat)
    requires from <= pos <= |s| < pos + 3 && (pos - from) % 3 == 0
    ensures TailOf(s[from..]) == s[pos..]
  {
    hide TailOf;
    TailIs(s[from..], pos - from);
    assert s[from..][pos - from..] == s[pos..];
  }

  lemma TailIs(s: seq<byte>, n: nat)
    requires n <= |s| < n + 3 && n % 3 == 0
    ensures TailOf(s) == s[n..]
  {
  }

  // ----- Any line length: the characters -----

  lemma {:induction false} LinesChars(data: seq<byte>, lout: nat, llen: nat, eol: seq<byte>)
    requires 4 <= llen && lout < U32 && Chars(eol) == []
    ensures Chars(Lines(data, lout, llen, eol).text) == Encode(data)
    decreases |data|, lout
  {
    hide Encode, Chars, Lines, TurnSize, TurnColumn;
    CharsEol();
    if |data| < 3 {
      LinesNone(data, lout, llen, eol);
      ShortEncode(data);
    } else {
      TurnMoves(llen, lout, |data|);
      LinesNext(data, lout, llen, eol);
      var n, col := TurnSize(llen, lout, |data|), TurnColumn(llen, lout, |data|);
      var rest := Lines(data[n..], col, llen, eol);
      LinesChars(data[n..], col, llen, eol);
      var x, y := Encode(data[..n]), if col == 0 then eol else [];
      CharsAppend(x + y, rest.text);
      CharsAppend(x, y);
      EncodeChars(data[..n]);
      assert data == data[..n] + data[n..];
      EncodeAppend(data[..n], data[n..]);
      assert x + [] + Encode(data[n..]) == x + Encode(data[n..]);
    }
  }

  lemma ShortEncode(s: seq<byte>)
    requires |s| < 3
    ensures Encode(s) == []
  {
  }

  lemma FillChars(p: Pen, buf: seq<byte>, llen: nat, eol: seq<byte>)
    requires Ready(p, llen) && |buf| + |p.tail| >= 3 && Chars(eol) == []
    ensures Chars(First(p, buf, llen, eol).text) == Encode(p.tail + buf[..FirstSize(p)])
    ensures |p.tail + buf[..FirstSize(p)]| % 3 == 0
  {
    hide Encode, Encode3, Chars;
    CharsEol();
    var d := p.tail + buf[..FirstSize(p)];
    if p.tail == [] {
      ShortEncode(d);
    } else {
      GroupEncode(d);
      EncodeChars(d);
      CharsAppend(Encode(d), eol);
      assert Encode(d) + [] == Encode(d);
    }
  }

  lemma GroupEncode(d: seq<byte>)
    requires |d| == 3
    ensures Encode(d) == Encode3(d[0], d[1], d[2])
  {
    hide Encode3;
    assert d[3..] == [];
  }

  /** Whatever the line length, one write adds the base64 characters of its input, and line ends. */
  lemma NextChars(p: Pen, buf: seq<byte>, llen: nat, eol: seq<byte>)
    requires Ready(p, llen) && Chars(eol) == []
    ensures var q := Next(p, buf, llen, eol);
            && p.out <= q.out && Chars(q.out[|p.out|..]) == Encode(p.tail + buf) && q.tail == TailOf(p.tail + buf)
  {
    hide Encode, Chars, Lines, First, TailOf;
    CharsEol();
    if |buf| + |p.tail| < 3 {
      ShortEncode(p.tail + buf);
      ShortTail(p.tail + buf);
      assert p.out[|p.out|..] == [];
    } else {
      var a, data := First(p, buf, llen, eol), buf[FirstSize(p)..];
      var b := Lines(data, a.lout, llen, eol);
      var d := p.tail + buf[..FirstSize(p)];
      FillChars(p, buf, llen, eol);
      LinesChars(data, a.lout, llen, eol);
      CharsAppend(a.text, b.text);
      assert p.tail + buf == d + data;
      EncodeAppend(d, data);
      TailAppend(d, data);
      assert (p.out + (a.text + b.text))[|p.out|..] == a.text + b.text;
    }
  }

  lemma ShortTail(s: seq<byte>)
    requires |s| < 3
    ensures TailOf(s) == s
  {
  }

  lemma TailAppend(s: seq<byte>, t: seq<byte>)
    requires |s| % 3 == 0
    ensures TailOf(s + t) == TailOf(t)
  {
    var n := |t| / 3 * 3;
    TailIs(t, n);
    assert (s + t)[|s| + n..] == t[n..];
    TailIs(s + t, |s| + n);
  }

  lemma NextSound(p: Pen, input: seq<byte>, buf: seq<byte>, llen: nat, eol: seq<byte>, header: seq<byte>)
    requires Ready(p, llen) && (eol == [] || eol == [CR, LF])
    requires p.tail == TailOf(input) && header <= p.out && Chars(p.out[|header|..]) == Encode(input)
    ensures var q := Next(p, buf, llen, eol);
            && header <= q.out && Chars(q.out[|header|..]) == Encode(input + buf) && q.tail == TailOf(input + buf)
  {
    hide Encode, Chars, Next, TailOf;
    CharsEol();
    NextChars(p, buf, llen, eol);
    var q := Next(p, buf, llen, eol);
    var n := WholeAndTail(input);
    assert input + buf == input[..n] + (TailOf(input) + buf);
    EncodeAppend(input[..n], TailOf(input) + buf);
    TailAppend(input[..n], TailOf(input) + buf);
    assert q.out == p.out + q.out[|p.out|..];
    assert q.out[|header|..] == p.out[|header|..] + q.out[|p.out|..];
    CharsAppend(p.out[|header|..], q.out[|p.out|..]);
  }

  /** The whole groups of `s`, up to position `n`, and the rest. */
  lemma WholeAndTail(s: seq<byte>) returns (n: nat)
    ensures n <= |s| < n + 3 && n % 3 == 0
    ensures TailOf(s) == s[n..] && s == s[..n] + TailOf(s) && Encode(s) == Encode(s[..n])
  {
    hide Encode, TailOf;
    n := WholeSize(|s|);
    EncodeWhole(s, n);
    TailIs(s, n);
  }

  lemma WholeSize(k: nat) returns (n: nat)
    ensures n <= k < n + 3 && n % 3 == 0
  {
    n := k / 3 * 3;
  }

  // ----- The column -----

  lemma TurnColumnMultiple(llen: nat, lout: nat, room: nat)
    requires lout < U32 && lout % 4 == 0
    ensures TurnColumn(llen, lout, room) % 4 == 0
  {
    hide Want;
    WrappedMultiple(lout, room / 3);
  }

  lemma WrappedMultiple(lout: nat, g: nat)
    requires lout % 4 == 0
    ensures (lout + g * 4) % U32 % 4 == 0
  {
    var k := lout / 4 + g;
    assert lout + g * 4 == 4 * k;
  }

  lemma {:induction false} LinesColumn(data: seq<byte>, lout: nat, llen: nat, eol: seq<byte>)
    requires 4 <= llen && lout < U32 && lout % 4 == 0
    ensures Lines(data, lout, llen, eol).lout % 4 == 0
    decreases |data|, lout
  {
    hide Lines, TurnSize, TurnColumn;
    if |data| < 3 {
      LinesNone(data, lout, llen, eol);
    } else {
      TurnMoves(llen, lout, |data|);
      LinesNext(data, lout, llen, eol);
      TurnColumnMultiple(llen, lout, |data|);
      LinesColumn(data[TurnSize(llen, lout, |data|)..], TurnColumn(llen, lout, |data|), llen, eol);
    }
  }

  /** Only whole groups are written, so the column stays a multiple of 4. */
  lemma NextColumn(p: Pen, buf: seq<byte>, llen: nat, eol: seq<byte>)
    requires Ready(p, llen) && p.lout % 4 == 0
    ensures Next(p, buf, llen, eol).lout % 4 == 0
  {
    hide Lines, Encode3, TailOf;
    if |buf| + |p.tail| >= 3 {
      WrappedMultiple(p.lout, 1);
      LinesColumn(buf[FirstSize(p)..], First(p, buf, llen, eol).lout, llen, eol);
    }
  }

  // ----- Multiples of 4: the lines -----

  /** The writer after `input`, if the text is broken into lines as it should be. */
  function PenOf(input: seq<byte>, llen: nat, eol: seq<byte>, header: seq<byte>): (p: Pen)
    requires 0 < llen
  {
    Pen(Column(0, |Encode(input)|, llen), TailOf(input), header + Wrap(Encode(input), 0, llen, eol))
  }

  lemma EmptyPen(llen: nat, eol: seq<byte>, header: seq<byte>)
    requires 0 < llen
    ensures PenOf([], llen, eol, header) == Pen(0, [], header)
  {
    hide Encode, TailOf;
    NothingEncoded();
    ShortTail([]);
    assert header + [] == header;
  }

  lemma NothingWritten(out: seq<byte>)
    ensures TailOf([]) == [] && Chars(out[|out|..]) == Encode([])
  {
    hide TailOf, Encode;
    NothingEncoded();
    ShortTail([]);
    CharsEol();
  }

  lemma TurnFits(llen: nat, lout: nat, room: nat)
    requires 4 <= llen < U32 && lout < llen && llen % 4 == 0 && lout % 4 == 0 && 3 <= room
    ensures var n := TurnSize(llen, lout, room);
            var col := lout + n / 3 * 4;
            && 3 <= n <= room && n % 3 == 0
            && col <= llen && TurnColumn(llen, lout, room) == if col == llen then 0 else col
  {
    hide Want;
    var k, g := (llen - lout) / 4, room / 3;
    WantInside(llen, lout);
    assert llen - lout == 4 * k && Want(llen, lout) == 3 * k;
    if 3 * k > room {
      assert g < k && lout + 4 * g < llen;
    }
  }

  /** Inside the line nothing wraps. */
  lemma WantInside(llen: nat, lout: nat)
    requires llen < U32 && lout <= Rounded(llen)
    ensures Want(llen, lout) == 3 * ((Rounded(llen) - lout) / 4)
  {
  }

  /** Bytes that complete the pending group add one quantum to the line. */
  lemma {:induction false} GroupFills(s: seq<byte>, more: seq<byte>, llen: nat, eol: seq<byte>)
    requires |TailOf(s)| + |more| == 3 && 0 < llen && llen % 4 == 0
    ensures |s + more| % 3 == 0
    ensures var q := TailOf(s) + more;
            var col := Column(0, |Encode(s)|, llen) + 4;
            && col <= llen
            && Column(0, |Encode(s + more)|, llen) == (if col == llen then 0 else col)
            && Wrap(Encode(s + more), 0, llen, eol)
               == Wrap(Encode(s), 0, llen, eol) + (Encode3(q[0], q[1], q[2]) + if col == llen then eol else [])
  {
    hide Encode, Encode3, Wrap, Column, TailOf;
    var q := TailOf(s) + more;
    var n := WholeAndTail(s);
    assert s + more == s[..n] + q;
    assert q[..3] == q && q[..0] == [];
    EncodeNone(q);
    EncodeNext(q, 0);
    ColumnMultiple(0, |Encode(s)|, llen);
    LineAdds(s[..n], q, llen, eol);
  }

  lemma {:induction false} LinesWrap(done: seq<byte>, data: seq<byte>, llen: nat, eol: seq<byte>)
    requires |done| % 3 == 0 && 4 <= llen < U32 && llen % 4 == 0
    ensures var r := Lines(data, Column(0, |Encode(done)|, llen), llen, eol);
            && r.lout == Column(0, |Encode(done + data)|, llen)
            && Wrap(Encode(done), 0, llen, eol) + r.text == Wrap(Encode(done + data), 0, llen, eol)
    decreases |data|
  {
    hide Encode, Wrap, Column, Lines, TurnSize, TurnColumn;
    var c := Column(0, |Encode(done)|, llen);
    var w := Wrap(Encode(done), 0, llen, eol);
    if |data| < 3 {
      LinesNone(data, c, llen, eol);
      EncodeAppend(done, data);
      ShortEncode(data);
      assert Encode(done) + [] == Encode(done) && w + [] == w;
    } else {
      ColumnMultiple(0, |Encode(done)|, llen);
      TurnFits(llen, c, |data|);
      LinesNext(data, c, llen, eol);
      var n, col := TurnSize(llen, c, |data|), TurnColumn(llen, c, |data|);
      LineAdds(done, data[..n], llen, eol);
      LinesWrap(done + data[..n], data[n..], llen, eol);
      assert done + data[..n] + data[n..] == done + data;
      var x, rest := Encode(data[..n]) + (if col == 0 then eol else []), Lines(data[n..], col, llen, eol);
      assert w + x + rest.text == w + (x + rest.text);
    }
  }

  /** The line loop looks at the line length rounded down to a multiple of 4 only. */
  lemma {:induction false} LinesRounded(data: seq<byte>, lout: nat, llen: nat, eol: seq<byte>)
    requires 4 <= llen && lout < U32
    ensures Lines(data, lout, llen, eol) == Lines(data, lout, Rounded(llen), eol)
    decreases |data|, lout
  {
    hide Lines;
    if |data| < 3 {
      LinesNone(data, lout, llen, eol);
      LinesNone(data, lout, Rounded(llen), eol);
    } else {
      TurnMoves(llen, lout, |data|);
      LinesNext(data, lout, llen, eol);
      LinesNext(data, lout, Rounded(llen), eol);
      LinesRounded(data[TurnSize(llen, lout, |data|)..], TurnColumn(llen, lout, |data|), llen, eol);
    }
  }

  /** The first write, at any line length: the text is wrapped at the rounded length, and the bytes that fill no
      group are kept. */
  lemma FirstWrite(out: seq<byte>, buf: seq<byte>, llen: nat, eol: seq<byte>)
    requires 4 <= llen <= BASE64_LINE
    ensures Next(Pen(0, [], out), buf, llen, eol)
            == Pen(Column(0, |Encode(buf)|, Rounded(llen)), TailOf(buf), out + Wrap(Encode(buf), 0, Rounded(llen), eol))
  {
    hide Lines, Encode, Wrap, Column, TailOf;
    var r := Rounded(llen);
    NothingEncoded();
    LinesRounded(buf, 0, llen, eol);
    LinesWrap([], buf, r, eol);
    WrapStep([], 0, r, eol);
    ColumnZero(r);
    assert [] + buf == buf && buf[0..] == buf;
    var w := Wrap(Encode(buf), 0, r, eol);
    assert [] + w == w;
    if |buf| < 3 {
      ShortEncode(buf);
      ShortTail(buf);
      assert [] + buf == buf && out + [] == out;
    }
  }

  lemma ColumnZero(llen: nat)
    requires 0 < llen
    ensures Column(0, 0, llen) == 0
  {
  }

  /** From a column inside the line, every turn stays inside encbuf. */
  lemma {:induction false} LinesStay(len: nat, lout: nat, llen: nat, e: nat, enc: nat)
    requires 4 <= llen <= BASE64_LINE && lout <= Rounded(llen) && e <= 2 && enc <= ENCBUF
    ensures LinesFit(len, lout, llen, e, enc)
    decreases len, lout
  {
    hide LinesFit, TurnSize, TurnColumn;
    if len < 3 {
      LinesFitNone(len, lout, llen, e, enc);
    } else {
      TurnMoves(llen, lout, len);
      TurnStays(llen, lout, len);
      FitsNext(len, lout, llen, e, enc);
      LinesStay(len - TurnSize(llen, lout, len), TurnColumn(llen, lout, len), llen, e,
                TurnEnd(llen, lout, len, e, enc));
    }
  }

  lemma TurnStays(llen: nat, lout: nat, room: nat)
    requires 4 <= llen < U32 && lout <= Rounded(llen)
    ensures TurnSize(llen, lout, room) / 3 * 4 <= Rounded(llen) && TurnColumn(llen, lout, room) <= Rounded(llen)
  {
    hide Want;
    var r := Rounded(llen);
    var k := (r - lout) / 4;
    WantInside(llen, lout);
    assert Want(llen, lout) == 3 * k;
    if 3 * k > room {
      var g := room / 3;
      assert g < k && 4 * k <= r - lout;
    }
  }

  /** One write takes the writer from the lines of the input to the lines of the longer input; no turn
      passes the end of encbuf. */
  lemma {:induction false} NextWraps(input: seq<byte>, buf: seq<byte>, llen: nat, eol: seq<byte>, header: seq<byte>)
    requires 4 <= llen <= BASE64_LINE && llen % 4 == 0 && |eol| <= 2
    ensures var p := PenOf(input, llen, eol, header);
            && Ready(p, llen) && Fits(p, buf, llen, eol)
            && Next(p, buf, llen, eol) == PenOf(input + buf, llen, eol, header)
  {
    hide Encode, Encode3, Wrap, Column, Lines, LinesFit, TailOf;
    var p := PenOf(input, llen, eol, header);
    if |buf| + |p.tail| < 3 {
      TailGrows(input, buf);
    } else {
      var k := FirstSize(p);
      var a, data, done := First(p, buf, llen, eol), buf[k..], input + buf[..k];
      var w := Wrap(Encode(input), 0, llen, eol);
      FirstWraps(input, buf, llen, eol, header);
      LinesWrap(done, data, llen, eol);
      LinesStay(|buf| - k, a.lout, llen, |eol|, |a.text|);
      assert done + data == input + buf;
      TailAppend(done, data);
      var b := Lines(data, a.lout, llen, eol);
      assert header + w + (a.text + b.text) == header + (w + a.text + b.text);
    }
  }

  lemma {:induction false} FirstWraps(input: seq<byte>, buf: seq<byte>, llen: nat, eol: seq<byte>, header: seq<byte>)
    requires 4 <= llen <= BASE64_LINE && llen % 4 == 0 && |eol| <= 2 && |buf| + |TailOf(input)| >= 3
    ensures var p := PenOf(input, llen, eol, header);
            && Ready(p, llen)
            && var a, done := First(p, buf, llen, eol), input + buf[..FirstSize(p)];
            && |done| % 3 == 0 && a.lout == Column(0, |Encode(done)|, llen) <= Rounded(llen) && |a.text| <= 6
            && Wrap(Encode(input), 0, llen, eol) + a.text == Wrap(Encode(done), 0, llen, eol)
  {
    hide Encode, Encode3, Wrap, Column;
    var p := PenOf(input, llen, eol, header);
    var k := FirstSize(p);
    if p.tail == [] {
      assert input + buf[..0] == input;
      assert Wrap(Encode(input), 0, llen, eol) + [] == Wrap(Encode(input), 0, llen, eol);
    } else {
      GroupFills(input, buf[..k], llen, eol);
    }
  }
}
