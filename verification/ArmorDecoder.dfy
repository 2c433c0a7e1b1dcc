/** The streaming armor reader. Between calls it keeps decoded bytes that did not fit the caller's
    buffer, up to three 6-bit values, and whether the base64 data has ended. */
module ArmorDecoder {
  import opened Options
  import opened Base64
  import opened ArmorReference

  /** ARMORED_BLOCK_SIZE */
  const BLOCK: nat := 4096

  function Min(a: nat, b: nat): (m: nat)
    ensures m <= a && m <= b
  {
    if a < b then a else b
  }

  // ----- Abstract state -----

  /** `pending`: bytes of rest not delivered yet. `stale`: the value of restpos when no byte is
      pending; anything but 0 makes a later refill of rest start too far in. */
  datatype View = View(mode: Mode, input: seq<byte>, pending: seq<byte>, brest: seq<byte>,
                       stale: nat, eof: bool, crc: Option<Crc>, fed: seq<byte>)

  /** The bytes still to come, or None if reading on must end in an error. */
  function Outcome(v: View): (r: Option<seq<byte>>) {
    if v.eof then Some(v.pending) else Prepend(v.pending, Parse(v.brest, v.input, v.mode))
  }

  /** A read that takes no new input: enough bytes are pending. */
  predicate Served(v: View, len: nat) {
    v.pending != [] && len <= |v.pending|
  }

  /** Groups of four decoded straight into the caller's buffer, of `n` values for `want` bytes. */
  function Quads(n: nat, want: nat): (q: nat)
    ensures 4 * q <= n && 3 * q <= want && (want - 3 * q < 3 || n - 4 * q < 4)
  {
    if n / 4 * 3 < want then n / 4 else want / 3
  }

  /** Bytes of the padded last group. */
  function PadSize(eq: nat): nat {
    if eq == 1 then 2 else if eq == 2 then 1 else 0
  }

  /** Where a read that needs input gets to: `over` bytes decoded but not handed out, whether the data
      has ended, and otherwise the values and the text left. */
  datatype Ahead = Ahead(over: nat, eof: bool, brest: nat, input: seq<byte>)

  function Over(n: nat, left: nat): nat {
    n - Min(left, n)
  }

  /** The values pending after one more block of text. */
  function BlockValues(n: nat, input: seq<byte>): nat {
    var chunk := Peek(input, BLOCK);
    n + |Sextets(chunk[..BodyLen(chunk)])|
  }

  /** Does the data end in this block? */
  predicate BlockEnds(input: seq<byte>, m: Mode) {
    var chunk := Peek(input, BLOCK);
    BodyLen(chunk) < |chunk| || (|chunk| == |input| && m.noheaders)
  }

  /** Values kept after the groups that fit, and bytes still wanted. */
  function Kept(n: nat, want: nat): nat {
    n - 4 * Quads(n, want)
  }

  function Left(n: nat, want: nat): nat {
    want - 3 * Quads(n, want)
  }

  /** Block by block: `n` values pending, `want` bytes wanted. */
  function LookAhead(n: nat, input: seq<byte>, want: nat, m: Mode): (r: Ahead)
    decreases |input|
  {
    var all := BlockValues(n, input);
    var left, kept, rest := Left(all, want), Kept(all, want), input[|Peek(input, BLOCK)|..];
    if BlockEnds(input, m) || input == [] then
      var c := Close(EndOf(input), m);
      Ahead(Over(kept / 4 * 3 + if c.Some? then PadSize(c.value.eq) else 0, left), true, 0, [])
    else if left >= 3 then LookAhead(kept, rest, left, m)
    else Ahead(Over(kept / 4 * 3, left), false, kept % 4, rest)
  }

  /** The same after a turn of the loop: `left` bytes wanted, `dend` values kept, `eq` padding characters. */
  function Reached(eof: bool, dend: nat, left: nat, eq: nat, input: seq<byte>, m: Mode): (r: Ahead) {
    if eof then Ahead(Over(dend / 4 * 3 + PadSize(eq), left), true, 0, [])
    else if left >= 3 then LookAhead(dend, input, left, m)
    else Ahead(Over(dend / 4 * 3, left), false, dend % 4, input)
  }

  /** The bytes that are pending after a read, and those it drops: known before the read. */
  function Leaves(v: View, len: nat): (n: nat) {
    if Served(v, len) then |v.pending| - len
    else if v.eof then 0
    else LookAhead(|v.brest|, v.input, len - |v.pending|, v.mode).over
  }

  /** What one successful read of up to `len` bytes does. Of the bytes it leaves, a stale position
      drops that many (`lost`). */
  ghost predicate Step(v: View, len: nat, w: View, out: seq<byte>, lost: seq<byte>) {
    && Outcome(v) == Prepend(out + lost, Outcome(w))
    && StepAmounts(v, len, w, out, lost)
    && StepMoves(v, len, w)
    && StepCrcs(v, w, out, lost)
  }

  /** How much is delivered, lost and left. */
  ghost predicate StepAmounts(v: View, len: nat, w: View, out: seq<byte>, lost: seq<byte>) {
    && |out| <= len
    && |lost| + |w.pending| == Leaves(v, len)
    && |lost| == (if v.eof then 0 else Min(v.stale, Leaves(v, len)))
    && (len >= 3 && out == [] ==> w.eof && w.pending == [])
    && (!w.eof && v.stale == 0 ==> (w.stale > 0 <==> v.pending != [] && len == |v.pending|))
  }

  /** How far it gets in the text. */
  ghost predicate StepMoves(v: View, len: nat, w: View) {
    && w.mode == v.mode
    && (Served(v, len) || v.eof ==> w.eof == v.eof && w.input == v.input && w.brest == v.brest)
    && (!Served(v, len) && !v.eof ==>
          var a := LookAhead(|v.brest|, v.input, len - |v.pending|, v.mode);
          w.eof == a.eof && (!w.eof ==> |w.brest| == a.brest && w.input == a.input))
    && (!w.eof && |v.pending| < len ==> |w.input| < |v.input|)
  }

  /** What the CRC context gets, and the CRC line. */
  ghost predicate StepCrcs(v: View, w: View, out: seq<byte>, lost: seq<byte>) {
    && (!v.eof ==> if w.eof then w.crc == CrcOf(v.input, v.mode) else EndOf(w.input) == EndOf(v.input))
    && (!v.mode.noheaders && !v.eof ==> w.fed == v.fed + out + if w.eof then lost + w.pending else [])
  }

  /** How a read ends. NoCrc: the CRC context that bare base64 does not have is used. OutsideTable: a
      table is read before its start, with a byte of 0x80 or more as a signed index. */
  datatype Status = Done | Failed | NoCrc | OutsideTable

  /** The last byte that is no white space, of the 16 bytes read after the data, is 0x80 or more. */
  predicate HighLast(t: seq<byte>) {
    var pad := Peek(t, 16);
    var n := Stripped(pad);
    n > 0 && pad[n - 1] >= 0x80
  }

  /** Bare base64 text whose end leads outside the table. */
  predicate BadEnd(s: seq<byte>, m: Mode) {
    m.noheaders && Ends(EndOf(s), m) && HighLast(EndOf(s))
  }

  // ----- Pieces of the reading loop -----

  datatype Scan = More | Stop | Bad

  /** Copies the 6-bit values of `chunk` behind the `from` values in dec, up to the first character
      that is not part of the data. */
  method Strip(chunk: seq<byte>, dec: array<byte>, from: nat, noheaders: bool)
    returns (dend: nat, used: nat, scan: Scan)
    requires from + |chunk| <= dec.Length
    modifies dec
    ensures from <= dend <= from + used && used <= |chunk| && AllBody(chunk[..used])
    ensures dec[..dend] == old(dec[..from]) + Sextets(chunk[..used])
    ensures scan == More <==> used == |chunk|
    ensures scan != More ==> !IsBody(chunk[used])
    ensures scan == Stop <==> used < |chunk| && (DecChar(chunk[used]) == EQUALS || (chunk[used] == DASH && !noheaders))
  {
    hide DecChar;
    dend, used, scan := from, 0, More;
    assert Sextets(chunk[..0]) == [];
    while used < |chunk|
      invariant from <= dend <= from + used && used <= |chunk| && AllBody(chunk[..used])
      invariant dec[..dend] == old(dec[..from]) + Sextets(chunk[..used])
    {
      var c := chunk[used];
      var v := DecChar(c);
      if v == EQUALS || (v == WRONG && c == DASH && !noheaders) {
        DashIsWrong();
        return dend, used, Stop;
      }
      if v == WRONG {
        return dend, used, Bad;
      }
      Marks(c);
      NextSextet(chunk, used);
      if v < 64 {
        dec[dend] := v;
        dend := dend + 1;
      }
      used := used + 1;
    }
  }

  lemma DashIsWrong()
    ensures DecChar(DASH) == WRONG
  {
  }

  lemma Marks(c: byte)
    ensures DecChar(c) < 64 || DecChar(c) == SPACE || DecChar(c) == EQUALS || DecChar(c) == WRONG
  {
  }

  lemma NextSextet(s: seq<byte>, i: nat)
    requires i < |s|
    ensures Sextets(s[..i + 1]) == Sextets(s[..i]) + if DecChar(s[i]) < 64 then [DecChar(s[i])] else []
  {
    hide DecChar;
    assert s[..i + 1] == s[..i] + [s[i]];
    SextetsAppend(s[..i], [s[i]]);
    SextetsOne(s[i]);
  }

  /** Both decoding loops: `quads` groups of four from dec, written to dst from position `at`. */
  method DecodeQuads(dec: array<byte>, quads: nat, dst: array<byte>, at: nat)
    requires 4 * quads <= dec.Length && at + 3 * quads <= dst.Length && dec != dst
    modifies dst
    ensures dst[..at] == old(dst[..at])
    ensures dst[at..at + 3 * quads] == Bytes(dec[..4 * quads])
  {
    hide Bytes, Decode4;
    var i := 0;
    ghost var x := dec[..4 * quads];
    NoBytes(x[..0]);
    while i < quads
      invariant i <= quads && dec[..4 * quads] == x
      invariant dst[..at] == old(dst[..at])
      invariant dst[at..at + 3 * i] == Bytes(x[..4 * i])
    {
      ghost var before := dst[..at + 3 * i];
      var d := Decode4(dec[4 * i], dec[4 * i + 1], dec[4 * i + 2], dec[4 * i + 3]);
      Put(dst, at + 3 * i, d);
      assert dst[..at] == before[..at];
      assert dst[at..at + 3 * i + 3] == before[at..] + d;
      NextQuad(x, i);
      i := i + 1;
    }
    assert x[..4 * quads] == x;
  }

  method Put(dst: array<byte>, at: nat, d: seq<byte>)
    requires at + |d| <= dst.Length
    modifies dst
    ensures dst[..at + |d|] == old(dst[..at]) + d
  {
    forall i | 0 <= i < |d| {
      dst[at + i] := d[i];
    }
  }

  lemma NoBytes(x: seq<byte>)
    requires x == []
    ensures Bytes(x) == []
  {
  }

  lemma NextQuad(x: seq<byte>, i: nat)
    requires 4 * i + 4 <= |x|
    ensures Bytes(x[..4 * (i + 1)]) == Bytes(x[..4 * i]) + Decode4(x[4 * i], x[4 * i + 1], x[4 * i + 2], x[4 * i + 3])
  {
    hide Bytes, Decode4;
    var q := x[4 * i..4 * i + 4];
    assert x[..4 * (i + 1)] == x[..4 * i] + q;
    BytesAppend(x[..4 * i], q);
    BytesOfFour(q);
  }

  /** memmove of dec[from..to] to the start of dec. */
  method MoveDown(dec: array<byte>, from: nat, to: nat)
    requires from <= to <= dec.Length
    modifies dec
    ensures dec[..to - from] == old(dec[from..to])
  {
    forall i | 0 <= i < to - from {
      dec[i] := dec[from + i];
    }
  }

  method Copy(src: array<byte>, from: nat, n: nat, dst: array<byte>, at: nat)
    requires from + n <= src.Length && at + n <= dst.Length && src != dst
    modifies dst
    ensures dst[..at] == old(dst[..at]) && dst[at..at + n] == src[from..from + n]
  {
    forall i | 0 <= i < n {
      dst[at + i] := src[from + i];
    }
  }

  /** Whole groups that fit the caller's buffer are decoded into it; the rest moves to the front of
      dec. Afterwards fewer than 3 bytes are wanted or fewer than 4 values are left. */
  method Deliver(buf: array<byte>, at: nat, want: nat, dec: array<byte>, n: nat)
    returns (bp: nat, left: nat, dend: nat, ghost x: seq<byte>)
    requires n <= dec.Length && at + want <= buf.Length && dec != buf
    modifies buf, dec
    ensures var q := Quads(n, want);
            bp == at + 3 * q && left == want - 3 * q && dend == n - 4 * q
    ensures |x| % 4 == 0 && old(dec[..n]) == x + dec[..dend]
    ensures buf[..at] == old(buf[..at]) && buf[at..bp] == Bytes(x)
  {
    var quads := if n / 4 * 3 < want then n / 4 else want / 3;
    assert quads == Quads(n, want);
    x := dec[..4 * quads];
    DecodeQuads(dec, quads, buf, at);
    MoveDown(dec, 4 * quads, n);
    bp, left, dend := at + 3 * quads, want - 3 * quads, n - 4 * quads;
  }

  /** armor_skip_chars */
  method ArmorSkipChars(s: seq<byte>, chars: set<byte>) returns (r: seq<byte>)
    ensures r == SkipChars(s, chars)
  {
    r := s;
    while r != [] && r[0] in chars
      invariant SkipChars(r, chars) == SkipChars(s, chars)
      decreases |r|
    {
      r := r[1..];
    }
  }

  /** armor_read_trailer */
  method ArmorReadTrailer(s: seq<byte>, footer: seq<byte>) returns (r: Option<seq<byte>>)
    ensures r == ReadTrailer(s, footer)
  {
    hide SkipChars, SkipEol;
    var t := ArmorSkipChars(s, {CR, LF, BLANK, TAB});
    if !(footer <= t) {
      return None;
    }
    var u := ArmorSkipChars(t[|footer|..], {TAB, BLANK});
    var e := SkipEol(u);
    r := if e.Some? then e else Some(u);
  }

  /** base64_read_padding. The table index is a plain char, taken as signed. */
  method Base64ReadPadding(s: seq<byte>) returns (r: Option<nat>, outside: bool)
    ensures outside <==> HighLast(s)
    ensures r == ReadBase64Padding(s) && (outside ==> r == None)
  {
    hide DecChar;
    var pad := Peek(s, 16);
    var n := |pad|;
    assert pad[..n] == pad;
    while n > 0
      invariant n <= |pad| && Stripped(pad[..n]) == Stripped(pad)
    {
      if pad[n - 1] >= 0x80 {
        HighIsWrong(pad[n - 1]);
        assert Stripped(pad[..n]) == n;
        return None, true;
      }
      if DecChar(pad[n - 1]) != SPACE {
        break;
      }
      assert pad[..n][..n - 1] == pad[..n - 1];
      n := n - 1;
    }
    assert n == Stripped(pad);
    for i := 0 to n
      invariant forall j :: 0 <= j < i ==> pad[j] == EQ
    {
      if pad[i] != EQ {
        return None, false;
      }
    }
    if n > 2 {
      return None, false;
    }
    return Some(n), false;
  }

  lemma HighIsWrong(c: byte)
    requires c >= 0x80
    ensures DecChar(c) == WRONG && c != EQ
  {
  }

  /** End of base64 data: padding, CRC line and closing line, or only the padding. */
  method ReadEnd(t: seq<byte>, m: Mode) returns (r: Option<End>, outside: bool)
    ensures r == Close(t, m) && (outside <==> m.noheaders && HighLast(t)) && (outside ==> r == None)
  {
    hide ReadPadding, ReadCrc, ReadTrailer, ReadBase64Padding, HighLast;
    outside := false;
    if m.noheaders {
      var eq;
      eq, outside := Base64ReadPadding(t);
      r := if eq.None? then None else Some(End(eq.value, None, t[|Peek(t, 16)|..]));
      return;
    }
    var pad := ReadPadding(t);
    if pad.None? {
      r := None;
      return;
    }
    var crc := ReadCrc(pad.value.1);
    var rest := ArmorReadTrailer(if crc.Some? then crc.value.1 else pad.value.1, m.footer);
    r := if rest.None? then None
         else Some(End(pad.value.0, if crc.Some? then Some(crc.value.0) else None, rest.value));
  }

  class ArmoredSource {
    const mode: Mode
    const crc24: seq<byte> -> Crc
    /** unread bytes of readsrc */
    var input: seq<byte>
    const rest: array<byte>
    var restlen: nat
    var restpos: nat
    const brest: array<byte>
    var brestlen: nat
    var eofb64: bool
    /** readcrc, if has_crc */
    var readcrc: Option<Crc>
    /** bytes given to the CRC context */
    var fed: seq<byte>
    /** the "CRC mismatch" warning was issued */
    var mismatch: bool

    ghost predicate Valid()
      reads this
    {
      && rest.Length == BLOCK && brest.Length == 3 && rest != brest
      && restlen <= BLOCK && brestlen <= 3
    }

    ghost function State(): View
      requires Valid()
      reads this, rest, brest
    {
      View(mode, input, if restpos < restlen then rest[restpos..restlen] else [], brest[..brestlen],
           if restpos < restlen then 0 else restpos, eofb64, readcrc, fed)
    }

    constructor (input: seq<byte>, mode: Mode, crc24: seq<byte> -> Crc)
      ensures Valid() && fresh(rest) && fresh(brest)
      ensures State() == View(mode, input, [], [], 0, false, None, [])
      ensures this.crc24 == crc24 && !mismatch
    {
      this.input, this.mode, this.crc24 := input, mode, crc24;
      rest := new byte[BLOCK];
      brest := new byte[3];
      restlen, restpos, brestlen := 0, 0, 0;
      eofb64, readcrc, fed, mismatch := false, None, [], false;
    }

    /** One turn of the reading loop. */
    method Round(buf: array<byte>, at: nat, want: nat, dec: array<byte>, from: nat)
      returns (st: Status, bp: nat, left: nat, dend: nat, eq: nat)
      requires !eofb64 && dec.Length == BLOCK + 4 && from <= 3 && at + want <= buf.Length && dec != buf
      modifies `input, `eofb64, `readcrc, buf, dec
      ensures buf[..at] == old(buf[..at]) && st != NoCrc
      ensures st == Done ==> at <= bp && bp + left == at + want && dend <= BLOCK + 3 && eq <= 2
      ensures st == Done ==> left < 3 || dend < 4
      ensures st == Done ==> LookAhead(from, old(input), want, mode) == Reached(eofb64, dend, left, eq, input, mode)
      ensures st != Done ==> Parse(old(dec[..from]), old(input), mode) == None
      ensures st == Done && !eofb64 ==> |input| < |old(input)| && EndOf(input) == EndOf(old(input))
      ensures st == Done && eofb64 ==> readcrc == CrcOf(old(input), mode)
      ensures st != Done || eofb64 ==> (st == OutsideTable <==> BadEnd(old(input), mode))
      ensures st == Done && !eofb64 ==>
        Parse(old(dec[..from]), old(input), mode) == Prepend(buf[at..bp], Parse(dec[..dend], input, mode))
      ensures st == Done && eofb64 ==>
        Parse(old(dec[..from]), old(input), mode) == Prepend(buf[at..bp], Final(dec[..dend], eq))
    {
      hide Parse, Close, Final, Bytes, Sextets, DecChar, IsBody, CrcOf, CloseCrc, EndOf, HighLast, Ends, BadEnd;
      hide Prepend, LookAhead, Reached, BlockValues, BlockEnds, Kept, Left, Peek;
      st, bp, left, dend, eq := Failed, at, want, from, 0;
      ghost var pre, was := dec[..from], input;
      if input == [] {
        ParseEmpty(pre, mode);
        EmptyEnd(mode);
        return;
      }
      var n, used, scan := |Peek(input, BLOCK)|, 0, More;
      ghost var x;
      used, scan, bp, left, dend, x := ScanBlock(buf, at, want, dec, from);
      ghost var a, t := input[..used], input[used..];
      assert a + t == input;
      EndsIs(t, mode);
      EndOfBody(a, t);
      if scan == Bad {
        ParseStop(pre, a, t, mode);
        BadEndIs(input, t, mode);
        return;
      }
      if scan == More {
        input := input[n..];
        if mode.noheaders && input == [] {
          eofb64 := true;
        } else {
          st := Done;
          RoundMore(pre, a, t, x, dec[..dend], mode);
          LookOn(from, was, want, mode, dend, left);
          return;
        }
      } else {
        input := input[used..];
        eofb64 := true;
      }
      st, eq := EndText(was, a, t);
      RoundEnd(pre, a, t, x, dec[..dend], mode);
      if st == Done {
        LookEnd(from, was, want, mode, dend, left, Close(t, mode).value);
      }
    }

    /** What follows the data `a` of a text is read. */
    method EndText(ghost was: seq<byte>, ghost a: seq<byte>, ghost t: seq<byte>) returns (st: Status, eq: nat)
      requires was == a + t && input == t && AllBody(a) && (t == [] || !IsBody(t[0])) && Ends(t, mode)
      modifies `input, `readcrc
      ensures st == Done <==> Close(t, mode).Some?
      ensures st == Done ==> Close(t, mode) == Some(End(eq, readcrc, input)) && readcrc == CrcOf(was, mode) && eq <= 2
      ensures st != NoCrc && (st == OutsideTable <==> BadEnd(was, mode))
    {
      hide Close, IsBody, CrcOf, CloseCrc, EndOf, HighLast, Ends, BadEnd;
      eq := 0;
      var end, outside := ReadEnd(input, mode);
      EndOfBody(a, t);
      BadEndIs(was, t, mode);
      if end.None? {
        st := if outside then OutsideTable else Failed;
        return;
      }
      CrcOfEnd(a, t, mode);
      CloseCrcIs(t, mode, end.value);
      st, eq, input, readcrc := Done, end.value.eq, end.value.rest, end.value.crc;
    }

    /** The values of one block, and the groups of them that fit the caller's buffer. */
    method ScanBlock(buf: array<byte>, at: nat, want: nat, dec: array<byte>, from: nat)
      returns (used: nat, scan: Scan, bp: nat, left: nat, dend: nat, ghost x: seq<byte>)
      requires dec.Length == BLOCK + 4 && from <= 3 && at + want <= buf.Length && dec != buf
      modifies buf, dec
      ensures used <= |Peek(input, BLOCK)| <= |input| && AllBody(input[..used])
      ensures scan == More <==> used == |Peek(input, BLOCK)|
      ensures scan != More ==> !IsBody(input[used])
      ensures scan == Stop <==> used < |Peek(input, BLOCK)|
                                && (DecChar(input[used]) == EQUALS || (input[used] == DASH && !mode.noheaders))
      ensures buf[..at] == old(buf[..at]) && dend <= BLOCK + 3 && bp + left == at + want && at <= bp
      ensures scan != Bad ==> (left < 3 || dend < 4)
      ensures var n := BlockValues(from, input);
              scan != Bad ==> left == Left(n, want) && dend == Kept(n, want)
      ensures input != [] ==> (BlockEnds(input, mode) <==> scan != More || (used == |input| && mode.noheaders))
      ensures scan != Bad ==> |x| % 4 == 0 && old(dec[..from]) + Sextets(input[..used]) == x + dec[..dend]
      ensures scan != Bad ==> buf[at..bp] == Bytes(x)
    {
      hide Sextets, Bytes, DecChar, IsBody, Quads, Peek, BlockValues, BlockEnds;
      bp, left, x := at, want, [];
      var chunk := Peek(input, BLOCK);
      dend, used, scan := Strip(chunk, dec, from, mode.noheaders);
      assert input[..used] == chunk[..used];
      BlockIs(from, input, used, mode);
      if scan != Bad {
        bp, left, dend, x := Deliver(buf, at, want, dec, dend);
      }
    }

    /** The reading loop: turns until fewer than 3 bytes are wanted or the data has ended. */
    method Pump(buf: array<byte>, at: nat, want: nat, dec: array<byte>, from: nat)
      returns (st: Status, bp: nat, left: nat, dend: nat, eq: nat)
      requires !eofb64 && dec.Length == BLOCK + 4 && from <= 3 && at + want <= buf.Length && dec != buf
      modifies `input, `eofb64, `readcrc, buf, dec
      ensures buf[..at] == old(buf[..at]) && st != NoCrc
      ensures st == Done ==> at <= bp && bp + left == at + want && dend <= BLOCK + 3 && eq <= 2
      ensures st == Done ==> LookAhead(from, old(input), want, mode) == Reached(eofb64, dend, left, eq, input, mode)
      ensures st != Done ==> Parse(old(dec[..from]), old(input), mode) == None
      ensures st == Done && !eofb64 ==> left < 3 && |input| < |old(input)| && EndOf(input) == EndOf(old(input))
      ensures st == Done && eofb64 ==> readcrc == CrcOf(old(input), mode)
      ensures st != Done || eofb64 ==> (st == OutsideTable <==> BadEnd(old(input), mode))
      ensures st == Done && !eofb64 ==>
        Parse(old(dec[..from]), old(input), mode) == Prepend(buf[at..bp], Parse(dec[..dend], input, mode))
      ensures st == Done && eofb64 ==>
        Parse(old(dec[..from]), old(input), mode) == Prepend(buf[at..bp], Final(dec[..dend], eq))
    {
      hide *;
      ghost var goal, look, was := Parse(dec[..from], input, mode), LookAhead(from, input, want, mode), input;
      st, bp, left, dend, eq := Round(buf, at, want, dec, from);
      while st == Done && !eofb64 && left >= 3
        invariant buf[..at] == old(buf[..at]) && st != NoCrc
        invariant st == Done ==> at <= bp && bp + left == at + want && dend <= BLOCK + 3 && eq <= 2
        invariant st == Done ==> left < 3 || dend < 4
        invariant st == Done ==> look == Reached(eofb64, dend, left, eq, input, mode)
        invariant st != Done ==> goal == None
        invariant st == Done && !eofb64 ==> |input| < |was| && EndOf(input) == EndOf(was)
        invariant st == Done && eofb64 ==> readcrc == CrcOf(was, mode)
        invariant st != Done || eofb64 ==> (st == OutsideTable <==> BadEnd(was, mode))
        invariant st == Done && !eofb64 ==> goal == Prepend(buf[at..bp], Parse(dec[..dend], input, mode))
        invariant st == Done && eofb64 ==> goal == Prepend(buf[at..bp], Final(dec[..dend], eq))
        decreases if st == Done && !eofb64 then |input| + 1 else 0
      {
        ghost var soFar := buf[at..bp];
        ghost var from := bp;
        assert buf[..bp] == buf[..at] + soFar;
        ReachedOn(dend, left, eq, input, mode);
        SameEnd(input, was, mode);
        st, bp, left, dend, eq := Round(buf, bp, left, dec, dend);
        assert buf[..at] == buf[..from][..at] && buf[at..from] == soFar;
        if st == Done {
          assert buf[..bp][..from] == buf[..from];
          Parts(buf[..bp], at, from);
          PrependPrepend(soFar, buf[from..bp],
                         if eofb64 then Final(dec[..dend], eq) else Parse(dec[..dend], input, mode));
        } else {
          PrependNone(soFar);
        }
      }
    }

    /** The values left in dec go to rest and brest; with the data ended, the padded bytes too. */
    method Refill(dec: array<byte>, dend: nat, eq: nat) returns (ok: bool)
      requires Valid() && dend <= BLOCK + 3 <= dec.Length && eq <= 2 && dec != rest && dec != brest
      modifies rest, brest, `restlen, `brestlen
      ensures ok ==> Valid()
      ensures !ok ==> eofb64 && Final(dec[..dend], eq) == None
      ensures ok && eofb64 ==> Final(dec[..dend], eq) == Some(rest[..restlen])
      ensures ok ==> restlen == dend / 4 * 3 + if eofb64 then PadSize(eq) else 0
      ensures ok && !eofb64 ==> brestlen == dend % 4
      ensures ok && !eofb64 ==>
        Parse(dec[..dend], input, mode) == Prepend(rest[..restlen], Parse(brest[..brestlen], input, mode))
    {
      hide Parse, Final, Bytes, PaddedBytes, Prepend;
      var quads := dend / 4;
      var x := dec[..dend];
      DecodeQuads(dec, quads, rest, 0);
      ghost var whole := x[..4 * quads];
      ghost var l := x[4 * quads..];
      assert x == whole + l && dec[..4 * quads] == whole;
      if eofb64 {
        FinalSplit(whole, l, eq);
        if (dend - 4 * quads + eq) % 4 != 0 {
          return false;
        }
        var p := PaddedBytes(x[4 * quads..], eq);
        PaddedSize(x[4 * quads..], eq);
        Put(rest, 3 * quads, p);
        restlen := 3 * quads + |p|;
      } else {
        Copy(dec, 4 * quads, dend - 4 * quads, brest, 0);
        brestlen := dend - 4 * quads;
        restlen := 3 * quads;
        assert brest[..brestlen] == l && rest[..restlen] == Bytes(whole);
        ParseQuads(whole, l, input, mode);
      }
      ok := true;
    }

    /** Up to `left` bytes of the refilled rest are handed out at once. restpos grows from whatever
        it was. */
    method Handout(buf: array<byte>, bp: nat, left: nat) returns (n: nat)
      requires Valid() && bp + left <= buf.Length && buf != rest
      modifies buf, `fed, `restpos
      ensures n == bp + Min(left, restlen)
      ensures buf[..n] == old(buf[..bp]) + rest[..n - bp]
      ensures restpos == old(restpos) + (n - bp)
      ensures fed == old(fed) + if mode.noheaders || eofb64 then [] else rest[..n - bp]
    {
      n := bp;
      if left > 0 && restlen > 0 {
        var read := if left > restlen then restlen else left;
        Copy(rest, 0, read, buf, bp);
        assert buf[..bp + read] == buf[..bp] + buf[bp..bp + read];
        if !mode.noheaders && !eofb64 {
          fed := fed + rest[..read];
        }
        n := bp + read;
        restpos := restpos + read;
      }
    }

    method Take(buf: array<byte>, n: nat)
      requires Valid() && restpos + n <= restlen && n <= buf.Length && buf != rest
      modifies buf
      ensures buf[..n] == rest[restpos..restlen][..n]
    {
      Copy(rest, restpos, n, buf, 0);
      forall i | 0 <= i < n ensures buf[i] == rest[restpos + i] {
        assert buf[0..0 + n][i] == rest[restpos..restpos + n][i];
      }
    }

    /** armored_src_read */
    method Read(buf: array<byte>, len: nat) returns (st: Status, n: nat, ghost lost: seq<byte>)
      requires Valid() && len <= buf.Length && buf != rest && buf != brest
      modifies this, rest, brest, buf
      ensures st == Done ==> Valid() && n <= len && Step(old(State()), len, State(), buf[..n], lost)
      ensures st == Failed || st == OutsideTable ==> Outcome(old(State())) == None
      ensures st == NoCrc <==> mode.noheaders && Served(old(State()), len)
      ensures var v := old(State());
              st == OutsideTable || (!v.eof && !Served(v, len) && (st == Failed || (st == Done && eofb64))) ==>
                (st == OutsideTable <==> BadEnd(v.input, mode))
      ensures st == Done && eofb64 && !old(eofb64) && !mode.noheaders ==>
        (mismatch <==> readcrc.Some? && readcrc.value != crc24(fed))
      ensures old(eofb64) ==> mismatch == old(mismatch)
    {
      hide Step, Parse, Final, Prepend, CrcOf, EndOf, LookAhead, HighLast, Outcome;
      ghost var v := State();
      var bp := 0;
      n, lost := 0, [];
      if restpos < restlen {
        var avail := restlen - restpos;
        if avail >= len {
          Take(buf, len);
          assert buf[..len] == v.pending[..len];
          restpos := restpos + len;
          if mode.noheaders {
            return NoCrc, 0, [];
          }
          fed := fed + buf[..len];
          assert State().pending == v.pending[len..];
          StepServed(v, len, State(), buf[..len]);
          return Done, len, [];
        }
        Take(buf, avail);
        assert v.pending[..avail] == v.pending;
        restpos, restlen := 0, 0;
        bp := avail;
      }
      if eofb64 {
        StepDrained(v, len, State(), buf[..bp]);
        return Done, bp, [];
      }
      st, n, lost := ReadMore(buf, bp, len - bp, v);
    }

    /** The part of a read that needs new input. */
    method ReadMore(buf: array<byte>, at: nat, want: nat, ghost v: View)
      returns (st: Status, n: nat, ghost lost: seq<byte>)
      requires Valid() && !eofb64 && at + want <= buf.Length && buf != rest && buf != brest
      requires restpos >= restlen
      requires !v.eof && v.pending == buf[..at] && (at == 0 || at < at + want)
      requires v == State().(pending := v.pending, stale := v.stale) && v.stale == restpos
      modifies this, rest, brest, buf
      ensures st != NoCrc
      ensures st == Done ==> Valid() && n <= at + want && Step(v, at + want, State(), buf[..n], lost)
      ensures st != Done ==> Outcome(v) == None
      ensures st != Done || eofb64 ==> (st == OutsideTable <==> BadEnd(v.input, mode))
      ensures st == Done && eofb64 && !mode.noheaders ==>
        (mismatch <==> readcrc.Some? && readcrc.value != crc24(fed))
    {
      hide Step, Parse, Final, CrcOf, EndOf, LookAhead, BadEnd, Outcome, Prepend, Reached;
      n, lost := 0, [];
      PrependNone([]);
      var dec := new byte[BLOCK + 4];
      Copy(brest, 0, brestlen, dec, 0);
      assert dec[..brestlen] == v.brest;
      var bp, left, dend, eq;
      st, bp, left, dend, eq := Pump(buf, at, want, dec, brestlen);
      if st == Done {
        assert buf[..bp] == v.pending + buf[at..bp];
        var ok;
        ok, n, lost := Settle(buf, bp, left, dec, dend, eq, v, buf[at..bp], at + want);
        st := if ok then Done else Failed;
      } else {
        NoOutcome(v, []);
      }
    }

    /** The end of a read: rest is refilled, the CRC updated and the last bytes handed out. */
    method Settle(buf: array<byte>, bp: nat, left: nat, dec: array<byte>, dend: nat, eq: nat,
                  ghost v: View, ghost mid: seq<byte>, ghost len: nat)
      returns (ok: bool, n: nat, ghost lost: seq<byte>)
      requires Valid() && bp + left == len <= buf.Length && buf != rest && buf != brest
      requires dend <= BLOCK + 3 <= dec.Length && eq <= 2 && dec != rest && dec != brest && dec != buf
      requires !v.eof && v.mode == mode && v.stale == restpos && v.fed == fed
      requires buf[..bp] == v.pending + mid && (v.pending == [] || |v.pending| < len)
      requires !eofb64 ==> left < 3 && |input| < |v.input| && EndOf(input) == EndOf(v.input)
      requires eofb64 ==> readcrc == CrcOf(v.input, mode)
      requires LookAhead(|v.brest|, v.input, len - |v.pending|, mode)
               == Reached(eofb64, dend, left, eq, input, mode)
      requires Parse(v.brest, v.input, mode)
               == Prepend(mid, if eofb64 then Final(dec[..dend], eq) else Parse(dec[..dend], input, mode))
      modifies `restlen, `restpos, `brestlen, `fed, `mismatch, rest, brest, buf
      ensures ok ==> Valid() && n <= len && Step(v, len, State(), buf[..n], lost)
      ensures !ok ==> eofb64 && Outcome(v) == None
      ensures ok && eofb64 && !mode.noheaders ==>
        (mismatch <==> readcrc.Some? && readcrc.value != crc24(fed))
    {
      hide Step, Parse, Final, CrcOf, EndOf, LookAhead, Outcome, Prepend, Reached, Min, PadSize;
      n, lost := 0, [];
      ok := Refill(dec, dend, eq);
      if !ok {
        NoOutcome(v, mid);
        return;
      }
      ReachedIs(eofb64, dend, left, eq, input, mode, restlen);
      n, lost := HandOver(buf, bp, left, v, mid, len);
    }

    /** The CRC is updated and the last bytes are handed out of the refilled rest. */
    method HandOver(buf: array<byte>, bp: nat, left: nat, ghost v: View, ghost mid: seq<byte>, ghost len: nat)
      returns (n: nat, ghost lost: seq<byte>)
      requires Valid() && bp + left == len <= buf.Length && buf != rest && buf != brest
      requires !v.eof && v.mode == mode && v.stale == restpos && v.fed == fed
      requires buf[..bp] == v.pending + mid && (v.pending == [] || |v.pending| < len)
      requires !eofb64 ==> left < 3 && restlen % 3 == 0 && |input| < |v.input| && EndOf(input) == EndOf(v.input)
      requires eofb64 ==> readcrc == CrcOf(v.input, mode)
      requires var a := LookAhead(|v.brest|, v.input, len - |v.pending|, mode);
               && a.over == restlen - Min(left, restlen) && a.eof == eofb64
               && (!eofb64 ==> a.brest == brestlen && a.input == input)
      requires Parse(v.brest, v.input, mode)
               == Prepend(mid, if eofb64 then Some(rest[..restlen])
                               else Prepend(rest[..restlen], Parse(brest[..brestlen], input, mode)))
      modifies `restpos, `fed, `mismatch, buf
      ensures Valid() && n <= len && Step(v, len, State(), buf[..n], lost)
      ensures eofb64 && !mode.noheaders ==> (mismatch <==> readcrc.Some? && readcrc.value != crc24(fed))
    {
      hide Step, Parse, CrcOf, EndOf, LookAhead, Outcome, Prepend, Min;
      ghost var r, d := rest[..restlen], Min(left, restlen);
      n := Emit(buf, bp, left);
      assert n - bp == d && buf[..n] == v.pending + mid + r[..d];
      lost := r[d..][..Min(v.stale, |r| - d)];
      StepMore(v, len, State(), mid, r, d, left, lost);
    }

    /** CRC update of what is delivered (and, at the end, of all that is left), then hand-out. */
    method Emit(buf: array<byte>, bp: nat, left: nat) returns (n: nat)
      requires Valid() && bp + left <= buf.Length && buf != rest && buf != brest
      modifies buf, `fed, `restpos, `mismatch
      ensures Valid() && n == bp + Min(left, restlen)
      ensures buf[..n] == old(buf[..bp]) + rest[..restlen][..n - bp]
      ensures var r, k := rest[..restlen], old(restpos) + (n - bp);
              && State().pending == (if k < |r| then r[k..] else [])
              && State().stale == (if k < |r| then 0 else k)
      ensures !mode.noheaders ==>
        fed == old(fed) + old(buf[..bp]) + if eofb64 then rest[..restlen] else rest[..restlen][..n - bp]
      ensures eofb64 && !mode.noheaders ==> (mismatch <==> readcrc.Some? && readcrc.value != crc24(fed))
    {
      hide Min;
      ghost var r, x := rest[..restlen], fed + buf[..bp];
      UpdateCrc(buf, bp);
      n := Handout(buf, bp, left);
      assert r[..n - bp] == rest[..n - bp];
      assert x + r + [] == x + r && x + [] + r[..n - bp] == x + r[..n - bp];
    }

    /** The CRC gets the delivered bytes; once the data has ended, all that is left too. */
    method UpdateCrc(buf: array<byte>, bp: nat)
      requires Valid() && bp <= buf.Length
      modifies `fed, `mismatch
      ensures !mode.noheaders ==> fed == old(fed) + buf[..bp] + if eofb64 then rest[..restlen] else []
      ensures eofb64 && !mode.noheaders ==> (mismatch <==> readcrc.Some? && readcrc.value != crc24(fed))
      ensures mode.noheaders ==> fed == old(fed)
    {
      if !mode.noheaders {
        fed := fed + buf[..bp];
        if eofb64 {
          fed := fed + rest[..restlen];
          mismatch := readcrc.Some? && readcrc.value != crc24(fed);
        }
      }
    }
  }

  lemma StepServed(v: View, len: nat, w: View, out: seq<byte>)
    requires len <= |v.pending| && 0 < |v.pending| && v.stale == 0 && out == v.pending[..len]
    requires w == v.(pending := v.pending[len..], stale := w.stale, fed := v.fed + out)
    requires w.stale > 0 <==> len == |v.pending|
    ensures Step(v, len, w, out, [])
  {
    hide Parse, CrcOf, EndOf, LookAhead;
    assert out + [] == out && v.pending == out + w.pending;
    if !v.eof {
      PrependPrepend(out, w.pending, Parse(v.brest, v.input, v.mode));
    }
  }

  lemma StepDrained(v: View, len: nat, w: View, out: seq<byte>)
    requires v.eof && out == v.pending && |out| <= len
    requires w == v.(pending := [], stale := w.stale) && (out == [] || |out| < len)
    ensures Step(v, len, w, out, [])
  {
    hide Parse, CrcOf, EndOf, LookAhead;
    assert out + [] == out;
  }

  lemma StepMore(v: View, len: nat, w: View, mid: seq<byte>, r: seq<byte>, d: nat, left: nat, lost: seq<byte>)
    requires !v.eof && w.mode == v.mode && |v.pending| + |mid| + left == len && (v.pending == [] || |v.pending| < len)
    requires d == Min(left, |r|) && lost == r[d..][..Min(v.stale, |r| - d)]
    requires w.pending == if v.stale + d < |r| then r[v.stale + d..] else []
    requires w.stale == if v.stale + d < |r| then 0 else v.stale + d
    requires !w.eof ==> left < 3 && |r| % 3 == 0 && |w.input| < |v.input| && EndOf(w.input) == EndOf(v.input)
    requires w.eof ==> w.crc == CrcOf(v.input, v.mode)
    requires var a := LookAhead(|v.brest|, v.input, len - |v.pending|, v.mode);
             a.over == |r| - d && a.eof == w.eof && (!w.eof ==> a.brest == |w.brest| && a.input == w.input)
    requires Parse(v.brest, v.input, v.mode)
             == Prepend(mid, if w.eof then Some(r) else Prepend(r, Parse(w.brest, w.input, w.mode)))
    requires !v.mode.noheaders ==> w.fed == v.fed + (v.pending + mid) + if w.eof then r else r[..d]
    ensures Step(v, len, w, v.pending + mid + r[..d], lost)
  {
    hide Parse, Prepend, CrcOf, Outcome, EndOf, LookAhead, Min, StepAmounts, StepMoves, StepCrcs;
    SplitRest(r, d, v.stale);
    StepMoreAmounts(v, len, w, mid, r, d, left, lost);
    StepMoreOutcome(v, w, mid, r, d, lost);
    StepMoreMoves(v, len, w);
    StepMoreFed(v, w, mid, r, d, lost);
  }

  lemma StepMoreMoves(v: View, len: nat, w: View)
    requires !v.eof && w.mode == v.mode && (v.pending == [] || |v.pending| < len)
    requires !w.eof ==> |w.input| < |v.input|
    requires |v.pending| <= len
    requires var a := LookAhead(|v.brest|, v.input, len - |v.pending|, v.mode);
             a.eof == w.eof && (!w.eof ==> a.brest == |w.brest| && a.input == w.input)
    ensures StepMoves(v, len, w)
  {
    hide LookAhead;
  }

  lemma StepMoreAmounts(v: View, len: nat, w: View, mid: seq<byte>, r: seq<byte>, d: nat, left: nat, lost: seq<byte>)
    requires !v.eof && |v.pending| + |mid| + left == len && (v.pending == [] || |v.pending| < len)
    requires d == Min(left, |r|) && r == r[..d] + (lost + w.pending) && |lost| == Min(v.stale, |lost| + |w.pending|)
    requires w.stale == if v.stale + d < |r| then 0 else v.stale + d
    requires !w.eof ==> left < 3 && |r| % 3 == 0
    requires LookAhead(|v.brest|, v.input, len - |v.pending|, v.mode).over == |r| - d
    ensures StepAmounts(v, len, w, v.pending + mid + r[..d], lost)
  {
    hide LookAhead;
  }

  /** The refilled rest is what is handed out, what a stale position skips, and what stays pending. */
  lemma SplitRest(r: seq<byte>, d: nat, stale: nat)
    requires d <= |r|
    ensures var lost := r[d..][..Min(stale, |r| - d)];
            var pending := if stale + d < |r| then r[stale + d..] else [];
            r == r[..d] + (lost + pending) && |lost| == Min(stale, |lost| + |pending|)
  {
  }

  lemma StepMoreFed(v: View, w: View, mid: seq<byte>, r: seq<byte>, d: nat, lost: seq<byte>)
    requires d <= |r| && r == r[..d] + (lost + w.pending)
    requires !w.eof ==> EndOf(w.input) == EndOf(v.input)
    requires w.eof ==> w.crc == CrcOf(v.input, v.mode)
    requires !v.mode.noheaders ==> w.fed == v.fed + (v.pending + mid) + if w.eof then r else r[..d]
    ensures StepCrcs(v, w, v.pending + mid + r[..d], lost)
  {
    hide EndOf, CrcOf;
    var p, q, l := v.fed, v.pending + mid, lost + w.pending;
    assert p + q + (r[..d] + l) == p + (q + r[..d]) + l;
    assert p + q + r[..d] == p + (q + r[..d]) + [];
  }

  lemma StepMoreOutcome(v: View, w: View, mid: seq<byte>, r: seq<byte>, d: nat, lost: seq<byte>)
    requires !v.eof && w.mode == v.mode && d <= |r| && r == r[..d] + (lost + w.pending)
    requires Parse(v.brest, v.input, v.mode)
             == Prepend(mid, if w.eof then Some(r) else Prepend(r, Parse(w.brest, w.input, w.mode)))
    ensures Outcome(v) == Prepend(v.pending + mid + r[..d] + lost, Outcome(w))
  {
    hide Parse;
    var head := v.pending + mid + r[..d] + lost;
    assert v.pending + (mid + r) == head + w.pending;
    if !w.eof {
      var o := Parse(w.brest, w.input, w.mode);
      PrependPrepend(mid, r, o);
      PrependPrepend(v.pending, mid + r, o);
      PrependPrepend(head, w.pending, o);
    }
  }

  lemma PrependNone(p: seq<byte>)
    ensures Prepend(p, None) == None
  {
  }

  lemma FinalShort(l: seq<byte>, eq: nat)
    requires |l| < 4 && eq <= 2
    ensures Final(l, eq) == if (|l| + eq) % 4 != 0 then None else Some(PaddedBytes(l, eq))
  {
    hide PaddedBytes, Decode4, Leftover;
    LeftoverShort(l);
    assert Bytes(l) == [];
    if (|l| + eq) % 4 == 0 {
      assert [] + PaddedBytes(l, eq) == PaddedBytes(l, eq);
    }
  }

  lemma LeftoverShort(l: seq<byte>)
    requires |l| < 4
    ensures Leftover(l) == l
  {
  }

  lemma FinalSplit(whole: seq<byte>, l: seq<byte>, eq: nat)
    requires |whole| % 4 == 0 && |l| < 4 && eq <= 2
    ensures Final(whole + l, eq) ==
            if (|l| + eq) % 4 != 0 then None else Some(Bytes(whole) + PaddedBytes(l, eq))
  {
    hide PaddedBytes, Bytes, Final;
    FinalQuads(whole, l, eq);
    FinalShort(l, eq);
  }

  lemma PaddedSize(l: seq<byte>, eq: nat)
    requires |l| < 4 && eq <= 2 && (|l| + eq) % 4 == 0
    ensures |PaddedBytes(l, eq)| == PadSize(eq)
  {
  }

  lemma CrcOfBody(a: seq<byte>, t: seq<byte>, m: Mode)
    requires AllBody(a)
    ensures CrcOf(a + t, m) == CrcOf(t, m)
  {
    hide Close, BodyLen;
    BodyLenAppend(a, t);
    assert (a + t)[|a| + BodyLen(t)..] == t[BodyLen(t)..];
  }

  lemma CrcOfEnd(a: seq<byte>, t: seq<byte>, m: Mode)
    requires AllBody(a) && (t == [] || !IsBody(t[0]))
    ensures CrcOf(a + t, m) == CloseCrc(t, m)
  {
    hide Close;
    CrcOfBody(a, t, m);
    assert t[BodyLen(t)..] == t;
  }

  lemma Parts(s: seq<byte>, a: nat, b: nat)
    requires a <= b <= |s|
    ensures s[a..] == s[..b][a..] + s[b..]
  {
  }

  lemma SameEnd(s: seq<byte>, t: seq<byte>, m: Mode)
    requires EndOf(s) == EndOf(t)
    ensures BadEnd(s, m) <==> BadEnd(t, m)
    ensures CrcOf(s, m) == CrcOf(t, m)
  {
    hide EndOf, Ends, HighLast, CloseCrc;
  }

  lemma NoOutcome(v: View, mid: seq<byte>)
    requires !v.eof && Parse(v.brest, v.input, v.mode) == Prepend(mid, None)
    ensures Outcome(v) == None
  {
    hide Parse;
  }

  lemma ReachedIs(eof: bool, dend: nat, left: nat, eq: nat, input: seq<byte>, m: Mode, restlen: nat)
    requires restlen == (dend / 4 * 3 + if eof then PadSize(eq) else 0) && (!eof ==> left < 3)
    ensures var d, a := Min(left, restlen), Reached(eof, dend, left, eq, input, m);
            && d <= restlen && d <= left && a.over == restlen - d && a.eof == eof
            && (!eof ==> restlen % 3 == 0 && a.brest == dend % 4 && a.input == input)
  {
    hide LookAhead;
  }

  lemma ReachedOn(dend: nat, left: nat, eq: nat, input: seq<byte>, m: Mode)
    requires left >= 3
    ensures Reached(false, dend, left, eq, input, m) == LookAhead(dend, input, left, m)
  {
    hide LookAhead;
  }

  lemma CloseCrcIs(t: seq<byte>, m: Mode, end: End)
    requires Close(t, m) == Some(end)
    ensures CloseCrc(t, m) == end.crc
  {
    hide Close;
  }

  lemma EndsIs(t: seq<byte>, m: Mode)
    ensures t == [] ==> (Ends(t, m) <==> m.noheaders)
    ensures t != [] ==> (Ends(t, m) <==> DecChar(t[0]) == EQUALS || (t[0] == DASH && !m.noheaders))
  {
  }

  lemma BadEndIs(s: seq<byte>, t: seq<byte>, m: Mode)
    requires EndOf(s) == t
    ensures BadEnd(s, m) <==> m.noheaders && Ends(t, m) && HighLast(t)
  {
  }

  lemma EmptyEnd(m: Mode)
    ensures !BadEnd([], m)
  {
  }

  /** A block of which `used` characters are data. */
  lemma BlockIs(n: nat, input: seq<byte>, used: nat, m: Mode)
    requires used <= |Peek(input, BLOCK)| && AllBody(input[..used])
    requires used < |Peek(input, BLOCK)| ==> !IsBody(input[used])
    ensures BlockValues(n, input) == n + |Sextets(input[..used])|
    ensures BlockEnds(input, m) <==> used < |Peek(input, BLOCK)| || (|Peek(input, BLOCK)| == |input| && m.noheaders)
  {
    hide BodyLen, IsBody, Sextets;
    var chunk := Peek(input, BLOCK);
    var a, t := chunk[..used], chunk[used..];
    assert a == input[..used] && chunk == a + t;
    BodyLenAppend(a, t);
    StopsAt(t);
  }

  lemma StopsAt(t: seq<byte>)
    ensures t == [] || !IsBody(t[0]) ==> BodyLen(t) == 0
  {
  }

  /** One turn over a block, after which `dend` values are kept and `left` bytes still wanted. */
  lemma LookOn(n: nat, input: seq<byte>, want: nat, m: Mode, dend: nat, left: nat)
    requires input != [] && !BlockEnds(input, m)
    requires dend == Kept(BlockValues(n, input), want) && left == Left(BlockValues(n, input), want)
    ensures LookAhead(n, input, want, m) == Reached(false, dend, left, 0, input[|Peek(input, BLOCK)|..], m)
  {
    hide BlockValues, BlockEnds, Kept, Left;
  }

  lemma LookEnd(n: nat, input: seq<byte>, want: nat, m: Mode, dend: nat, left: nat, end: End)
    requires input != [] && BlockEnds(input, m) && Close(EndOf(input), m) == Some(end)
    requires dend == Kept(BlockValues(n, input), want) && left == Left(BlockValues(n, input), want)
    ensures LookAhead(n, input, want, m) == Reached(true, dend, left, end.eq, end.rest, m)
  {
    hide BlockValues, BlockEnds, Kept, Left, Close, EndOf;
  }

  lemma ParseEmpty(pre: seq<byte>, m: Mode)
    ensures Parse(pre, [], m) == None
  {
  }

  lemma RoundMore(pre: seq<byte>, a: seq<byte>, t: seq<byte>, x: seq<byte>, y: seq<byte>, m: Mode)
    requires AllBody(a) && a != [] && pre + Sextets(a) == x + y && |x| % 4 == 0
    requires t != [] || !m.noheaders
    ensures Parse(pre, a + t, m) == Prepend(Bytes(x), Parse(y, t, m))
  {
    hide Parse, Closed, Bytes, Sextets, BodyLen;
    if t != [] {
      ParseBody(pre, a, t, m);
      ParseQuads(x, y, t, m);
    } else {
      ParseStop(pre, a, t, m);
      ParseEmpty(y, m);
    }
  }

  lemma RoundEnd(pre: seq<byte>, a: seq<byte>, t: seq<byte>, x: seq<byte>, y: seq<byte>, m: Mode)
    requires AllBody(a) && a + t != [] && pre + Sextets(a) == x + y && |x| % 4 == 0
    requires Ends(t, m) && (t == [] || !IsBody(t[0]))
    ensures var c := Close(t, m);
            Parse(pre, a + t, m) == if c.Some? then Prepend(Bytes(x), Final(y, c.value.eq)) else None
  {
    hide Parse, Close, Final, Bytes, Sextets, Ends, IsBody;
    ParseStop(pre, a, t, m);
    var c := Close(t, m);
    if c.Some? {
      FinalQuads(x, y, c.value.eq);
    }
  }
}
