/** What armored text means, defined on the whole text at once: the longest run of base64
    characters and white space, then the padding, the optional CRC line and the closing line. */
module ArmorReference {
  import opened Options
  import opened Base64

  /** `noheaders`: bare base64. `footer`: the closing line that matches the armor header. */
  datatype Mode = Mode(noheaders: bool, footer: seq<byte>)

  /** How the text ended: number of '=' characters, CRC if one was read, unread input. */
  datatype End = End(eq: nat, crc: Option<Crc>, rest: seq<byte>)

  function Prepend(p: seq<byte>, o: Option<seq<byte>>): (r: Option<seq<byte>>) {
    if o.Some? then Some(p + o.value) else None
  }

  lemma PrependPrepend(p: seq<byte>, q: seq<byte>, o: Option<seq<byte>>)
    ensures Prepend(p, Prepend(q, o)) == Prepend(p + q, o)
  {
    if o.Some? {
      assert p + (q + o.value) == p + q + o.value;
    }
  }

  // ----- Primitives of the underlying source -----

  function Peek(s: seq<byte>, n: nat): (r: seq<byte>)
    ensures |r| <= n && r <= s && (r == [] ==> n == 0 || s == [])
  {
    if n < |s| then s[..n] else s
  }

  /** Position of the first line feed, or the length. */
  function LfIndex(s: seq<byte>): (n: nat)
    ensures n <= |s| && LF !in s[..n] && (n < |s| ==> s[n] == LF)
  {
    if s == [] || s[0] == LF then 0
    else
      var m := LfIndex(s[1..]);
      assert s[..1 + m] == [s[0]] + s[1..][..m];
      1 + m
  }

  /** peek_line into a buffer of `cap` bytes: the first line without its end, if it fits. */
  function PeekLine(s: seq<byte>, cap: nat): (r: Option<seq<byte>>)
    requires 0 < cap
    ensures r.Some? ==> r.value <= s && |r.value| < cap
  {
    var w := Peek(s, cap - 1);
    var i := LfIndex(w);
    if i == |w| then None
    else if i > 0 && w[i - 1] == CR then Some(w[..i - 1])
    else Some(w[..i])
  }

  function SkipEol(s: seq<byte>): (r: Option<seq<byte>>) {
    if s != [] && s[0] == LF then Some(s[1..])
    else if |s| >= 2 && s[0] == CR && s[1] == LF then Some(s[2..])
    else None
  }

  /** armor_skip_chars */
  function SkipChars(s: seq<byte>, chars: set<byte>): (r: seq<byte>)
    ensures r == [] || r[0] !in chars
    ensures |r| <= |s| && r == s[|s| - |r|..]
    ensures forall i :: 0 <= i < |s| - |r| ==> s[i] in chars
  {
    if s != [] && s[0] in chars then SkipChars(s[1..], chars) else s
  }

  // ----- The end of the text -----

  const DASHES: seq<byte> := [DASH, DASH, DASH, DASH, DASH]

  /** armor_read_padding: a line of one or two '='; or none, when the CRC line or the closing
      line comes first. */
  function ReadPadding(s: seq<byte>): (r: Option<(nat, seq<byte>)>)
    ensures r.Some? ==> r.value.0 <= 2
  {
    match PeekLine(s, 64)
    case None => None
    case Some(st) =>
      if |st| == 1 || |st| == 2 then
        if st[0] != EQ || (|st| == 2 && st[1] != EQ) then None
        else
          match SkipEol(s[|st|..])
          case None => None
          case Some(rest) => Some((|st|, rest))
      else if |st| == 5 || (|st| > 5 && st[..5] == DASHES) then Some((0, s))
      else None
  }

  /** Bytes of the CRC line as armor_read_crc puts them together. */
  function CrcBytes(d: seq<byte>): Crc
    requires |d| == 4
  {
    ((d[0] << 2) | ((d[1] >> 4) & 0x0f), (d[1] << 4) | ((d[2] >> 2) & 0x0f), (d[2] << 6) | d[3])
  }

  /** armor_read_crc: "=" and four base64 characters on a line of their own. */
  function ReadCrc(s: seq<byte>): (r: Option<(Crc, seq<byte>)>) {
    match PeekLine(s, 8)
    case None => None
    case Some(st) =>
      if |st| != 5 || st[0] != EQ then None
      else
        var d := [DecChar(st[1]), DecChar(st[2]), DecChar(st[3]), DecChar(st[4])];
        if d[0] >= 64 || d[1] >= 64 || d[2] >= 64 || d[3] >= 64 then None
        else
          match SkipEol(s[5..])
          case None => None
          case Some(rest) => Some((CrcBytes(d), rest))
  }

  /** armor_read_trailer; what follows the closing line is dropped up to the end of its line. */
  function ReadTrailer(s: seq<byte>, footer: seq<byte>): (r: Option<seq<byte>>) {
    var t := SkipChars(s, {CR, LF, BLANK, TAB});
    if footer <= t then
      var u := SkipChars(t[|footer|..], {TAB, BLANK});
      match SkipEol(u)
      case None => Some(u)
      case Some(rest) => Some(rest)
    else None
  }

  predicate AllIn(s: seq<byte>, chars: set<byte>) {
    forall i :: 0 <= i < |s| ==> s[i] in chars
  }

  lemma {:induction false} SkipRun(s: seq<byte>, t: seq<byte>, chars: set<byte>)
    requires AllIn(s, chars) && (t == [] || t[0] !in chars)
    ensures SkipChars(s + t, chars) == t
  {
    if s == [] {
      assert s + t == t;
    } else {
      assert (s + t)[1..] == s[1..] + t && (s + t)[0] == s[0];
      SkipRun(s[1..], t, chars);
    }
  }

  lemma SkipParts(s: seq<byte>, chars: set<byte>) returns (lead: seq<byte>)
    ensures s == lead + SkipChars(s, chars) && AllIn(lead, chars)
  {
    lead := s[..|s| - |SkipChars(s, chars)|];
  }

  /** The closing line is read exactly if white space, then the line itself, then blanks come first: what
      is left is behind them and behind one line end, if there is one. */
  lemma TrailerReads(lead: seq<byte>, footer: seq<byte>, blanks: seq<byte>, rest: seq<byte>)
    requires AllIn(lead, {CR, LF, BLANK, TAB}) && AllIn(blanks, {TAB, BLANK})
    requires footer != [] && footer[0] !in {CR, LF, BLANK, TAB} && (rest == [] || rest[0] !in {TAB, BLANK})
    ensures ReadTrailer(lead + (footer + (blanks + rest)), footer)
            == Some(if SkipEol(rest).Some? then SkipEol(rest).value else rest)
  {
    hide SkipChars, SkipEol;
    var t := footer + (blanks + rest);
    SkipRun(lead, t, {CR, LF, BLANK, TAB});
    assert t[|footer|..] == blanks + rest;
    SkipRun(blanks, rest, {TAB, BLANK});
  }

  lemma TrailerParts(s: seq<byte>, footer: seq<byte>) returns (lead: seq<byte>, blanks: seq<byte>, rest: seq<byte>)
    requires ReadTrailer(s, footer).Some?
    ensures s == lead + (footer + (blanks + rest))
    ensures AllIn(lead, {CR, LF, BLANK, TAB}) && AllIn(blanks, {TAB, BLANK}) && (rest == [] || rest[0] !in {TAB, BLANK})
    ensures ReadTrailer(s, footer) == Some(if SkipEol(rest).Some? then SkipEol(rest).value else rest)
  {
    hide SkipChars, SkipEol, AllIn;
    lead := SkipParts(s, {CR, LF, BLANK, TAB});
    var t := SkipChars(s, {CR, LF, BLANK, TAB});
    var u := t[|footer|..];
    blanks := SkipParts(u, {TAB, BLANK});
    rest := SkipChars(u, {TAB, BLANK});
    assert t == footer + u;
  }

  /** Length of `s` without trailing white space. */
  function Stripped(s: seq<byte>): (n: nat)
    ensures n <= |s| && (n > 0 ==> DecChar(s[n - 1]) != SPACE)
    ensures forall i :: n <= i < |s| ==> DecChar(s[i]) == SPACE
  {
    if s != [] && DecChar(s[|s| - 1]) == SPACE then Stripped(s[..|s| - 1]) else |s|
  }

  /** base64_read_padding: up to 16 bytes, at most two '=' and then white space. */
  function ReadBase64Padding(s: seq<byte>): (r: Option<nat>)
    ensures r.Some? ==> r.value <= 2
  {
    var pad := Peek(s, 16);
    var n := Stripped(pad);
    if n <= 2 && forall i :: 0 <= i < n ==> pad[i] == EQ then Some(n) else None
  }

  /** Everything after the base64 data. */
  function Close(t: seq<byte>, m: Mode): (r: Option<End>)
    ensures r.Some? ==> r.value.eq <= 2
  {
    if m.noheaders then
      match ReadBase64Padding(t)
      case None => None
      case Some(eq) => Some(End(eq, None, t[|Peek(t, 16)|..]))
    else
      match ReadPadding(t)
      case None => None
      case Some((eq, t1)) =>
        var crc := ReadCrc(t1);
        var t2 := if crc.Some? then crc.value.1 else t1;
        match ReadTrailer(t2, m.footer)
        case None => None
        case Some(rest) => Some(End(eq, if crc.Some? then Some(crc.value.0) else None, rest))
  }

  // ----- The whole text -----

  /** Does `t`, which starts with no body character, end the base64 data? */
  predicate Ends(t: seq<byte>, m: Mode) {
    if t == [] then m.noheaders
    else DecChar(t[0]) == EQUALS || (t[0] == DASH && !m.noheaders)
  }

  /** The values that do not fill a group of four. */
  function Leftover(x: seq<byte>): (r: seq<byte>)
    ensures |r| == |x| % 4
  {
    x[|x| / 4 * 4..]
  }

  lemma LeftoverAppend(x: seq<byte>, y: seq<byte>)
    requires |x| % 4 == 0
    ensures Leftover(x + y) == Leftover(y)
  {
    var k := |x| / 4;
    assert |x| == 4 * k;
    assert |x + y| / 4 * 4 == |x| + |y| / 4 * 4;
  }

  /** Decoding of all 6-bit values `x` with `eq` padding characters. */
  function Final(x: seq<byte>, eq: nat): (r: Option<seq<byte>>)
    requires eq <= 2
  {
    var l := Leftover(x);
    if (|l| + eq) % 4 != 0 then None else Some(Bytes(x) + PaddedBytes(l, eq))
  }

  function Closed(x: seq<byte>, t: seq<byte>, m: Mode): (r: Option<seq<byte>>) {
    match Close(t, m)
    case None => None
    case Some(e) => Final(x, e.eq)
  }

  /** The bytes that text `s` stands for, when 6-bit values `pre` are already pending. */
  function Parse(pre: seq<byte>, s: seq<byte>, m: Mode): (r: Option<seq<byte>>) {
    var n := BodyLen(s);
    if s != [] && Ends(s[n..], m) then Closed(pre + Sextets(s[..n]), s[n..], m) else None
  }

  /** Text from the first character that is no data. */
  function EndOf(s: seq<byte>): (t: seq<byte>) {
    s[BodyLen(s)..]
  }

  lemma EndOfBody(a: seq<byte>, t: seq<byte>)
    requires AllBody(a)
    ensures EndOf(a + t) == EndOf(t)
    ensures t == [] || !IsBody(t[0]) ==> EndOf(t) == t && BodyLen(a + t) == |a|
  {
    hide BodyLen, IsBody;
    BodyLenAppend(a, t);
  }

  /** The CRC line of text `s`, if there is a well-formed one. */
  function CrcOf(s: seq<byte>, m: Mode): (r: Option<Crc>) {
    CloseCrc(EndOf(s), m)
  }

  function CloseCrc(t: seq<byte>, m: Mode): (r: Option<Crc>) {
    var c := Close(t, m);
    if c.Some? then c.value.crc else None
  }

  /** Body characters read ahead of `s` only extend the pending values. */
  lemma {:induction false} ParseBody(pre: seq<byte>, a: seq<byte>, s: seq<byte>, m: Mode)
    requires AllBody(a) && s != []
    ensures Parse(pre, a + s, m) == Parse(pre + Sextets(a), s, m)
  {
    hide Closed, Sextets, Ends, BodyLen;
    BodyLenAppend(a, s);
    var n := BodyLen(s);
    assert (a + s)[..|a| + n] == a + s[..n];
    assert (a + s)[|a| + n..] == s[n..];
    SextetsAppend(a, s[..n]);
    assert pre + (Sextets(a) + Sextets(s[..n])) == pre + Sextets(a) + Sextets(s[..n]);
  }

  /** Body characters up to a character that ends the data, or up to a wrong one. */
  lemma {:induction false} ParseStop(pre: seq<byte>, a: seq<byte>, t: seq<byte>, m: Mode)
    requires AllBody(a) && a + t != [] && (t == [] || !IsBody(t[0]))
    ensures Parse(pre, a + t, m) == if Ends(t, m) then Closed(pre + Sextets(a), t, m) else None
  {
    hide Closed, Sextets, Ends;
    BodyLenAppend(a, t);
    assert (a + t)[..|a|] == a && (a + t)[|a|..] == t;
  }

  lemma {:induction false} FinalQuads(x: seq<byte>, y: seq<byte>, eq: nat)
    requires |x| % 4 == 0 && eq <= 2
    ensures Final(x + y, eq) == Prepend(Bytes(x), Final(y, eq))
  {
    hide Bytes, PaddedBytes, Leftover;
    BytesAppend(x, y);
    LeftoverAppend(x, y);
    var l := Leftover(y);
    if (|l| + eq) % 4 == 0 {
      assert Bytes(x) + Bytes(y) + PaddedBytes(l, eq) == Bytes(x) + (Bytes(y) + PaddedBytes(l, eq));
    }
  }

  /** Whole groups of pending values can be delivered at once. */
  lemma {:induction false} ParseQuads(x: seq<byte>, y: seq<byte>, s: seq<byte>, m: Mode)
    requires |x| % 4 == 0
    ensures Parse(x + y, s, m) == Prepend(Bytes(x), Parse(y, s, m))
  {
    hide Bytes, Final, Sextets, Ends, Close;
    var n := BodyLen(s);
    var z := Sextets(s[..n]);
    assert x + y + z == x + (y + z);
    var c := Close(s[n..], m);
    if c.Some? {
      FinalQuads(x, y + z, c.value.eq);
    }
  }
}
