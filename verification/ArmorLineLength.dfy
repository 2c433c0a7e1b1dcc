/** When the armor writer stays inside its buffer. Every line length it accepts keeps the data; but only
    from a column inside a line whose length is a multiple of 4 does every sequence of writes fit. */
module ArmorLineLength {
  import opened Base64
  import opened Sequences
  import opened ArmorText
  import opened ArmorEncoder

  // ----- Sequences of writes -----

  function After(p: Pen, writes: seq<seq<byte>>, llen: nat, eol: seq<byte>): (q: Pen)
    requires Ready(p, llen)
    ensures Ready(q, llen)
  {
    if writes == [] then p
    else
      var n := |writes| - 1;
      Next(After(p, writes[..n], llen, eol), writes[n], llen, eol)
  }

  /** Does every turn of the line loop stay inside encbuf? */
  predicate AllFit(p: Pen, writes: seq<seq<byte>>, llen: nat, eol: seq<byte>)
    requires Ready(p, llen)
  {
    writes == [] ||
    var n := |writes| - 1;
    AllFit(p, writes[..n], llen, eol) && Fits(After(p, writes[..n], llen, eol), writes[n], llen, eol)
  }

  lemma AfterNext(p: Pen, writes: seq<seq<byte>>, i: nat, llen: nat, eol: seq<byte>)
    requires Ready(p, llen) && i < |writes|
    ensures After(p, writes[..i + 1], llen, eol) == Next(After(p, writes[..i], llen, eol), writes[i], llen, eol)
    ensures AllFit(p, writes[..i + 1], llen, eol) <==>
            AllFit(p, writes[..i], llen, eol) && Fits(After(p, writes[..i], llen, eol), writes[i], llen, eol)
  {
    hide Next, Fits;
    assert writes[..i + 1][..i] == writes[..i];
  }

  lemma {:induction false} FitPrefix(p: Pen, writes: seq<seq<byte>>, i: nat, llen: nat, eol: seq<byte>)
    requires Ready(p, llen) && i <= |writes| && AllFit(p, writes, llen, eol)
    ensures AllFit(p, writes[..i], llen, eol)
    decreases |writes|
  {
    hide Next, Fits;
    if i == |writes| {
      assert writes[..i] == writes;
    } else {
      var n := |writes| - 1;
      FitPrefix(p, writes[..n], i, llen, eol);
      assert writes[..n][..i] == writes[..i];
    }
  }

  /** A writer driven by any sequence of writes, at any accepted line length. */
  method WriteAll(dst: ArmoredDest, writes: seq<seq<byte>>) returns (ok: bool)
    requires dst.Sound()
    modifies dst
    ensures dst.llen == old(dst.llen)
    ensures ok <==> AllFit(old(dst.State()), writes, dst.llen, dst.eol)
    ensures ok ==> dst.Sound() && dst.input == old(dst.input) + Flatten(writes)
    ensures ok ==> dst.State() == After(old(dst.State()), writes, dst.llen, dst.eol)
    ensures old(dst.Valid()) && dst.llen % 4 == 0 ==> ok && dst.Valid()
  {
    hide Next, Fits, After, AllFit, PenOf, Flatten, Encode, Chars, Ready;
    ghost var p, llen, eol, was := dst.State(), dst.llen, dst.eol, dst.input;
    Nothing(p, writes, llen, eol);
    FlattenNone(writes);
    assert was + [] == was;
    for i := 0 to |writes|
      invariant dst.Sound() && dst.llen == llen && dst.input == was + Flatten(writes[..i])
      invariant AllFit(p, writes[..i], llen, eol) && dst.State() == After(p, writes[..i], llen, eol)
      invariant old(dst.Valid()) && llen % 4 == 0 ==> dst.Valid()
    {
      AfterNext(p, writes, i, llen, eol);
      FlattenNext(writes, i);
      assert was + Flatten(writes[..i]) + writes[i] == was + (Flatten(writes[..i]) + writes[i]);
      ok := dst.Write(writes[i]);
      if !ok {
        if AllFit(p, writes, llen, eol) {
          FitPrefix(p, writes, i + 1, llen, eol);
        }
        return;
      }
    }
    assert writes[..|writes|] == writes;
    ok := true;
  }

  lemma Nothing(p: Pen, writes: seq<seq<byte>>, llen: nat, eol: seq<byte>)
    requires Ready(p, llen)
    ensures After(p, writes[..0], llen, eol) == p && AllFit(p, writes[..0], llen, eol)
  {
  }

  // ----- When one write stays inside the buffer -----

  /** Exactly when the line loop stays inside encbuf: too little input for a turn, a column inside the
      rounded line, or a first turn that happens to fit. */
  lemma LoopFits(len: nat, lout: nat, llen: nat, e: nat, enc: nat)
    requires 4 <= llen <= BASE64_LINE && lout < U32 && e <= 2 && enc <= 6
    ensures LinesFit(len, lout, llen, e, enc) <==>
            len < 3 || lout <= Rounded(llen) || TurnEnd(llen, lout, len, e, enc) <= ENCBUF
  {
    hide LinesFit, TurnEnd;
    if len < 3 {
      LinesFitNone(len, lout, llen, e, enc);
    } else if lout <= Rounded(llen) {
      LinesStay(len, lout, llen, e, enc);
    } else {
      FitsNext(len, lout, llen, e, enc);
      var end := TurnEnd(llen, lout, len, e, enc);
      if end <= ENCBUF {
        var rest := len - TurnSize(llen, lout, len);
        if rest < 3 {
          LinesFitNone(rest, TurnColumn(llen, lout, len), llen, e, end);
        } else {
          LinesStay(rest, TurnColumn(llen, lout, len), llen, e, end);
        }
      }
    }
  }

  /** The same for a whole write, from the state before it. */
  lemma WriteFits(p: Pen, buf: seq<byte>, llen: nat, eol: seq<byte>)
    requires Ready(p, llen) && |eol| <= 2
    ensures Fits(p, buf, llen, eol) <==>
            || |buf| + |p.tail| < 3
            || var a, len := First(p, buf, llen, eol), |buf| - FirstSize(p);
               len < 3 || a.lout <= Rounded(llen) || TurnEnd(llen, a.lout, len, |eol|, |a.text|) <= ENCBUF
  {
    hide LinesFit, Encode3, TurnEnd;
    if |buf| + |p.tail| >= 3 {
      var a := First(p, buf, llen, eol);
      LoopFits(|buf| - FirstSize(p), a.lout, llen, |eol|, |a.text|);
    }
  }

  /** Past the end of the line one turn takes all the input: it fits exactly if its characters do. */
  lemma PastTheLine(p: Pen, buf: seq<byte>, llen: nat, eol: seq<byte>)
    requires Ready(p, llen) && |eol| <= 2 && p.tail == [] && p.lout % 4 == 0
    requires Rounded(llen) < p.lout && p.lout + |buf| / 3 * 4 < U32
    ensures Fits(p, buf, llen, eol) <==> |buf| / 3 * 4 <= ENCBUF
  {
    hide Fits;
    WriteFits(p, buf, llen, eol);
    if |buf| >= 3 {
      assert First(p, buf, llen, eol) == Added([], p.lout);
      WrapsAround(llen, p.lout, |buf|);
    }
  }

  lemma WrapsAround(llen: nat, lout: nat, room: nat)
    requires 4 <= llen <= BASE64_LINE && lout % 4 == 0 && Rounded(llen) < lout && lout + room / 3 * 4 < U32
    ensures Want(llen, lout) > room
    ensures TurnSize(llen, lout, room) == room / 3 * 3 && TurnColumn(llen, lout, room) == lout + room / 3 * 4
  {
    var r, g := Rounded(llen), room / 3;
    assert (r - lout) % U32 == U32 + r - lout;
    var k := (U32 + r - lout) / 4;
    assert 4 * k == U32 + r - lout;
    assert 4 * g < 4 * k;
  }

  // ----- Bytes written one by one -----

  function Bytewise(data: seq<byte>): (r: seq<seq<byte>>)
    ensures |r| == |data| && forall i :: 0 <= i < |data| ==> r[i] == [data[i]]
  {
    seq(|data|, i requires 0 <= i < |data| => [data[i]])
  }

  /** The writer after `data` with no line ended: the column counts the characters, in 32 bits. */
  function Grown(p: Pen, data: seq<byte>): (q: Pen) {
    var s := p.tail + data;
    Pen((p.lout + |s| / 3 * 4) % U32, TailOf(s), p.out + Encode(s))
  }

  /** At a length that is not a multiple of 4 the column never meets the line length: no line ends. */
  lemma {:induction false} BytewiseAfter(p: Pen, data: seq<byte>, llen: nat, eol: seq<byte>)
    requires Ready(p, llen) && p.lout % 4 == 0 && llen % 4 != 0
    ensures AllFit(p, Bytewise(data), llen, eol) && After(p, Bytewise(data), llen, eol) == Grown(p, data)
    decreases |data|
  {
    hide Next, Fits, Grown;
    var ws := Bytewise(data);
    if data == [] {
      GrownNone(p);
    } else {
      var n := |data| - 1;
      var d := data[..n];
      BytewiseAfter(p, d, llen, eol);
      assert ws[..n] == Bytewise(d);
      ByteAfter(p, d, data[n], llen, eol);
      assert d + [data[n]] == data;
    }
  }

  lemma GrownNone(p: Pen)
    requires p.lout < U32 && |p.tail| <= 2
    ensures Grown(p, []) == p
  {
    hide Encode, TailOf;
    assert p.tail + [] == p.tail;
    ShortEncode(p.tail);
    ShortTail(p.tail);
    assert p.out + [] == p.out;
  }

  lemma {:induction false} ByteAfter(p: Pen, d: seq<byte>, b: byte, llen: nat, eol: seq<byte>)
    requires Ready(p, llen) && p.lout % 4 == 0 && llen % 4 != 0
    ensures var q := Grown(p, d);
            Ready(q, llen) && Fits(q, [b], llen, eol) && Next(q, [b], llen, eol) == Grown(p, d + [b])
  {
    hide Encode, Encode3, TailOf, Next, Fits;
    var q, s := Grown(p, d), p.tail + d;
    assert p.tail + (d + [b]) == s + [b];
    if |TailOf(s)| < 2 {
      TailGrows(s, [b]);
      assert |s + [b]| / 3 == |s| / 3;
      ByteKept(q, b, llen, eol);
    } else {
      WrappedMultiple(p.lout, |s| / 3);
      ByteCloses(q, b, llen, eol);
      GroupCloses(s, b);
      assert |s + [b]| / 3 == |s| / 3 + 1;
      WrapsOnce(p.lout, |s| / 3);
      assert p.out + Encode(s) + Encode(TailOf(s) + [b]) == p.out + (Encode(s) + Encode(TailOf(s) + [b]));
    }
  }

  lemma WrapsOnce(lout: nat, g: nat)
    ensures ((lout + g * 4) % U32 + 4) % U32 == (lout + (g + 1) * 4) % U32
  {
  }

  lemma ByteKept(p: Pen, b: byte, llen: nat, eol: seq<byte>)
    requires Ready(p, llen) && |p.tail| < 2
    ensures Fits(p, [b], llen, eol) && Next(p, [b], llen, eol) == p.(tail := p.tail + [b])
  {
  }

  /** A byte that completes a group: one quantum more, and no line end. */
  lemma ByteCloses(p: Pen, b: byte, llen: nat, eol: seq<byte>)
    requires Ready(p, llen) && |p.tail| == 2 && llen % 4 != 0 && p.lout % 4 == 0
    ensures Fits(p, [b], llen, eol)
    ensures Next(p, [b], llen, eol) == Pen((p.lout + 4) % U32, [], p.out + Encode(p.tail + [b]))
  {
    hide Encode, Encode3, Lines, LinesFit;
    var q, col := p.tail + [b], (p.lout + 4) % U32;
    WrappedMultiple(p.lout, 1);
    assert col != llen;
    assert [b][..1] == [b] && [b][1..] == [];
    GroupEncode(q);
    LinesNone([], col, llen, eol);
    LinesFitNone(0, col, llen, |eol|, 4);
    ShortTail([]);
    assert Encode(q) + [] == Encode(q);
  }

  lemma {:induction false} GroupCloses(d: seq<byte>, b: byte)
    requires |TailOf(d)| == 2
    ensures Encode(d + [b]) == Encode(d) + Encode(TailOf(d) + [b]) && TailOf(d + [b]) == []
  {
    hide Encode;
    var q := TailOf(d) + [b];
    var n := WholeAndTail(d);
    assert d + [b] == d[..n] + q;
    EncodeAppend(d[..n], q);
    TailIs(d + [b], |d + [b]|);
  }

  /** The writer itself, one byte at a time at such a length. */
  method OneByOne(dst: ArmoredDest, data: seq<byte>) returns (ok: bool)
    requires dst.Sound() && dst.llen % 4 != 0
    modifies dst
    ensures ok && dst.Sound() && dst.input == old(dst.input) + data && dst.llen == old(dst.llen)
    ensures var s := old(dst.tail) + data;
            && dst.lout == (old(dst.lout) + |s| / 3 * 4) % U32 && dst.tail == TailOf(s)
            && dst.out == old(dst.out) + Encode(s)
  {
    hide Encode, AllFit, After, Flatten, Chars, TailOf;
    BytewiseAfter(dst.State(), data, dst.llen, dst.eol);
    FlattenBytewise(data);
    ok := WriteAll(dst, Bytewise(data));
  }

  lemma {:induction false} FlattenBytewise(data: seq<byte>)
    ensures Flatten(Bytewise(data)) == data
  {
    if data != [] {
      assert Bytewise(data)[1..] == Bytewise(data[1..]);
      FlattenBytewise(data[1..]);
    }
  }

  // ----- Columns from which everything fits -----

  /** The column is inside a line whose length is a multiple of 4; or so close to the end of the 32-bit
      range that the turn which gets it back to the line fits the buffer. `e` is the size of a line end. */
  predicate Safe(lout: nat, llen: nat, e: nat) {
    llen % 4 == 0 && (lout < llen || (llen < lout && U32 + llen - lout + e <= ENCBUF))
  }

  /** From inside the line, the line loop stays inside it. */
  lemma {:induction false} LinesInside(data: seq<byte>, lout: nat, llen: nat, eol: seq<byte>)
    requires 4 <= llen < U32 && llen % 4 == 0 && lout < llen && lout % 4 == 0
    ensures Lines(data, lout, llen, eol).lout < llen
    decreases |data|
  {
    hide Lines, TurnSize, TurnColumn;
    if |data| < 3 {
      LinesNone(data, lout, llen, eol);
    } else {
      var n, col := TurnSize(llen, lout, |data|), TurnColumn(llen, lout, |data|);
      TurnFits(llen, lout, |data|);
      TurnColumnMultiple(llen, lout, |data|);
      LinesNext(data, lout, llen, eol);
      LinesInside(data[n..], col, llen, eol);
    }
  }

  /** One turn from past the line: it takes at most the characters up to the line length, in 32 bits. */
  lemma TurnBack(llen: nat, lout: nat, room: nat, e: nat, enc: nat)
    requires 4 <= llen <= BASE64_LINE && llen % 4 == 0 && lout % 4 == 0 && llen < lout < U32 && e <= 2 && enc <= 4
    ensures var d, g := U32 + llen - lout, room / 3 * 4;
            && TurnEnd(llen, lout, room, e, enc)
               == (enc + if g < d then g + (if lout + g == U32 then e else 0) else d + e)
            && TurnColumn(llen, lout, room) == (if g < d then (lout + g) % U32 else 0)
            && (g < d ==> room - TurnSize(llen, lout, room) < 3)
  {
    var d, g := U32 + llen - lout, room / 3;
    assert Rounded(llen) == llen && Room(llen, lout) == d;
    var k := d / 4;
    assert d == 4 * k && Want(llen, lout) == 3 * k;
    assert 3 * k > room <==> g < k;
    assert g < k ==> lout + g * 4 < 2 * U32;
  }

  /** The line loop keeps a column safe, and stays inside encbuf. */
  lemma SafeLines(data: seq<byte>, lout: nat, llen: nat, eol: seq<byte>, enc: nat)
    requires 4 <= llen <= BASE64_LINE && lout < U32 && lout % 4 == 0 && |eol| <= 2 && enc <= 6
    requires llen % 4 == 0 && (lout < llen || (llen < lout && enc <= 4 && U32 + llen - lout + enc + |eol| <= ENCBUF))
    ensures LinesFit(|data|, lout, llen, |eol|, enc)
    ensures Safe(Lines(data, lout, llen, eol).lout, llen, |eol|)
  {
    hide Lines, LinesFit, TurnSize, TurnColumn, TurnEnd;
    LoopFits(|data|, lout, llen, |eol|, enc);
    if lout < llen {
      LinesInside(data, lout, llen, eol);
    } else if |data| < 3 {
      LinesNone(data, lout, llen, eol);
    } else {
      var n, col := TurnSize(llen, lout, |data|), TurnColumn(llen, lout, |data|);
      TurnBack(llen, lout, |data|, |eol|, enc);
      LinesNext(data, lout, llen, eol);
      if |data| - n < 3 {
        LinesNone(data[n..], col, llen, eol);
      } else {
        LinesInside(data[n..], col, llen, eol);
      }
    }
  }

  /** One write from a safe column fits, and the column stays safe. */
  lemma SafeNext(p: Pen, buf: seq<byte>, llen: nat, eol: seq<byte>)
    requires Ready(p, llen) && p.lout % 4 == 0 && |eol| <= 2 && Safe(p.lout, llen, |eol|)
    ensures Fits(p, buf, llen, eol) && Safe(Next(p, buf, llen, eol).lout, llen, |eol|)
  {
    hide Lines, LinesFit, Encode3, Encode, TailOf;
    if |buf| + |p.tail| >= 3 {
      var a := First(p, buf, llen, eol);
      WrappedMultiple(p.lout, 1);
      SafeLines(buf[FirstSize(p)..], a.lout, llen, eol, |a.text|);
    }
  }

  lemma {:induction false} SafeFits(p: Pen, writes: seq<seq<byte>>, llen: nat, eol: seq<byte>)
    requires Ready(p, llen) && p.lout % 4 == 0 && |eol| <= 2 && Safe(p.lout, llen, |eol|)
    ensures AllFit(p, writes, llen, eol)
    ensures var q := After(p, writes, llen, eol); q.lout % 4 == 0 && Safe(q.lout, llen, |eol|)
    decreases |writes|
  {
    hide Fits, Next, Safe;
    if writes != [] {
      var n := |writes| - 1;
      SafeFits(p, writes[..n], llen, eol);
      var q := After(p, writes[..n], llen, eol);
      SafeNext(q, writes[n], llen, eol);
      NextColumn(q, writes[n], llen, eol);
    }
  }

  // ----- Columns from which something does not fit -----

  const TOO_MUCH: nat := 12300

  function Zeros(n: nat): (r: seq<byte>)
    ensures |r| == n
  {
    seq(n, i => 0)
  }

  /** Groups from column `lout` to the first column past the line. */
  function Groups(lout: nat, llen: nat): (k: nat)
    ensures k >= 1
  {
    (Rounded(llen) - lout) % U32 / 4 + 1
  }

  /** Writes that do not fit: if need be byte by byte until the column is past the line, then a long one. */
  function Overlong(p: Pen, llen: nat): (writes: seq<seq<byte>>)
    requires |p.tail| <= 2
  {
    if llen % 4 != 0 then Bytewise(Zeros(3 * Groups(p.lout, llen) - |p.tail|)) + [Zeros(TOO_MUCH)]
    else if p.lout == llen && p.tail == [] then [[0], Zeros(2 + TOO_MUCH)]
    else [Zeros(FirstSize(p) + TOO_MUCH)]
  }

  lemma OverlongDoesNotFit(p: Pen, llen: nat, eol: seq<byte>)
    requires Ready(p, llen) && p.lout % 4 == 0 && |eol| <= 2 && !Safe(p.lout, llen, |eol|)
    ensures !AllFit(p, Overlong(p, llen), llen, eol)
  {
    hide Fits, Next, Bytewise, Zeros, After, AllFit;
    var ws := Overlong(p, llen);
    Nothing(p, ws, llen, eol);
    assert ws[..|ws|] == ws;
    if llen % 4 != 0 {
      OddLength(p, llen, eol);
    } else if p.lout == llen && p.tail == [] {
      AfterNext(p, ws, 0, llen, eol);
      AfterNext(p, ws, 1, llen, eol);
      ByteKept(p, 0, llen, eol);
      LongWrite(p.(tail := p.tail + [0]), llen, eol);
    } else {
      AfterNext(p, ws, 0, llen, eol);
      LongWrite(p, llen, eol);
    }
  }

  lemma OddLength(p: Pen, llen: nat, eol: seq<byte>)
    requires Ready(p, llen) && p.lout % 4 == 0 && |eol| <= 2 && llen % 4 != 0
    ensures !AllFit(p, Overlong(p, llen), llen, eol)
  {
    hide Fits, Encode, Next, Bytewise, Zeros, After, AllFit, TailOf, Groups;
    var data, last := Zeros(3 * Groups(p.lout, llen) - |p.tail|), Zeros(TOO_MUCH);
    var ws, n := Overlong(p, llen), |data|;
    BytewiseAfter(p, data, llen, eol);
    assert ws[..n] == Bytewise(data) && ws[n] == last && ws[..n + 1] == ws;
    AfterNext(p, ws, n, llen, eol);
    OneMoreGroup(p, data, llen);
    PastTheLine(Grown(p, data), last, llen, eol);
  }

  lemma OneMoreGroup(p: Pen, data: seq<byte>, llen: nat)
    requires 4 <= llen <= BASE64_LINE && p.lout % 4 == 0 && p.lout < U32
    requires |p.tail + data| == 3 * Groups(p.lout, llen)
    ensures Grown(p, data).tail == [] && Grown(p, data).lout == Rounded(llen) + 4
  {
    hide Encode, Groups;
    var s := p.tail + data;
    assert |s| / 3 == Groups(p.lout, llen) && |s| % 3 == 0;
    GroupsReach(p.lout, llen);
  }

  lemma GroupsReach(lout: nat, llen: nat)
    requires llen <= BASE64_LINE && lout % 4 == 0 && lout < U32
    ensures (lout + Groups(lout, llen) * 4) % U32 == Rounded(llen) + 4
  {
    var r := Rounded(llen);
    var d := if lout <= r then r - lout else r - lout + U32;
    assert (r - lout) % U32 == d;
    var k := if lout <= r then r / 4 - lout / 4 else r / 4 - lout / 4 + U32 / 4;
    assert d == 4 * k;
    assert lout + (k + 1) * 4 == if lout <= r then r + 4 else r + 4 + U32;
  }

  /** One long write, which completes the kept bytes first if there are any. */
  lemma LongWrite(p: Pen, llen: nat, eol: seq<byte>)
    requires Ready(p, llen) && p.lout % 4 == 0 && |eol| <= 2 && llen % 4 == 0
    requires (llen < p.lout && U32 + llen - p.lout + |eol| > ENCBUF) || (llen == p.lout && p.tail != [])
    ensures !Fits(p, Zeros(FirstSize(p) + TOO_MUCH), llen, eol)
  {
    hide Fits, Encode3, TurnEnd, TurnColumn, TurnSize;
    var buf := Zeros(FirstSize(p) + TOO_MUCH);
    var a := First(p, buf, llen, eol);
    WriteFits(p, buf, llen, eol);
    assert a.lout % 4 == 0 && llen < a.lout == p.lout + |a.text|;
    TurnBack(llen, a.lout, TOO_MUCH, |eol|, |a.text|);
  }

  // ----- The exact condition -----

  /** From any column the writer can be at, every sequence of writes stays inside its buffer if and only if
      the column is safe. */
  lemma BufferExactFrom(p: Pen, llen: nat, eol: seq<byte>)
    requires Ready(p, llen) && p.lout % 4 == 0 && |eol| <= 2
    ensures (forall writes :: AllFit(p, writes, llen, eol)) <==> Safe(p.lout, llen, |eol|)
  {
    hide AllFit, Safe, Overlong;
    if Safe(p.lout, llen, |eol|) {
      forall writes
        ensures AllFit(p, writes, llen, eol)
      {
        SafeFits(p, writes, llen, eol);
      }
    } else {
      OverlongDoesNotFit(p, llen, eol);
    }
  }

  /** Of the lengths the writer accepts, exactly the multiples of 4 keep every sequence of writes inside
      the buffer of a new writer. */
  lemma BufferExact(llen: nat, eol: seq<byte>, header: seq<byte>)
    requires MIN_LINE <= llen <= MAX_LINE && |eol| <= 2
    ensures (forall writes :: AllFit(Pen(0, [], header), writes, llen, eol)) <==> llen % 4 == 0
  {
    hide AllFit;
    BufferExactFrom(Pen(0, [], header), llen, eol);
  }

  lemma {:induction false} MultiplesFit(writes: seq<seq<byte>>, llen: nat, eol: seq<byte>, header: seq<byte>)
    requires 4 <= llen <= BASE64_LINE && llen % 4 == 0 && |eol| <= 2
    ensures AllFit(Pen(0, [], header), writes, llen, eol)
    ensures After(Pen(0, [], header), writes, llen, eol) == PenOf(Flatten(writes), llen, eol, header)
  {
    hide Fits, Next, PenOf, Flatten;
    var p := Pen(0, [], header);
    EmptyPen(llen, eol, header);
    FlattenNone(writes);
    if writes == [] {
      assert writes == writes[..0];
    } else {
      var n := |writes| - 1;
      MultiplesFit(writes[..n], llen, eol, header);
      NextWraps(Flatten(writes[..n]), writes[n], llen, eol, header);
      FlattenNext(writes, n);
      assert writes[..n + 1] == writes;
    }
  }

  /** The writer itself, wherever it is: the writes above pass the end of its buffer exactly if its column is
      not safe. */
  method Overrun(dst: ArmoredDest) returns (ok: bool)
    requires dst.Sound()
    modifies dst
    ensures ok <==> Safe(old(dst.lout), old(dst.llen), |dst.eol|)
  {
    hide AllFit, Overlong, Safe, Encode, Chars;
    var writes := Overlong(Pen(dst.lout, dst.tail, dst.out), dst.llen);
    if Safe(dst.lout, dst.llen, |dst.eol|) {
      SafeFits(dst.State(), writes, dst.llen, dst.eol);
    } else {
      OverlongDoesNotFit(dst.State(), dst.llen, dst.eol);
    }
    ok := WriteAll(dst, writes);
  }

  /** A new writer with a length that is not a multiple of 4. */
  method OverrunAtOddLength(llen: nat, header: seq<byte>, footer: seq<byte>, crc24: seq<byte> -> Crc)
    returns (ok: bool)
    requires MIN_LINE <= llen <= MAX_LINE && llen % 4 != 0
    ensures !ok
  {
    hide Chars, Encode;
    var dst := new ArmoredDest(crc24, false, header, footer);
    var _ := dst.SetLineLength(llen);
    ok := Overrun(dst);
  }

  /** A new writer at 76 that has written 30 bytes, so 40 characters, is set to 16, which is a multiple of 4:
      then one write passes the end of the buffer. */
  method OverrunAfterShorterLine(header: seq<byte>, footer: seq<byte>, crc24: seq<byte> -> Crc)
    returns (first: bool, changed: bool, second: bool)
    ensures first && changed && !second
  {
    hide Chars, Encode, Wrap, Fits;
    var dst := new ArmoredDest(crc24, false, header, footer);
    first := dst.Write(Zeros(30));
    changed := dst.SetLineLength(16);
    assert [] + Zeros(30) == Zeros(30);
    assert dst.lout == 40 && dst.tail == [];
    PastTheLine(dst.State(), Zeros(TOO_MUCH), 16, dst.eol);
    second := dst.Write(Zeros(TOO_MUCH));
  }
}
