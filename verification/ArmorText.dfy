/** Armored text as a pure function of the data: line breaking, closing lines, and what is left when
    line ends are taken out. */
module ArmorText {
  import opened Base64

  // ----- Reference: line breaking -----

  /** Text that `chars` adds when the current line already holds `col` characters. */
  function Wrap(chars: seq<byte>, col: nat, llen: nat, eol: seq<byte>): (r: seq<byte>)
    requires col < llen
    decreases |chars|
  {
    if |chars| < llen - col then chars
    else chars[..llen - col] + eol + Wrap(chars[llen - col..], 0, llen, eol)
  }

  /** Column reached after `n` more characters. */
  function Column(col: nat, n: nat, llen: nat): (c: nat)
    requires col < llen
    ensures c < llen
    decreases n
  {
    if n < llen - col then col + n else Column(0, n - (llen - col), llen)
  }

  lemma {:induction false} ColumnMultiple(col: nat, n: nat, llen: nat)
    requires col < llen && col % 4 == 0 && n % 4 == 0 && llen % 4 == 0
    ensures Column(col, n, llen) % 4 == 0
    decreases n
  {
    if n < llen - col {
      SumMultiple(col, n);
    } else {
      DifferenceMultiple(llen, col);
      DifferenceMultiple(n, llen - col);
      ColumnMultiple(0, n - (llen - col), llen);
    }
  }

  lemma SumMultiple(a: nat, b: nat)
    requires a % 4 == 0 && b % 4 == 0
    ensures (a + b) % 4 == 0
  {
  }

  lemma DifferenceMultiple(a: nat, b: nat)
    requires a % 4 == 0 && b % 4 == 0 && b <= a
    ensures (a - b) % 4 == 0
  {
  }

  lemma {:induction false} ColumnAppend(col: nat, m: nat, n: nat, llen: nat)
    requires col < llen
    ensures Column(col, m + n, llen) == Column(Column(col, m, llen), n, llen)
    decreases m
  {
    if m >= llen - col {
      ColumnAppend(0, m - (llen - col), n, llen);
    }
  }

  lemma {:induction false} WrapAppend(x: seq<byte>, y: seq<byte>, col: nat, llen: nat, eol: seq<byte>)
    requires col < llen
    ensures Wrap(x + y, col, llen, eol) == Wrap(x, col, llen, eol) + Wrap(y, Column(col, |x|, llen), llen, eol)
    decreases |x|
  {
    hide Wrap;
    var k := llen - col;
    WrapStep(x + y, col, llen, eol);
    WrapStep(x, col, llen, eol);
    if |x| >= k {
      assert (x + y)[..k] == x[..k];
      assert (x + y)[k..] == x[k..] + y;
      WrapAppend(x[k..], y, 0, llen, eol);
    } else {
      WrapStep(y, col + |x|, llen, eol);
      if |x| + |y| >= k {
        assert (x + y)[..k] == x + y[..k - |x|];
        assert (x + y)[k..] == y[k - |x|..];
      }
    }
  }

  lemma {:induction false} WrapStep(chars: seq<byte>, col: nat, llen: nat, eol: seq<byte>)
    requires col < llen
    ensures Wrap(chars, col, llen, eol) ==
            if |chars| < llen - col then chars
            else chars[..llen - col] + eol + Wrap(chars[llen - col..], 0, llen, eol)
  {
  }

  /** Encoding at most the rest of the current line: the end of line follows exactly when it fills up. */
  lemma {:induction false} LineAdds(done: seq<byte>, more: seq<byte>, llen: nat, eol: seq<byte>)
    requires 0 < llen && |done| % 3 == 0 && |more| % 3 == 0
    requires Column(0, |Encode(done)|, llen) + |Encode(more)| <= llen
    ensures |done + more| % 3 == 0
    ensures var col := Column(0, |Encode(done)|, llen) + |Encode(more)|;
            && Column(0, |Encode(done + more)|, llen) == (if col == llen then 0 else col)
            && Wrap(Encode(done + more), 0, llen, eol)
               == Wrap(Encode(done), 0, llen, eol) + (Encode(more) + if col == llen then eol else [])
  {
    hide Encode;
    EncodeAppend(done, more);
    WrapAppend(Encode(done), Encode(more), 0, llen, eol);
    ColumnAppend(0, |Encode(done)|, |Encode(more)|, llen);
    var e, c := Encode(more), Column(0, |Encode(done)|, llen);
    if |e| == llen - c {
      assert e[..llen - c] == e && e[llen - c..] == [];
      assert Wrap(e, c, llen, eol) == e + eol;
    }
  }

  function Joined(lines: seq<seq<byte>>, sep: seq<byte>): (r: seq<byte>) {
    if lines == [] then [] else lines[0] + sep + Joined(lines[1..], sep)
  }

  /** What wrapping means: full lines of exactly `llen` characters, each closed by `eol`, then
      one shorter line; joined without line ends they are the characters, unchanged. */
  lemma {:induction false} WrapLines(chars: seq<byte>, llen: nat, eol: seq<byte>)
    returns (lines: seq<seq<byte>>, last: seq<byte>)
    requires 0 < llen
    ensures forall i :: 0 <= i < |lines| ==> |lines[i]| == llen
    ensures |last| < llen && |last| == Column(0, |chars|, llen)
    ensures Joined(lines, []) + last == chars
    ensures Wrap(chars, 0, llen, eol) == Joined(lines, eol) + last
    decreases |chars|
  {
    if |chars| < llen {
      lines, last := [], chars;
    } else {
      var more;
      more, last := WrapLines(chars[llen..], llen, eol);
      lines := [chars[..llen]] + more;
      assert lines[1..] == more;
      assert Joined(lines, []) + last == chars[..llen] + (Joined(more, []) + last);
      assert Joined(lines, eol) + last == chars[..llen] + eol + (Joined(more, eol) + last);
    }
  }

  // ----- Reference: whole texts -----

  /** The base64 body of a payload. */
  function Body(payload: seq<byte>, llen: nat, eol: seq<byte>): (r: seq<byte>)
    requires 0 < llen
  {
    Wrap(Encode(payload), 0, llen, eol) + EncodeTail(TailOf(payload))
  }

  /** What follows the body: end of line if the last line is not empty, CRC line, closing line. */
  function Closing(open: bool, crc: Crc, footer: seq<byte>): (r: seq<byte>) {
    var eol := [CR, LF];
    (if open then eol else []) + [EQ] + Encode3(crc.0, crc.1, crc.2) + eol + footer + eol
  }

  /** Everything that follows the blank line after the armor header. */
  function ArmorTail(payload: seq<byte>, llen: nat, crc: Crc, footer: seq<byte>): (r: seq<byte>)
    requires 0 < llen
  {
    Body(payload, llen, [CR, LF])
    + Closing(|payload| % 3 > 0 || Column(0, |Encode(payload)|, llen) > 0, crc, footer)
  }

  // ----- Taking line ends out -----

  function Chars(s: seq<byte>): (r: seq<byte>) {
    if s == [] then [] else (if s[0] == CR || s[0] == LF then [] else [s[0]]) + Chars(s[1..])
  }

  lemma {:induction false} CharsAppend(a: seq<byte>, b: seq<byte>)
    ensures Chars(a + b) == Chars(a) + Chars(b)
  {
    if a == [] {
      assert a + b == b;
    } else {
      assert (a + b)[1..] == a[1..] + b;
      CharsAppend(a[1..], b);
    }
  }

  predicate NoEol(s: seq<byte>) {
    forall i :: 0 <= i < |s| ==> s[i] != CR && s[i] != LF
  }

  lemma {:induction false} CharsSame(s: seq<byte>)
    requires NoEol(s)
    ensures Chars(s) == s
  {
    if s != [] {
      CharsSame(s[1..]);
    }
  }

  lemma CharsEol()
    ensures Chars([CR, LF]) == [] == Chars([])
  {
    assert [CR, LF][1..] == [LF] && [LF][1..] == [];
    assert Chars([LF]) == [];
  }

  lemma EncCharNoEol(v: byte)
    ensures EncChar(v) != CR && EncChar(v) != LF
  {
  }

  lemma {:induction false} EncodeNoEol(s: seq<byte>)
    ensures NoEol(Encode(s))
  {
    hide EncChar;
    if |s| >= 3 {
      EncodeNoEol(s[3..]);
      EncCharNoEol(s[0] >> 2);
      EncCharNoEol((s[0] << 4) | (s[1] >> 4));
      EncCharNoEol((s[1] << 2) | (s[2] >> 6));
      EncCharNoEol(s[2]);
    }
  }

  lemma EncodeChars(s: seq<byte>)
    ensures Chars(Encode(s)) == Encode(s)
  {
    hide Encode;
    EncodeNoEol(s);
    CharsSame(Encode(s));
  }

  /** Breaking into lines only adds line ends. */
  lemma {:induction false} CharsWrap(chars: seq<byte>, col: nat, llen: nat, eol: seq<byte>)
    requires col < llen && NoEol(chars) && Chars(eol) == []
    ensures Chars(Wrap(chars, col, llen, eol)) == chars
    decreases |chars|
  {
    hide Chars, Wrap;
    WrapStep(chars, col, llen, eol);
    var k := llen - col;
    if |chars| < k {
      CharsSame(chars);
    } else {
      var x, y := chars[..k], chars[k..];
      assert chars == x + y;
      CharsWrap(y, 0, llen, eol);
      CharsAppend(x + eol, Wrap(y, 0, llen, eol));
      CharsAppend(x, eol);
      CharsSame(x);
    }
  }
}
