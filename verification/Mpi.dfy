/** Multi-precision integers: the form written to G10 s-expressions, and the records hashed into a
    key grip. */
module Mpi {
  import opened Octets

  const MPI_SIZE: nat := 2048

  // ----- Numbers -----

  /** The number a byte string stands for, most significant byte first. */
  function Value(m: seq<octet>): (n: nat) {
    if m == [] then 0 else Value(m[..|m| - 1]) * 256 + m[|m| - 1]
  }

  function Stripped(m: seq<octet>): (r: seq<octet>)
    ensures r == [] || r[0] != 0
  {
    if m != [] && m[0] == 0 then Stripped(m[1..]) else m
  }

  lemma {:induction false} StrippedIs(m: seq<octet>, idx: nat)
    requires idx <= |m| && (forall i :: 0 <= i < idx ==> m[i] == 0) && (idx < |m| ==> m[idx] != 0)
    ensures Stripped(m) == m[idx..]
    decreases idx
  {
    if idx > 0 {
      StrippedIs(m[1..], idx - 1);
      assert m[1..][idx - 1..] == m[idx..];
    }
  }

  lemma {:induction false} ValueZero(m: seq<octet>)
    ensures Value([0] + m) == Value(m)
  {
    if m == [] {
      assert [0] + m == [0] && [0][..0] == [];
    } else {
      var s := [0] + m;
      assert s[..|s| - 1] == [0] + m[..|m| - 1];
      ValueZero(m[..|m| - 1]);
    }
  }

  lemma {:induction false} ValueStripped(m: seq<octet>)
    ensures Value(Stripped(m)) == Value(m)
  {
    if m != [] && m[0] == 0 {
      assert m == [0] + m[1..];
      ValueZero(m[1..]);
      ValueStripped(m[1..]);
    }
  }

  lemma {:induction false} ValuePositive(m: seq<octet>)
    requires m != [] && m[0] != 0
    ensures Value(m) > 0
  {
    if |m| > 1 {
      ValuePositive(m[..|m| - 1]);
    }
  }

  lemma {:induction false} CanonicalUnique(a: seq<octet>, b: seq<octet>)
    requires (a == [] || a[0] != 0) && (b == [] || b[0] != 0) && Value(a) == Value(b)
    ensures a == b
    decreases |a|
  {
    if a == [] {
      if b != [] {
        ValuePositive(b);
      }
    } else if b == [] {
      ValuePositive(a);
    } else {
      var x, y := a[..|a| - 1], b[..|b| - 1];
      assert Value(x) * 256 + a[|a| - 1] == Value(y) * 256 + b[|b| - 1];
      assert Value(x) == Value(y) && a[|a| - 1] == b[|b| - 1];
      CanonicalUnique(x, y);
      assert a == x + [a[|a| - 1]] && b == y + [b[|b| - 1]];
    }
  }

  /** Two strings stand for the same number exactly when they differ in leading zeros at most. */
  lemma SameNumber(a: seq<octet>, b: seq<octet>)
    ensures Value(a) == Value(b) <==> Stripped(a) == Stripped(b)
  {
    ValueStripped(a);
    ValueStripped(b);
    if Value(a) == Value(b) {
      CanonicalUnique(Stripped(a), Stripped(b));
    }
  }

  // ----- G10 s-expressions -----

  /** The signed form: a zero byte before a set high bit. */
  function Signed(m: seq<octet>): (r: seq<octet>) {
    var s := Stripped(m);
    if s != [] && s[0] >= 0x80 then [0] + s else s
  }

  /** It is the one string with that number that starts with no set high bit and with no byte that could be
      left out. */
  lemma SignedIs(m: seq<octet>, r: seq<octet>)
    ensures r == Signed(m) <==>
            && Value(r) == Value(m)
            && (r != [] ==> r[0] < 0x80)
            && (r != [] && r[0] == 0 ==> |r| > 1 && r[1] >= 0x80)
  {
    hide Value;
    var s := Stripped(m);
    ValueStripped(m);
    if s != [] {
      ValueZero(s);
    }
    if Value(r) == Value(m) && (r != [] ==> r[0] < 0x80) && (r != [] && r[0] == 0 ==> |r| > 1 && r[1] >= 0x80) {
      if r != [] && r[0] == 0 {
        assert r == [0] + r[1..];
        ValueZero(r[1..]);
        CanonicalUnique(r[1..], s);
      } else {
        CanonicalUnique(r, s);
      }
    }
  }

  method SkipZeros(m: seq<octet>) returns (idx: nat)
    ensures idx <= |m| && Stripped(m) == m[idx..]
  {
    idx := 0;
    while idx < |m| && m[idx] == 0
      invariant idx <= |m| && forall i :: 0 <= i < idx ==> m[i] == 0
    {
      idx := idx + 1;
    }
    StrippedIs(m, idx);
  }

  /** add_mpi: the value block */
  method AddMpi(m: seq<octet>) returns (data: seq<octet>)
    ensures data == Signed(m)
  {
    data := [];
    var idx := SkipZeros(m);
    if idx < |m| {
      if m[idx] >= 0x80 {
        data := data + [0];
        data := data + m[idx..];
      } else {
        data := m[idx..];
      }
    }
  }

  /** read_mpi: strips the zero byte that keeps the number positive; fails on too long a number. */
  method ReadMpi(bytes: seq<octet>) returns (ok: bool, m: seq<octet>)
    ensures forall n :: bytes == Signed(n) ==> (ok <==> |Stripped(n)| <= MPI_SIZE) && (ok ==> m == Stripped(n))
    ensures Value(m) == Value(bytes)
    ensures ok <==> |bytes| <= MPI_SIZE || (|bytes| == MPI_SIZE + 1 && bytes[0] == 0 && bytes[1] >= 0x80)
  {
    m := bytes;
    if |bytes| > 1 && bytes[0] == 0 && bytes[1] >= 0x80 {
      m := bytes[1..];
      assert bytes == [0] + m;
      ValueZero(m);
    }
    ok := |m| <= MPI_SIZE;
    forall n | bytes == Signed(n)
      ensures m == Stripped(n)
    {
      var s := Stripped(n);
      if s != [] && s[0] >= 0x80 {
        assert bytes[1..] == s;
      }
    }
  }

  // ----- Key grips -----

  const OPEN: octet := 0x28
  const CLOSE: octet := 0x29
  const ONE: octet := 0x31
  const ZERO: octet := 0x30
  const COLON: octet := 0x3a

  function Decimal(n: nat): (r: seq<octet>)
    ensures r != [] && forall i :: 0 <= i < |r| ==> ZERO <= r[i] <= 0x39
  {
    if n < 10 then [ZERO + n] else Decimal(n / 10) + [ZERO + n % 10]
  }

  function Number(digits: seq<octet>): (n: int) {
    if digits == [] then 0 else Number(digits[..|digits| - 1]) * 10 + (digits[|digits| - 1] as int - ZERO as int)
  }

  lemma {:induction false} NumberDecimal(n: nat)
    ensures Number(Decimal(n)) == n
  {
    var d := Decimal(n);
    if n < 10 {
      assert d[..|d| - 1] == [];
    } else {
      NumberDecimal(n / 10);
      assert d[..|d| - 1] == Decimal(n / 10);
    }
  }

  /** The bytes of one number in a key grip: with `lzero`, a zero byte keeps it positive. */
  function GripBody(m: seq<octet>, lzero: bool): (r: seq<octet>) {
    if lzero then Signed(m) else Stripped(m)
  }

  /** What is hashed for one number; without a name, only its bytes. */
  function Named(body: seq<octet>, name: octet): (r: seq<octet>) {
    if name == 0 then body
    else [OPEN, ONE, COLON, name] + Decimal(|body|) + [COLON] + body + [CLOSE]
  }

  function GripRecord(m: seq<octet>, name: octet): (r: seq<octet>) {
    Named(Signed(m), name)
  }

  /** grip_hash_mpi; `hashed` is what has been fed to the hash so far. */
  method GripHashMpi(hashed: seq<octet>, m: seq<octet>, name: octet, lzero: bool) returns (r: seq<octet>)
    ensures r == hashed + Named(GripBody(m, lzero), name)
    ensures lzero ==> r == hashed + GripRecord(m, name)
  {
    hide Decimal, GripBody;
    ghost var body := GripBody(m, lzero);
    r := hashed;
    var idx := SkipZeros(m);
    GripBodyIs(m, idx, lzero);
    if name == 0 {
      r := HashBytes(r, m, idx, lzero);
    } else {
      var hlen := if idx >= |m| then 0 else |m| - idx;
      if |m| > idx && lzero && m[idx] >= 0x80 {
        hlen := hlen + 1;
      }
      r := r + ([OPEN, ONE, COLON, name] + Decimal(hlen) + [COLON]);
      r := HashBytes(r, m, idx, lzero);
      r := r + [CLOSE];
      NamedIs(hashed, body, name);
    }
    GripBodySigned(m);
  }

  method HashBytes(hashed: seq<octet>, m: seq<octet>, idx: nat, lzero: bool) returns (r: seq<octet>)
    requires idx <= |m| && Stripped(m) == m[idx..]
    ensures r == hashed + GripBody(m, lzero)
  {
    hide GripBody, Stripped;
    GripBodyIs(m, idx, lzero);
    r := hashed;
    if idx < |m| {
      if lzero && m[idx] >= 0x80 {
        r := r + [0];
      }
      r := r + m[idx..];
    }
  }

  lemma NamedIs(hashed: seq<octet>, body: seq<octet>, name: octet)
    requires name != 0
    ensures hashed + ([OPEN, ONE, COLON, name] + Decimal(|body|) + [COLON]) + body + [CLOSE]
            == hashed + Named(body, name)
  {
    hide Decimal;
    AssocFive(hashed, [OPEN, ONE, COLON, name], Decimal(|body|), [COLON], body, [CLOSE]);
  }

  lemma AssocFive(h: seq<octet>, a: seq<octet>, b: seq<octet>, c: seq<octet>, d: seq<octet>, e: seq<octet>)
    ensures h + (a + b + c) + d + e == h + (a + b + c + d + e)
  {
    var x := a + b + c;
    assert h + x + d + e == h + (x + d + e);
  }

  lemma GripBodyIs(m: seq<octet>, idx: nat, lzero: bool)
    requires idx <= |m| && Stripped(m) == m[idx..]
    ensures GripBody(m, lzero)
            == if idx < |m| then (if lzero && m[idx] >= 0x80 then [0] else []) + m[idx..] else []
  {
    hide Stripped;
    var s := m[idx..];
    assert [] + s == s;
    assert idx < |m| ==> s[0] == m[idx];
  }

  lemma GripBodySigned(m: seq<octet>)
    ensures GripBody(m, true) == Signed(m)
  {
  }

  function GripRecords(ms: seq<seq<octet>>, names: seq<octet>): (r: seq<octet>)
    requires |ms| == |names|
  {
    if ms == [] then [] else GripRecord(ms[0], names[0]) + GripRecords(ms[1..], names[1..])
  }

  /** DSAKeyMaterial::grip_update */
  method DsaGrip(p: seq<octet>, q: seq<octet>, g: seq<octet>, y: seq<octet>) returns (r: seq<octet>)
    ensures r == GripRecords([p, q, g, y], [0x70, 0x71, 0x67, 0x79])
  {
    hide GripRecord, Named;
    r := GripHashMpi([], p, 0x70, true);
    r := GripHashMpi(r, q, 0x71, true);
    r := GripHashMpi(r, g, 0x67, true);
    r := GripHashMpi(r, y, 0x79, true);
    FourRecords(p, q, g, y, 0x70, 0x71, 0x67, 0x79);
  }

  /** EGKeyMaterial::grip_update */
  method ElGamalGrip(p: seq<octet>, g: seq<octet>, y: seq<octet>) returns (r: seq<octet>)
    ensures r == GripRecords([p, g, y], [0x70, 0x67, 0x79])
  {
    hide GripRecord, Named;
    r := GripHashMpi([], p, 0x70, true);
    r := GripHashMpi(r, g, 0x67, true);
    r := GripHashMpi(r, y, 0x79, true);
    ThreeRecords(p, g, y, 0x70, 0x67, 0x79);
  }

  lemma ThreeRecords(b: seq<octet>, c: seq<octet>, d: seq<octet>, y: octet, z: octet, w: octet)
    ensures GripRecords([b, c, d], [y, z, w]) == GripRecord(b, y) + GripRecord(c, z) + GripRecord(d, w)
  {
    hide GripRecord, Named;
    assert [b, c, d][1..] == [c, d] && [c, d][1..] == [d] && [d][1..] == [];
    assert [y, z, w][1..] == [z, w] && [z, w][1..] == [w] && [w][1..] == [];
    assert GripRecords([d], [w]) == GripRecord(d, w);
    assert GripRecords([c, d], [z, w]) == GripRecord(c, z) + GripRecord(d, w);
  }

  lemma FourRecords(a: seq<octet>, b: seq<octet>, c: seq<octet>, d: seq<octet>, x: octet, y: octet, z: octet, w: octet)
    ensures GripRecords([a, b, c, d], [x, y, z, w])
            == GripRecord(a, x) + GripRecord(b, y) + GripRecord(c, z) + GripRecord(d, w)
  {
    hide GripRecord, Named;
    assert [a, b, c, d][1..] == [b, c, d] && [x, y, z, w][1..] == [y, z, w];
    ThreeRecords(b, c, d, y, z, w);
  }

  // ----- Unique decoding -----

  /** Digits before the next colon. */
  function Digits(s: seq<octet>): (r: seq<octet>) {
    if s == [] || s[0] == COLON then [] else [s[0]] + Digits(s[1..])
  }

  lemma {:induction false} DigitsAre(d: seq<octet>, rest: seq<octet>)
    requires forall i :: 0 <= i < |d| ==> d[i] != COLON
    ensures Digits(d + [COLON] + rest) == d
    decreases |d|
  {
    var s := d + [COLON] + rest;
    if d != [] {
      assert s[1..] == d[1..] + [COLON] + rest;
      DigitsAre(d[1..], rest);
    }
  }

  /** Reading a record back: the declared number of bytes, and what follows the record. */
  function Body(s: seq<octet>): (r: seq<octet>) {
    if |s| < 4 then []
    else
      var d := Digits(s[4..]);
      var n, at := Number(d), 5 + |d|;
      if 0 <= n && at + n <= |s| then s[at..at + n] else []
  }

  /** The declared length is the number of bytes that follow, so that the record's end is known from
      its start. */
  lemma {:induction false} BodyOf(m: seq<octet>, name: octet, rest: seq<octet>)
    requires name != 0
    ensures Body(GripRecord(m, name) + rest) == Signed(m)
    ensures |GripRecord(m, name)| == 6 + |Decimal(|Signed(m)|)| + |Signed(m)|
  {
    hide Signed, Decimal, Digits, Number;
    var b := Signed(m);
    var d := Decimal(|b|);
    var s := GripRecord(m, name) + rest;
    var tail := b + [CLOSE] + rest;
    Pieces(name, d, b, rest);
    DigitsAre(d, tail);
    NumberDecimal(|b|);
  }

  lemma {:induction false} Pieces(name: octet, d: seq<octet>, b: seq<octet>, rest: seq<octet>)
    ensures var s := [OPEN, ONE, COLON, name] + d + [COLON] + b + [CLOSE] + rest;
            s[4..] == d + [COLON] + (b + [CLOSE] + rest) && s[5 + |d|..5 + |d| + |b|] == b
  {
  }

  /** Records can be taken apart in one way only. */
  lemma {:induction false} RecordsUnique(a: seq<seq<octet>>, b: seq<seq<octet>>, names: seq<octet>)
    requires |a| == |b| == |names| && forall i :: 0 <= i < |names| ==> names[i] != 0
    ensures GripRecords(a, names) == GripRecords(b, names) <==> forall i :: 0 <= i < |a| ==> Value(a[i]) == Value(b[i])
    decreases |a|
  {
    hide GripRecord, Value;
    if a != [] {
      var x, y := GripRecords(a[1..], names[1..]), GripRecords(b[1..], names[1..]);
      var r, s := GripRecord(a[0], names[0]), GripRecord(b[0], names[0]);
      RecordsUnique(a[1..], b[1..], names[1..]);
      RecordUnique(a[0], b[0], names[0], x, y);
      assert (forall i :: 0 <= i < |a| ==> Value(a[i]) == Value(b[i])) <==>
             Value(a[0]) == Value(b[0]) && forall i :: 0 <= i < |a[1..]| ==> Value(a[1..][i]) == Value(b[1..][i]) by {
        Split(a, b);
      }
    }
  }

  lemma Split(a: seq<seq<octet>>, b: seq<seq<octet>>)
    requires |a| == |b| && a != []
    ensures (forall i :: 0 <= i < |a| ==> Value(a[i]) == Value(b[i])) <==>
            Value(a[0]) == Value(b[0]) && forall i :: 0 <= i < |a[1..]| ==> Value(a[1..][i]) == Value(b[1..][i])
  {
    hide Value;
    if Value(a[0]) == Value(b[0]) && forall i :: 0 <= i < |a[1..]| ==> Value(a[1..][i]) == Value(b[1..][i]) {
      forall i | 0 <= i < |a|
        ensures Value(a[i]) == Value(b[i])
      {
        assert i > 0 ==> a[i] == a[1..][i - 1] && b[i] == b[1..][i - 1];
      }
    }
  }

  lemma RecordUnique(a: seq<octet>, b: seq<octet>, name: octet, x: seq<octet>, y: seq<octet>)
    requires name != 0
    ensures GripRecord(a, name) + x == GripRecord(b, name) + y <==> Value(a) == Value(b) && x == y
  {
    hide GripRecord, Value;
    BodyOf(a, name, x);
    BodyOf(b, name, y);
    SameNumber(a, b);
    SignedUnique(a, b);
    if Value(a) == Value(b) {
      RecordSame(a, b, name);
    }
    var r, s := GripRecord(a, name), GripRecord(b, name);
    if r + x == s + y {
      assert r == s;
      assert x == (r + x)[|r|..] && y == (s + y)[|s|..];
    }
  }

  lemma RecordSame(a: seq<octet>, b: seq<octet>, name: octet)
    requires Signed(a) == Signed(b)
    ensures GripRecord(a, name) == GripRecord(b, name)
  {
  }

  /** The RSA grip is the hash of the signed form alone. */
  lemma SignedUnique(a: seq<octet>, b: seq<octet>)
    ensures Signed(a) == Signed(b) <==> Value(a) == Value(b)
  {
    SameNumber(a, b);
    var s, t := Stripped(a), Stripped(b);
    if Signed(a) == Signed(b) {
      assert s == if Signed(a) != [] && Signed(a)[0] == 0 then Signed(a)[1..] else Signed(a);
      assert t == if Signed(b) != [] && Signed(b)[0] == 0 then Signed(b)[1..] else Signed(b);
    }
  }
}
