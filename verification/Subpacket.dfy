/** Signature subpackets: fields, and a cached serialization that is cleared when a field changes. */
module Subpacket {
  import opened Octets

  /** What the subpacket classes hold; several types share one class. */
  datatype Fields =
    | Unknown
    | Time(time: nat)
    | Bool(value: bool)
    | Trust(level: octet, amount: octet)
    | Text(text: seq<octet>)
    | Preferred(algs: seq<octet>)
    | PreferredPairs(pairs: seq<octet>)
    | RevocationKey(revClass: octet, alg: octet, fp: seq<octet>)
    | IssuerKeyId(keyid: seq<octet>)
    | Notation(flags: seq<octet>, name: seq<octet>, content: seq<octet>)
    | Flags(bits: octet)
    | RevocationReason(code: octet, reason: seq<octet>)
    | IssuerFingerprint(version: octet, issuer: seq<octet>)

  predicate SameKind(f: Fields, g: Fields) {
    match f
    case Unknown => g.Unknown?
    case Time(_) => g.Time?
    case Bool(_) => g.Bool?
    case Trust(_, _) => g.Trust?
    case Text(_) => g.Text?
    case Preferred(_) => g.Preferred?
    case PreferredPairs(_) => g.PreferredPairs?
    case RevocationKey(_, _, _) => g.RevocationKey?
    case IssuerKeyId(_) => g.IssuerKeyId?
    case Notation(_, _, _) => g.Notation?
    case Flags(_) => g.Flags?
    case RevocationReason(_, _) => g.RevocationReason?
    case IssuerFingerprint(_, _) => g.IssuerFingerprint?
  }

  /** What the field types and the checks in the setters guarantee. */
  predicate Typed(f: Fields) {
    match f
    case Time(time) => time < 0x1_0000_0000
    case RevocationKey(_, _, fp) => |fp| <= 32
    case IssuerKeyId(keyid) => |keyid| == 8
    case Notation(flags, name, content) => |flags| == 4 && |name| <= 0xffff && |content| <= 0xffff
    case IssuerFingerprint(_, fp) => |fp| <= 32
    case _ => true
  }

  /** write_data */
  function Encode(f: Fields): (r: seq<octet>) {
    match f
    case Unknown => []
    case Time(time) => Be32(time)
    case Bool(value) => [if value then 1 else 0]
    case Trust(level, amount) => [level, amount]
    case Text(text) => text
    case Preferred(algs) => algs
    case PreferredPairs(pairs) => pairs
    case RevocationKey(revClass, alg, fp) => [revClass, alg] + fp
    case IssuerKeyId(keyid) => keyid
    case Notation(flags, name, content) => flags + Be16(|name|) + Be16(|content|) + name + content
    case Flags(bits) => [bits]
    case RevocationReason(code, reason) => [code] + reason
    case IssuerFingerprint(version, fp) => [version] + fp
  }

  /** check_size */
  predicate SizeFits(kind: Fields, size: nat) {
    match kind
    case Unknown => true
    case Time(_) => size == 4
    case Bool(_) => size == 1
    case Trust(_, _) => size == 2
    case Text(_) => true
    case Preferred(_) => size < 256
    case PreferredPairs(_) => size % 2 == 0 && size < 256
    case RevocationKey(_, _, _) => size == 22 || size == 34
    case IssuerKeyId(_) => size == 8
    case Notation(_, _, _) => size >= 8
    case Flags(_) => size >= 1
    case RevocationReason(_, _) => size >= 1
    case IssuerFingerprint(_, _) => 21 <= size <= 33
  }

  datatype Result = Refused | Parsed(fields: Fields)

  /** check_size and parse_data, for a subpacket of the same kind as `kind` */
  function Decode(kind: Fields, data: seq<octet>): (r: Result)
    ensures r.Parsed? ==> SameKind(kind, r.fields) && Typed(r.fields)
  {
    if !SizeFits(kind, |data|) then Refused
    else
      match kind
      case Unknown => Parsed(Unknown)
      case Time(_) => Parsed(Time(U32(data, 0)))
      case Bool(_) => Parsed(Bool(data[0] != 0))
      case Trust(_, _) => Parsed(Trust(data[0], data[1]))
      case Text(_) => Parsed(Text(data))
      case Preferred(_) => Parsed(Preferred(data))
      case PreferredPairs(_) => Parsed(PreferredPairs(data))
      case RevocationKey(_, _, _) => Parsed(RevocationKey(data[0], data[1], data[2..]))
      case IssuerKeyId(_) => Parsed(IssuerKeyId(data))
      case Notation(_, _, _) =>
        var nlen, vlen := U16(data, 4), U16(data, 6);
        if |data| != 8 + nlen + vlen then Refused
        else Parsed(Notation(data[..4], data[8..8 + nlen], data[8 + nlen..]))
      case Flags(_) => Parsed(Flags(data[0]))
      case RevocationReason(_, _) => Parsed(RevocationReason(data[0], data[1..]))
      case IssuerFingerprint(_, _) => Parsed(IssuerFingerprint(data[0], data[1..]))
  }

  /** The fields that can be read back. */
  predicate Fits(f: Fields) {
    match f
    case Preferred(algs) => |algs| < 256
    case PreferredPairs(pairs) => |pairs| % 2 == 0 && |pairs| < 256
    case RevocationKey(_, _, fp) => |fp| == 20 || |fp| == 32
    case IssuerFingerprint(_, fp) => 20 <= |fp| <= 32
    case _ => true
  }

  // ----- Reading and writing -----

  lemma NotationReads(flags: seq<octet>, name: seq<octet>, content: seq<octet>)
    requires Typed(Notation(flags, name, content))
    ensures var s := Encode(Notation(flags, name, content));
            && |s| == 8 + |name| + |content| && U16(s, 4) == |name| && U16(s, 6) == |content|
            && s[..4] == flags && s[8..8 + |name|] == name && s[8 + |name|..] == content
  {
    hide Be16, U16;
    var s := Encode(Notation(flags, name, content));
    assert s[4..6] == Be16(|name|) && s[6..8] == Be16(|content|);
    At16(s, 4, |name|);
    At16(s, 6, |content|);
  }

  /** What is written reads back as the fields exactly when they fit the type's size rule. */
  lemma RoundTrip(f: Fields)
    requires Typed(f)
    ensures Decode(f, Encode(f)) == Parsed(f) <==> Fits(f)
  {
    hide Be16, Be32, U16, U32;
    match f {
      case Time(time) =>
        Be32Value(time);
      case Notation(flags, name, content) =>
        NotationReads(flags, name, content);
      case RevocationKey(revClass, alg, fp) =>
        assert ([revClass, alg] + fp)[2..] == fp;
      case RevocationReason(code, reason) =>
        assert ([code] + reason)[1..] == reason;
      case IssuerFingerprint(version, fp) =>
        assert ([version] + fp)[1..] == fp;
      case _ =>
    }
  }

  /** Where in the written bytes each field stands, as section 5.2.3 of RFC 4880 has it. */
  lemma FieldPlaces(f: Fields)
    requires Typed(f)
    ensures var s := Encode(f);
            && (f.Time? ==> |s| == 4 && U32(s, 0) == f.time)
            && (f.Bool? ==> |s| == 1 && (s[0] != 0 <==> f.value))
            && (f.Trust? ==> |s| == 2 && s[0] == f.level && s[1] == f.amount)
            && (f.RevocationKey? ==> |s| == 2 + |f.fp| && s[0] == f.revClass && s[1] == f.alg && s[2..] == f.fp)
            && (f.RevocationReason? ==> |s| == 1 + |f.reason| && s[0] == f.code && s[1..] == f.reason)
            && (f.IssuerFingerprint? ==> |s| == 1 + |f.issuer| && s[0] == f.version && s[1..] == f.issuer)
            && (f.Notation? ==>
                  && |s| == 8 + |f.name| + |f.content| && s[..4] == f.flags
                  && U16(s, 4) == |f.name| && U16(s, 6) == |f.content|
                  && s[8..8 + |f.name|] == f.name && s[8 + |f.name|..] == f.content)
  {
    hide Be16, Be32, U16, U32;
    match f {
      case Time(time) =>
        Be32Value(time);
      case Notation(flags, name, content) =>
        NotationReads(flags, name, content);
      case _ =>
    }
  }

  /** Which data each class accepts. */
  lemma ParsesExactly(kind: Fields, data: seq<octet>)
    ensures var ok, n := Decode(kind, data).Parsed?, |data|;
            && (kind.Unknown? || kind.Text? ==> ok)
            && (kind.Time? ==> (ok <==> n == 4)) && (kind.Bool? ==> (ok <==> n == 1))
            && (kind.Trust? ==> (ok <==> n == 2)) && (kind.IssuerKeyId? ==> (ok <==> n == 8))
            && (kind.Preferred? ==> (ok <==> n <= 255)) && (kind.PreferredPairs? ==> (ok <==> n <= 254 && n % 2 == 0))
            && (kind.RevocationKey? ==> (ok <==> n - 2 in {20, 32}))
            && (kind.Flags? || kind.RevocationReason? ==> (ok <==> n > 0))
            && (kind.IssuerFingerprint? ==> (ok <==> 20 <= n - 1 <= 32))
            && (kind.Notation? ==> (ok <==> n >= 8 && n - 8 == U16(data, 4) + U16(data, 6)))
  {
    hide U16, U32;
  }

  /** Fields that were read fit. */
  lemma DecodedFits(kind: Fields, data: seq<octet>)
    ensures Decode(kind, data).Parsed? ==> Fits(Decode(kind, data).fields)
  {
    hide U16, U32;
  }

  /** Data that writing the parsed fields would give again: no byte but 0 and 1 for a truth value, and
      no bytes after the flags that are known. */
  predicate Canonical(kind: Fields, data: seq<octet>) {
    && (kind.Bool? ==> |data| == 1 && data[0] <= 1)
    && (kind.Flags? ==> |data| == 1)
    && (kind.Unknown? ==> data == [])
  }

  lemma Rewrites(kind: Fields, data: seq<octet>)
    requires Decode(kind, data).Parsed?
    ensures Encode(Decode(kind, data).fields) == data <==> Canonical(kind, data)
  {
    match kind {
      case Time(_) =>
        WordBytes(data);
      case Notation(_, _, _) =>
        NotationBytes(data);
      case RevocationKey(_, _, _) =>
        assert data == [data[0], data[1]] + data[2..];
      case RevocationReason(_, _) =>
        assert data == [data[0]] + data[1..];
      case IssuerFingerprint(_, _) =>
        assert data == [data[0]] + data[1..];
      case _ =>
    }
  }

  lemma WordBytes(data: seq<octet>)
    requires |data| == 4
    ensures Be32(U32(data, 0)) == data
  {
    var n := U32(data, 0);
    var a, b, c, d := data[0] as nat, data[1] as nat, data[2] as nat, data[3] as nat;
    var high, top := (a * 256 + b) * 256 + c, a * 256 + b;
    assert n == high * 256 + d && high == top * 256 + c && top == a * 256 + b;
    assert n / 256 == high && high / 256 == top && top / 256 == a;
    assert n / 0x1_0000 == high / 256 && n / 0x100_0000 == top / 256;
  }

  lemma HalfBytes(data: seq<octet>, i: nat)
    requires i + 2 <= |data|
    ensures Be16(U16(data, i)) == data[i..i + 2]
  {
  }

  lemma NotationBytes(data: seq<octet>)
    requires Decode(Notation([], [], []), data).Parsed?
    ensures Encode(Decode(Notation([], [], []), data).fields) == data
  {
    hide Be16, U16;
    HalfBytes(data, 4);
    HalfBytes(data, 6);
    var n := U16(data, 4);
    assert data == data[..4] + data[4..6] + data[6..8] + data[8..8 + n] + data[8 + n..];
  }

  // ----- The object -----

  datatype Cached = Cached(fields: Fields, data: seq<octet>)

  predicate Agrees(s: Cached) {
    Typed(s.fields) && (s.data != [] ==> Decode(s.fields, s.data) == Parsed(s.fields))
  }

  class Sub {
    var fields: Fields
    var data: seq<octet>

    ghost function State(): Cached
      reads this
    {
      Cached(fields, data)
    }

    /** The cache is empty, or parses to the current fields. */
    ghost predicate Coherent()
      reads this
    {
      Agrees(State())
    }

    constructor (f: Fields)
      requires Typed(f)
      ensures Coherent() && fields == f && data == []
    {
      fields, data := f, [];
    }

    /** Raw::parse */
    method Parse(d: seq<octet>) returns (ok: bool)
      requires Typed(fields)
      modifies this
      ensures Typed(fields) && SameKind(old(fields), fields) && (ok ==> Coherent())
      ensures ok <==> Decode(old(fields), d).Parsed?
      ensures ok ==> Parsed(fields) == Decode(old(fields), d) && data == d
      ensures !ok ==> fields == old(fields) && data == old(data)
    {
      var r := Decode(fields, d);
      if r.Refused? {
        return false;
      }
      DecodeKind(fields, r.fields, d);
      fields, data := r.fields, d;
      return true;
    }

    /** A setter: one field changes and the cache is cleared. */
    method Set(f: Fields)
      requires Typed(f) && SameKind(fields, f)
      modifies this
      ensures Coherent() && fields == f && data == []
    {
      fields, data := f, [];
    }

    /** NotationData::set_name, which refuses a name that is too long */
    method SetName(name: seq<octet>) returns (ok: bool)
      requires Typed(fields) && fields.Notation?
      modifies this
      ensures (ok <==> |name| <= 0xffff) && (ok ==> Coherent())
      ensures if ok then fields == old(fields).(name := name) && data == []
              else fields == old(fields) && data == old(data)
    {
      if |name| > 0xffff {
        return false;
      }
      fields, data := fields.(name := name), [];
      return true;
    }

    /** NotationData::set_value */
    method SetContent(content: seq<octet>) returns (ok: bool)
      requires Typed(fields) && fields.Notation?
      modifies this
      ensures (ok <==> |content| <= 0xffff) && (ok ==> Coherent())
      ensures if ok then fields == old(fields).(content := content) && data == []
              else fields == old(fields) && data == old(data)
    {
      if |content| > 0xffff {
        return false;
      }
      fields, data := fields.(content := content), [];
      return true;
    }

    /** NotationData::set_human_readable: the cache stays. If it agreed, it is wrong exactly when there
        was one and the flag changed. */
    method SetHumanReadable(value: bool)
      requires Typed(fields) && fields.Notation?
      modifies this
      ensures fields == old(fields).(flags := HumanReadable(old(fields).flags, value)) && data == old(data)
      ensures old(Coherent()) ==> (Coherent() <==> old(data) == [] || (old(fields).flags[0] >= 0x80) == value)
    {
      ghost var was := fields;
      fields := fields.(flags := HumanReadable(fields.flags, value));
      if data != [] {
        DecodeKind(was, fields, data);
        assert fields.flags == was.flags <==> (was.flags[0] >= 0x80) == value;
      }
    }

    /** Raw::write: the data read back as the fields exactly when the cache agreed and the fields fit. */
    method Write() returns (r: seq<octet>)
      requires Typed(fields)
      modifies this
      ensures fields == old(fields) && r == data == if old(data) == [] then Encode(fields) else old(data)
      ensures Decode(fields, r) == Parsed(fields) <==> old(Coherent()) && Fits(fields)
      ensures old(Coherent()) && Fits(fields) ==> Coherent()
    {
      RoundTrip(fields);
      DecodedFits(fields, data);
      if data == [] {
        data := Encode(fields);
      }
      return data;
    }
  }

  function HumanReadable(flags: seq<octet>, value: bool): (r: seq<octet>)
    requires |flags| == 4
    ensures |r| == 4 && (r[0] >= 0x80 <==> value) && r[0] % 0x80 == flags[0] % 0x80 && r[1..] == flags[1..]
  {
    [flags[0] % 0x80 + if value then 0x80 else 0] + flags[1..]
  }

  /** Set after writing, the flag is not in what is written next. */
  lemma StaleFlag()
    ensures var f := Notation([0, 0, 0, 0], [], []);
            var g := f.(flags := HumanReadable(f.flags, true));
            Decode(g, Encode(f)) == Parsed(f) != Parsed(g)
  {
    hide Decode, Encode;
    var f := Notation([0, 0, 0, 0], [], []);
    RoundTrip(f);
    DecodeKind(f, f.(flags := HumanReadable(f.flags, true)), Encode(f));
  }

  lemma DecodeKind(f: Fields, g: Fields, data: seq<octet>)
    requires SameKind(f, g)
    ensures Decode(f, data) == Decode(g, data)
  {
    hide U16, U32;
  }

  /** A parsed subpacket is written as it was read, canonical or not. */
  method ParseThenWrite(f: Fields, d: seq<octet>) returns (r: seq<octet>)
    requires Typed(f) && Decode(f, d).Parsed?
    ensures r == d
  {
    hide Decode, Encode;
    var sub := new Sub(f);
    var _ := sub.Parse(d);
    if d == [] {
      Rewrites(f, d);
      EmptyCanonical(f);
    }
    r := sub.Write();
  }

  lemma EmptyCanonical(kind: Fields)
    requires Decode(kind, []).Parsed?
    ensures Canonical(kind, [])
  {
  }

  // ----- Types -----

  /** The fields a new subpacket of a type starts with; embedded signatures (32) are not modelled. */
  function Initial(kind: nat): (f: Fields)
    ensures Typed(f)
  {
    match kind
    case 2 => Time(0)
    case 3 => Time(0)
    case 4 => Bool(true)
    case 5 => Trust(0, 0)
    case 6 => Text([])
    case 7 => Bool(true)
    case 9 => Time(0)
    case 11 => Preferred([])
    case 12 => RevocationKey(0, 0, [])
    case 16 => IssuerKeyId([0, 0, 0, 0, 0, 0, 0, 0])
    case 20 => Notation([0, 0, 0, 0], [], [])
    case 21 => Preferred([])
    case 22 => Preferred([])
    case 23 => Flags(0)
    case 24 => Text([])
    case 25 => Bool(false)
    case 26 => Text([])
    case 27 => Flags(0)
    case 28 => Text([])
    case 29 => RevocationReason(0, [])
    case 30 => Flags(0)
    case 33 => IssuerFingerprint(0, [])
    case 34 => Preferred([])
    case 39 => PreferredPairs([])
    case _ => Unknown
  }

  /** Which types each class serves, by number (section 5.2.3.1 of RFC 4880, and three later ones): times (2, 3, 9),
      truth values (4, 7, 25), and so on; every other number is unknown. */
  lemma TypesOfClass(t: nat)
    ensures Initial(t).Time? <==> t in {2, 3, 9}
    ensures Initial(t).Bool? <==> t in {4, 7, 25}
    ensures Initial(t).Trust? <==> t == 5
    ensures Initial(t).Text? <==> t in {6, 24, 26, 28}
    ensures Initial(t).Preferred? <==> t in {11, 21, 22, 34}
    ensures Initial(t).PreferredPairs? <==> t == 39
    ensures Initial(t).RevocationKey? <==> t == 12
    ensures Initial(t).IssuerKeyId? <==> t == 16
    ensures Initial(t).Notation? <==> t == 20
    ensures Initial(t).Flags? <==> t in {23, 27, 30}
    ensures Initial(t).RevocationReason? <==> t == 29
    ensures Initial(t).IssuerFingerprint? <==> t == 33
  {
  }

  /** Raw::create from bytes: a type with a critical bit, then the data. */
  method Create(bytes: seq<octet>) returns (sub: Sub?)
    requires bytes != [] ==> bytes[0] % 0x80 != 32
    ensures sub == null <==>
            || bytes == []
            || (Initial(bytes[0] % 0x80).Unknown? && bytes[0] >= 0x80)
            || Decode(Initial(bytes[0] % 0x80), bytes[1..]).Refused?
    ensures sub != null ==>
              && fresh(sub) && sub.Coherent() && sub.data == bytes[1..]
              && Decode(Initial(bytes[0] % 0x80), bytes[1..]) == Parsed(sub.fields)
  {
    hide Decode, Initial;
    if bytes == [] {
      return null;
    }
    var critical, kind := bytes[0] >= 0x80, bytes[0] % 0x80;
    sub := new Sub(Initial(kind));
    if sub.fields.Unknown? && critical {
      return null;
    }
    var ok := sub.Parse(bytes[1..]);
    if !ok {
      return null;
    }
  }
}
