/** Runs of parsing, setting and writing on one subpacket, and when the last write reads back. */
module SubpacketRun {
  import opened Octets
  import opened Subpacket

  datatype Op =
    | DoParse(bytes: seq<octet>)
    | DoSet(fields: Fields)
    | DoSetName(name: seq<octet>)
    | DoSetContent(content: seq<octet>)
    | DoSetHumanReadable(value: bool)
    | DoWrite

  /** Operations that the class of `kind` has. */
  predicate Applies(op: Op, kind: Fields) {
    match op
    case DoSet(f) => Typed(f) && SameKind(kind, f)
    case DoSetName(_) => kind.Notation?
    case DoSetContent(_) => kind.Notation?
    case DoSetHumanReadable(_) => kind.Notation?
    case _ => true
  }

  function After(s: Cached, op: Op): (t: Cached)
    requires Typed(s.fields) && Applies(op, s.fields)
    ensures Typed(t.fields) && SameKind(s.fields, t.fields)
  {
    match op
    case DoParse(d) =>
      var r := Decode(s.fields, d);
      if r.Parsed? then Cached(r.fields, d) else s
    case DoSet(f) => Cached(f, [])
    case DoSetName(n) => if |n| <= 0xffff then Cached(s.fields.(name := n), []) else s
    case DoSetContent(c) => if |c| <= 0xffff then Cached(s.fields.(content := c), []) else s
    case DoSetHumanReadable(v) => s.(fields := s.fields.(flags := HumanReadable(s.fields.flags, v)))
    case DoWrite => s.(data := Written(s))
  }

  function Written(s: Cached): (r: seq<octet>) {
    if s.data == [] then Encode(s.fields) else s.data
  }

  predicate AllApply(ops: seq<Op>, kind: Fields) {
    forall i :: 0 <= i < |ops| ==> Applies(ops[i], kind)
  }

  lemma AppliesKind(op: Op, f: Fields, g: Fields)
    requires SameKind(f, g)
    ensures Applies(op, f) <==> Applies(op, g)
  {
  }

  function AfterAll(s: Cached, ops: seq<Op>): (t: Cached)
    requires Typed(s.fields) && AllApply(ops, s.fields)
    ensures Typed(t.fields) && SameKind(s.fields, t.fields)
  {
    if ops == [] then s
    else
      var n := |ops| - 1;
      var t := AfterAll(s, ops[..n]);
      AppliesKind(ops[n], s.fields, t.fields);
      After(t, ops[n])
  }

  /** The object does what these functions say. */
  method Perform(sub: Sub, op: Op)
    requires Typed(sub.fields) && Applies(op, sub.fields)
    modifies sub
    ensures Typed(sub.fields) && sub.State() == After(old(sub.State()), op)
  {
    hide Decode, Encode;
    match op {
      case DoParse(d) =>
        var _ := sub.Parse(d);
      case DoSet(f) =>
        sub.Set(f);
      case DoSetName(n) =>
        var _ := sub.SetName(n);
      case DoSetContent(c) =>
        var _ := sub.SetContent(c);
      case DoSetHumanReadable(v) =>
        sub.SetHumanReadable(v);
      case DoWrite =>
        var _ := sub.Write();
    }
  }

  // ----- What every run keeps -----

  /** The human-readable bit as it is in the cache. */
  function WithCachedFlag(s: Cached): (f: Fields)
    requires Typed(s.fields) && s.data != []
  {
    if s.fields.Notation? then s.fields.(flags := HumanReadable(s.fields.flags, s.data[0] >= 0x80)) else s.fields
  }

  /** A cache of fields that fit parses to the current fields, but for that bit. */
  predicate Kept(s: Cached) {
    Typed(s.fields) &&
    (s.data != [] && Fits(s.fields) ==> Decode(s.fields, s.data) == Parsed(WithCachedFlag(s)))
  }

  lemma AfterKept(s: Cached, op: Op)
    requires Kept(s) && Applies(op, s.fields)
    ensures Kept(After(s, op))
  {
    hide Decode, Encode;
    var t := After(s, op);
    if op.DoSetHumanReadable? && s.data != [] {
      DecodeKind(s.fields, t.fields, s.data);
      FlagTwice(s.fields.flags, op.value, s.data[0] >= 0x80);
    } else if op.DoParse? && Decode(s.fields, op.bytes).Parsed? {
      DecodeKind(s.fields, t.fields, t.data);
      FlagAsRead(t);
    } else if op.DoWrite? && s.data == [] && Fits(s.fields) {
      RoundTrip(s.fields);
      FlagAsRead(t);
    }
  }

  lemma FlagTwice(flags: seq<octet>, v: bool, w: bool)
    requires |flags| == 4
    ensures HumanReadable(HumanReadable(flags, v), w) == HumanReadable(flags, w)
  {
  }

  lemma FlagAsRead(s: Cached)
    requires Typed(s.fields) && Decode(s.fields, s.data) == Parsed(s.fields)
    ensures s.data != [] ==> WithCachedFlag(s) == s.fields
  {
    hide U16, U32;
    if s.fields.Notation? && s.data != [] {
      var flags := s.fields.flags;
      assert flags == s.data[..4] && flags[0] == s.data[0];
      assert flags == [flags[0]] + flags[1..];
    }
  }

  lemma {:induction false} RunKept(f: Fields, ops: seq<Op>)
    requires Typed(f) && AllApply(ops, f)
    ensures Kept(AfterAll(Cached(f, []), ops))
    decreases |ops|
  {
    hide Decode, Encode, Kept, After;
    if ops == [] {
      NewKept(f);
    } else {
      var n := |ops| - 1;
      var t := AfterAll(Cached(f, []), ops[..n]);
      RunKept(f, ops[..n]);
      AppliesKind(ops[n], f, t.fields);
      AfterKept(t, ops[n]);
    }
  }

  lemma NewKept(f: Fields)
    requires Typed(f)
    ensures Kept(Cached(f, []))
  {
  }

  /** What a write gives after any run reads back as the fields if and only if they fit the size rule and,
      with a cache there, the human-readable bit is the one in the cache. */
  lemma RunWrites(f: Fields, ops: seq<Op>)
    requires Typed(f) && AllApply(ops, f)
    ensures var s := AfterAll(Cached(f, []), ops);
            Decode(s.fields, Written(s)) == Parsed(s.fields) <==>
              && Fits(s.fields)
              && (s.fields.Notation? && s.data != [] ==> (s.data[0] >= 0x80 <==> s.fields.flags[0] >= 0x80))
  {
    hide Decode, Encode, AfterAll;
    var s := AfterAll(Cached(f, []), ops);
    RunKept(f, ops);
    DecodedFits(s.fields, Written(s));
    if s.data == [] {
      RoundTrip(s.fields);
    } else if s.fields.Notation? {
      SameFlag(s.fields.flags, s.data[0] >= 0x80);
    }
  }

  lemma SameFlag(flags: seq<octet>, v: bool)
    requires |flags| == 4
    ensures HumanReadable(flags, v) == flags <==> (flags[0] >= 0x80 <==> v)
  {
    assert flags == [flags[0]] + flags[1..];
  }

  /** Runs that never set that bit keep the cache right, so their writes read back exactly if the fields fit. */
  lemma {:induction false} RunAgrees(f: Fields, ops: seq<Op>)
    requires Typed(f) && AllApply(ops, f)
    requires forall i :: 0 <= i < |ops| ==> !ops[i].DoSetHumanReadable?
    ensures var s := AfterAll(Cached(f, []), ops);
            && (Fits(s.fields) ==> Agrees(s))
            && (Decode(s.fields, Written(s)) == Parsed(s.fields) <==> Fits(s.fields))
    decreases |ops|
  {
    hide Decode, Encode, After;
    if ops == [] {
      RoundTrip(f);
    } else {
      var n := |ops| - 1;
      var t := AfterAll(Cached(f, []), ops[..n]);
      RunAgrees(f, ops[..n]);
      AppliesKind(ops[n], f, t.fields);
      AfterAgrees(t, ops[n]);
      var s := After(t, ops[n]);
      RoundTrip(s.fields);
      DecodedFits(s.fields, Written(s));
    }
  }

  lemma AfterAgrees(s: Cached, op: Op)
    requires Typed(s.fields) && Applies(op, s.fields) && !op.DoSetHumanReadable? && (Fits(s.fields) ==> Agrees(s))
    ensures var t := After(s, op); Fits(t.fields) ==> Agrees(t)
  {
    hide Decode, Encode;
    var t := After(s, op);
    if op.DoParse? && Decode(s.fields, op.bytes).Parsed? {
      DecodeKind(s.fields, t.fields, t.data);
    } else if op.DoWrite? {
      RoundTrip(s.fields);
    }
  }

  /** A whole run on the object, and the last write. */
  method WriteAfter(f: Fields, ops: seq<Op>) returns (sub: Sub, r: seq<octet>)
    requires Typed(f) && AllApply(ops, f)
    ensures var s := AfterAll(Cached(f, []), ops);
            && sub.fields == s.fields && r == Written(s)
            && (Decode(sub.fields, r) == Parsed(sub.fields) <==>
                  && Fits(s.fields)
                  && (s.fields.Notation? && s.data != [] ==> (s.data[0] >= 0x80 <==> s.fields.flags[0] >= 0x80)))
  {
    hide Decode, Encode, After, Written, Typed, Fits;
    RunWrites(f, ops);
    sub := new Sub(f);
    for i := 0 to |ops|
      invariant fresh(sub) && Typed(sub.fields) && sub.State() == AfterAll(Cached(f, []), ops[..i])
    {
      AppliesKind(ops[i], f, sub.fields);
      assert ops[..i + 1][..i] == ops[..i];
      Perform(sub, ops[i]);
    }
    assert ops[..|ops|] == ops;
    ghost var s := sub.State();
    r := sub.Write();
    WrittenIs(s);
  }

  lemma WrittenIs(s: Cached)
    ensures Written(s) == if s.data == [] then Encode(s.fields) else s.data
  {
  }
}
