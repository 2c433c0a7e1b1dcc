/** Writing the keybox format: blobs are built in memory, with offsets and lengths filled in after
    what they describe has been written. */
module KbxWriter {
  import opened Options
  import opened Octets
  import opened Sequences
  import opened Destination
  import opened Kbx

  /** A subkey as the writer needs it: fingerprint, key expiration of each signature, packets. */
  datatype Subkey = Subkey(fp: seq<octet>, expirations: seq<nat>, body: seq<octet>)

  /** A primary key; a listed subkey that is not in the store is None. */
  datatype Entry = Entry(fp: seq<octet>, uids: seq<seq<octet>>, expirations: seq<nat>, body: seq<octet>,
                         subs: seq<Option<Subkey>>)

  // ----- The image, without back-patching -----

  function Fixed(total: nat, off: nat, len: nat, nkeys: nat): (r: seq<octet>)
    ensures |r| == 20
  {
    Be32(total) + [PGP_BLOB] + [1] + Be16(0) + Be32(off) + Be32(len) + Be16(nkeys) + Be16(28)
  }

  /** One key record; `at` is where it starts. */
  function KeyRow(fp: seq<octet>, at: nat): (r: seq<octet>)
    requires 20 <= at
    ensures |r| == |fp| + 8
  {
    fp + Be32(at + |fp| - 8) + Be16(0) + Be16(0)
  }

  function KeyTable(fps: seq<seq<octet>>, at: nat): (r: seq<octet>)
    requires 20 <= at
  {
    if fps == [] then [] else KeyRow(fps[0], at) + KeyTable(fps[1..], at + |fps[0]| + 8)
  }

  function UidRow(e: (nat, nat)): (r: seq<octet>)
    ensures |r| == 12
  {
    Be32(e.0) + Be32(e.1) + Be16(0) + [0, 0]
  }

  function UidTable(es: seq<(nat, nat)>): (r: seq<octet>)
    ensures |r| == 12 * |es|
  {
    if es == [] then [] else UidRow(es[0]) + UidTable(es[1..])
  }

  function ExpTable(exps: seq<nat>): (r: seq<octet>)
    ensures |r| == 4 * |exps|
  {
    if exps == [] then [] else Be32(exps[0]) + ExpTable(exps[1..])
  }

  function Times(now: nat): (r: seq<octet>)
    ensures |r| == 20
  {
    [0] + [0] + Be16(0) + Be32(0) + Be32(now) + Be32(now) + Be32(0)
  }

  /** Where each userid string ends up, the first one at `at`. */
  function UidEntries(uids: seq<seq<octet>>, at: nat): (r: seq<(nat, nat)>)
    ensures |r| == |uids|
  {
    if uids == [] then [] else [(at, |uids[0]|)] + UidEntries(uids[1..], at + |uids[0]|)
  }

  predicate AllPresent(subs: seq<Option<Subkey>>) {
    forall i :: 0 <= i < |subs| ==> subs[i].Some?
  }

  function Fps(subs: seq<Option<Subkey>>): (r: seq<seq<octet>>)
    requires AllPresent(subs)
    ensures |r| == |subs|
  {
    if subs == [] then [] else [subs[0].value.fp] + Fps(subs[1..])
  }

  function SubExpirations(subs: seq<Option<Subkey>>): (r: seq<nat>)
    requires AllPresent(subs)
  {
    if subs == [] then [] else subs[0].value.expirations + SubExpirations(subs[1..])
  }

  function SubBodies(subs: seq<Option<Subkey>>): (r: seq<octet>)
    requires AllPresent(subs)
  {
    if subs == [] then [] else subs[0].value.body + SubBodies(subs[1..])
  }

  /** The packets of the key and its subkeys. */
  function KeyblockOf(k: Entry): (r: seq<octet>)
    requires AllPresent(k.subs)
  {
    k.body + SubBodies(k.subs)
  }

  function Expirations(k: Entry): (r: seq<nat>)
    requires AllPresent(k.subs)
  {
    k.expirations + SubExpirations(k.subs)
  }

  /** Key records, serial number size and userid count, up to the userid records. */
  function Mid(k: Entry): (r: seq<octet>)
    requires AllPresent(k.subs)
  {
    KeyTable([k.fp] + Fps(k.subs), 20) + Be16(0) + Be16(|k.uids|) + Be16(12)
  }

  /** Signature records and what follows, up to the userid strings. */
  function Post(k: Entry, now: nat): (r: seq<octet>)
    requires AllPresent(k.subs)
  {
    Be16(|Expirations(k)|) + Be16(4) + ExpTable(Expirations(k)) + Times(now)
  }

  /** Where the userid strings start. */
  function StringsAt(k: Entry, now: nat): nat
    requires AllPresent(k.subs)
  {
    20 + |Mid(k)| + 12 * |k.uids| + |Post(k, now)|
  }

  /** The blob before its checksum; `base` is the number of bytes written before it. */
  function Unsigned(k: Entry, now: nat, base: nat): (r: seq<octet>)
    requires AllPresent(k.subs)
  {
    var at := StringsAt(k, now);
    var off, len := at + |Flatten(k.uids)|, |KeyblockOf(k)|;
    Fixed(off + len + 20, off, len, 1 + |k.subs|)
    + (Mid(k) + UidTable(UidEntries(k.uids, base + at)) + Post(k, now) + Flatten(k.uids) + KeyblockOf(k))
  }

  type Digest = s: seq<octet> | |s| == 20 witness seq(20, i => 0)

  function PgpImage(k: Entry, now: nat, base: nat, sha1: seq<octet> -> Digest): (r: seq<octet>)
    requires AllPresent(k.subs)
  {
    var u := Unsigned(k, now, base);
    u + sha1(u)
  }

  predicate Writable(k: Entry, now: nat, base: nat, sha1: seq<octet> -> Digest) {
    AllPresent(k.subs) && |PgpImage(k, now, base, sha1)| <= BLOB_SIZE_LIMIT
  }

  lemma UnsignedSize(k: Entry, now: nat, base: nat)
    requires AllPresent(k.subs)
    ensures |Unsigned(k, now, base)| == StringsAt(k, now) + |Flatten(k.uids)| + |KeyblockOf(k)|
  {
    hide Mid, Post, Flatten, KeyblockOf, UidTable, UidEntries, Fixed;
  }

  // ----- The memory destination -----

  class Memory {
    var mem: seq<octet>

    constructor ()
      ensures mem == []
    {
      mem := [];
    }

    /** pbuf: fails when the blob would get too large. */
    method Put(b: seq<octet>) returns (ok: bool)
      modifies this
      ensures ok <==> |old(mem)| + |b| <= BLOB_SIZE_LIMIT
      ensures mem == if ok then old(mem) + b else old(mem)
    {
      ok := |mem| + |b| <= BLOB_SIZE_LIMIT;
      if ok {
        mem := mem + b;
      }
    }

    /** write_uint32 into the buffer */
    method Patch(at: nat, n: nat)
      requires at + 4 <= |mem|
      modifies this
      ensures mem == Patched(old(mem), at, Be32(n))
    {
      mem := mem[..at] + Be32(n) + mem[at + 4..];
    }

    // ----- Parts of kbx_write_pgp -----

    method PutFixed(nkeys: nat) returns (ok: bool)
      requires mem == []
      modifies this
      ensures ok && mem == Fixed(0, 0, 0, nkeys)
    {
      hide Be16, Be32;
      ok := Put(Be32(0));
      assert mem == Be32(0);
      ok := Put([PGP_BLOB]);
      ok := Put([1]);
      ok := Put(Be16(0));
      ok := Put(Be32(0));
      ok := Put(Be32(0));
      ok := Put(Be16(nkeys));
      ok := Put(Be16(28));
    }

    method PutKeyRow(fp: seq<octet>) returns (ok: bool)
      requires 20 <= |mem|
      modifies this
      ensures ok <==> |old(mem)| + |KeyRow(fp, |old(mem)|)| <= BLOB_SIZE_LIMIT
      ensures ok ==> mem == old(mem) + KeyRow(fp, |old(mem)|)
    {
      hide Be16, Be32;
      ghost var was := mem;
      ok := Put(fp);
      if !ok {
        return;
      }
      ok := Put(Be32(|mem| - 8));
      if !ok {
        return;
      }
      ok := Put(Be16(0));
      if !ok {
        return;
      }
      ok := Put(Be16(0));
      if ok {
        assert mem == was + (fp + Be32(|was| + |fp| - 8) + Be16(0) + Be16(0));
      }
    }

    /** The key records, and the expirations of the subkeys' signatures. */
    method PutKeyRows(k: Entry) returns (ok: bool, exps: seq<nat>)
      requires |mem| == 20
      modifies this
      ensures ok <==> AllPresent(k.subs) && 20 + |KeyTable([k.fp] + Fps(k.subs), 20)| <= BLOB_SIZE_LIMIT
      ensures ok ==> mem == old(mem) + KeyTable([k.fp] + Fps(k.subs), 20) && exps == SubExpirations(k.subs)
    {
      hide KeyRow, KeyTable;
      exps := [];
      ok := PutKeyRow(k.fp);
      KeyTableSingle(k.fp, 20);
      if AllPresent(k.subs) {
        KeyTableAppend([k.fp], Fps(k.subs), 20);
      }
      if !ok {
        return;
      }
      assert k.subs[..0] == [] && [k.fp] + [] == [k.fp];
      for i := 0 to |k.subs|
        invariant AllPresent(k.subs[..i])
        invariant mem == old(mem) + KeyTable([k.fp] + Fps(k.subs[..i]), 20) && |mem| <= BLOB_SIZE_LIMIT
        invariant exps == SubExpirations(k.subs[..i])
      {
        if k.subs[i].None? {
          return false, exps;
        }
        var sub := k.subs[i].value;
        KeyTableNext(k, i);
        ok := PutKeyRow(sub.fp);
        if !ok {
          return;
        }
        exps := exps + sub.expirations;
      }
      assert k.subs[..|k.subs|] == k.subs;
      ok := true;
    }

    /** Userid records, still empty. */
    method PutUidRows(n: nat) returns (ok: bool)
      requires |mem| <= BLOB_SIZE_LIMIT
      modifies this
      ensures ok <==> |old(mem)| + 12 * n <= BLOB_SIZE_LIMIT
      ensures ok ==> mem == old(mem) + UidTable(Zeros(n))
    {
      hide Be16, Be32, UidRow;
      ok := true;
      for i := 0 to n
        invariant mem == old(mem) + UidTable(Zeros(i)) && |mem| <= BLOB_SIZE_LIMIT
      {
        ok := PutUidRow();
        if !ok {
          return;
        }
        ZerosNext(i);
      }
      ok := true;
    }

    method PutUidRow() returns (ok: bool)
      modifies this
      ensures ok <==> |old(mem)| + 12 <= BLOB_SIZE_LIMIT
      ensures ok ==> mem == old(mem) + UidRow((0, 0))
    {
      hide Be16, Be32;
      ghost var was := mem;
      ok := Put(Be32(0));
      if !ok {
        return;
      }
      ok := Put(Be32(0));
      if !ok {
        return;
      }
      ok := Put(Be16(0));
      if !ok {
        return;
      }
      ok := Put([0]);
      if !ok {
        return;
      }
      ok := Put([0]);
      if ok {
        assert mem == was + (Be32(0) + Be32(0) + Be16(0) + [0, 0]);
      }
    }

    method PutNumbers(exps: seq<nat>) returns (ok: bool)
      requires |mem| <= BLOB_SIZE_LIMIT
      modifies this
      ensures ok <==> |old(mem)| + 4 * |exps| <= BLOB_SIZE_LIMIT
      ensures ok ==> mem == old(mem) + ExpTable(exps)
    {
      hide Be32;
      ok := true;
      assert exps[..0] == [];
      for i := 0 to |exps|
        invariant mem == old(mem) + ExpTable(exps[..i]) && |mem| <= BLOB_SIZE_LIMIT
      {
        ok := Put(Be32(exps[i]));
        if !ok {
          return;
        }
        ExpTableNext(exps, i);
      }
      assert exps[..|exps|] == exps;
      ok := true;
    }

    /** Signature records, trust and times. */
    method PutPost(k: Entry, exps: seq<nat>, now: nat) returns (ok: bool)
      requires AllPresent(k.subs) && exps == SubExpirations(k.subs) && |mem| <= BLOB_SIZE_LIMIT
      modifies this
      ensures ok <==> |old(mem)| + |Post(k, now)| <= BLOB_SIZE_LIMIT
      ensures ok ==> mem == old(mem) + Post(k, now)
    {
      hide Be16, Be32, ExpTable, Times;
      ghost var was, rows := mem, Be16(|Expirations(k)|) + Be16(4) + ExpTable(Expirations(k));
      ExpTableAppend(k.expirations, exps);
      ok := PutSigRows(k.expirations, exps);
      if !ok {
        return;
      }
      ok := PutTimes(now);
      assert was + rows + Times(now) == was + (rows + Times(now));
    }

    method PutSigRows(own: seq<nat>, exps: seq<nat>) returns (ok: bool)
      requires |mem| <= BLOB_SIZE_LIMIT
      modifies this
      ensures ok <==> |old(mem)| + 4 + 4 * |own + exps| <= BLOB_SIZE_LIMIT
      ensures ok ==> mem == old(mem) + (Be16(|own + exps|) + Be16(4) + ExpTable(own + exps))
    {
      hide Be16, ExpTable;
      ghost var was, n := mem, |own| + |exps|;
      ExpTableAppend(own, exps);
      ok := Put(Be16(|own| + |exps|));
      if !ok {
        return;
      }
      ok := Put(Be16(4));
      if !ok {
        return;
      }
      ok := PutNumbers(own);
      if !ok {
        return;
      }
      ok := PutNumbers(exps);
      if ok {
        AssocRows(was, Be16(n), Be16(4), ExpTable(own), ExpTable(exps));
      }
    }

    method PutTimes(now: nat) returns (ok: bool)
      modifies this
      ensures ok <==> |old(mem)| + 20 <= BLOB_SIZE_LIMIT
      ensures ok ==> mem == old(mem) + Times(now)
    {
      hide Be16, Be32;
      ghost var was := mem;
      ok := Put([0]);
      if !ok {
        return;
      }
      ok := Put([0]);
      if !ok {
        return;
      }
      ok := Put(Be16(0));
      if !ok {
        return;
      }
      ok := Put(Be32(0));
      if !ok {
        return;
      }
      ok := Put(Be32(now));
      if !ok {
        return;
      }
      ok := Put(Be32(now));
      if !ok {
        return;
      }
      ok := Put(Be32(0));
      if ok {
        AssocSeven(was, [0], [0], Be16(0), Be32(0), Be32(now), Be32(now), Be32(0));
      }
    }

    /** The userid strings; each one's record is filled in as it is written. */
    method PutStrings(uids: seq<seq<octet>>, start: nat, base: nat, ghost a: seq<octet>, ghost c: seq<octet>)
      returns (ok: bool)
      requires |a| == start && mem == a + UidTable(Zeros(|uids|)) + c && |mem| <= BLOB_SIZE_LIMIT
      modifies this
      ensures ok <==> |old(mem)| + |Flatten(uids)| <= BLOB_SIZE_LIMIT
      ensures ok ==> mem == a + UidTable(UidEntries(uids, base + |old(mem)|)) + c + Flatten(uids)
    {
      hide UidTable, UidEntries, Flatten;
      ghost var at := |mem|;
      ghost var all := UidEntries(uids, base + at);
      ghost var es: seq<(nat, nat)> := Zeros(|uids|);
      FlattenNone(uids);
      assert mem == a + UidTable(es) + c + [];
      for i := 0 to |uids|
        invariant |es| == |uids| && es[..i] == all[..i] && |mem| <= BLOB_SIZE_LIMIT
        invariant mem == a + UidTable(es) + c + Flatten(uids[..i]) && |mem| == at + |Flatten(uids[..i])|
      {
        FillRow(start + 12 * i, base + |mem|, |uids[i]|, a, es, c + Flatten(uids[..i]), i);
        UidEntriesAt(uids, base + at, i);
        es := es[i := (base + |mem|, |uids[i]|)];
        FlattenNext(uids, i);
        ghost var before := mem;
        ok := Put(uids[i]);
        if !ok {
          return;
        }
        assert mem == a + UidTable(es) + c + (Flatten(uids[..i]) + uids[i]);
      }
      assert uids[..|uids|] == uids && es == all;
      ok := true;
    }

    /** Filling in one userid record in the middle of what is written. */
    method FillRow(at: nat, offset: nat, len: nat, ghost a: seq<octet>, ghost es: seq<(nat, nat)>, ghost c: seq<octet>,
                   ghost i: nat)
      requires i < |es| && at == |a| + 12 * i && mem == a + UidTable(es) + c
      modifies this
      ensures mem == a + UidTable(es[i := (offset, len)]) + c
    {
      hide UidTable, Be32, Patched;
      Patch(at, offset);
      Patch(at + 4, len);
      PatchInside(a, UidTable(es), c, 12 * i, Be32(offset));
      PatchInside(a, Patched(UidTable(es), 12 * i, Be32(offset)), c, 12 * i + 4, Be32(len));
      PatchUidTable(es, i, offset, len);
    }

    /** Serial number size and userid count. */
    method PutCounts(nuids: nat) returns (ok: bool)
      modifies this
      ensures ok <==> |old(mem)| + 6 <= BLOB_SIZE_LIMIT
      ensures ok ==> mem == old(mem) + Be16(0) + Be16(nuids) + Be16(12)
    {
      hide Be16;
      ok := Put(Be16(0));
      if !ok {
        return;
      }
      ok := Put(Be16(nuids));
      if !ok {
        return;
      }
      ok := Put(Be16(12));
    }

    /** Everything before the userid strings. */
    method PutTables(k: Entry, now: nat) returns (ok: bool, start: nat)
      requires mem == []
      modifies this
      ensures ok <==> AllPresent(k.subs) && StringsAt(k, now) <= BLOB_SIZE_LIMIT
      ensures ok ==> && start == 20 + |Mid(k)| && |mem| == StringsAt(k, now)
                     && mem == Fixed(0, 0, 0, 1 + |k.subs|) + Mid(k) + UidTable(Zeros(|k.uids|)) + Post(k, now)
    {
      hide Fixed, Post, UidTable, KeyTable;
      start := 0;
      ok := PutFixed(1 + |k.subs|);
      var exps;
      ok, exps := PutKeyRows(k);
      if !ok {
        return;
      }
      ok := PutCounts(|k.uids|);
      if !ok {
        return;
      }
      assert mem == Fixed(0, 0, 0, 1 + |k.subs|) + Mid(k);
      start := |mem|;
      ok := PutUidRows(|k.uids|);
      if !ok {
        return;
      }
      ok := PutPost(k, exps, now);
    }

    method PutBodies(k: Entry) returns (ok: bool)
      requires AllPresent(k.subs)
      modifies this
      ensures ok <==> |old(mem)| + |KeyblockOf(k)| <= BLOB_SIZE_LIMIT
      ensures ok ==> mem == old(mem) + KeyblockOf(k)
    {
      hide Bodies, KeyblockOf, AllPresent;
      BodiesEnds(k);
      ghost var was := mem;
      ok := Put(k.body);
      if !ok {
        return;
      }
      for i := 0 to |k.subs|
        invariant mem == was + Bodies(k, i) && |mem| <= BLOB_SIZE_LIMIT
      {
        ok := PutBody(k, i, was);
        if !ok {
          return;
        }
      }
      ok := true;
    }

    method PutBody(k: Entry, i: nat, ghost was: seq<octet>) returns (ok: bool)
      requires AllPresent(k.subs) && i < |k.subs| && mem == was + Bodies(k, i)
      modifies this
      ensures ok ==> mem == was + Bodies(k, i + 1) && |mem| <= BLOB_SIZE_LIMIT
      ensures !ok ==> |was| + |KeyblockOf(k)| > BLOB_SIZE_LIMIT
    {
      hide Bodies, KeyblockOf;
      BodiesNext(k, i);
      var body := k.subs[i].value.body;
      Assoc(was, Bodies(k, i), body);
      ok := Put(body);
    }

    /** The packets, with offset and length put in their places near the start. */
    method PutKeyblock(k: Entry, ghost n: nat, ghost rest: seq<octet>) returns (ok: bool)
      requires AllPresent(k.subs) && mem == Fixed(0, 0, 0, n) + rest && |mem| <= BLOB_SIZE_LIMIT
      modifies this
      ensures ok <==> |old(mem)| + |KeyblockOf(k)| <= BLOB_SIZE_LIMIT
      ensures ok ==> mem == Fixed(0, |old(mem)|, |KeyblockOf(k)|, n) + rest + KeyblockOf(k)
    {
      hide Fixed, Patched, KeyblockOf;
      var start := |mem|;
      Patch(8, start);
      PatchStart(Fixed(0, 0, 0, n), rest, 8, Be32(start));
      PatchFixed(0, 0, 0, n, start);
      ghost var f := Fixed(0, start, 0, n);
      ok := PutBodies(k);
      if !ok {
        return;
      }
      assert f + rest + KeyblockOf(k) == f + (rest + KeyblockOf(k));
      Patch(12, |mem| - start);
      PatchStart(f, rest + KeyblockOf(k), 12, Be32(|KeyblockOf(k)|));
      PatchFixed(0, start, 0, n, |KeyblockOf(k)|);
      assert mem == Fixed(0, start, |KeyblockOf(k)|, n) + rest + KeyblockOf(k);
      ok := true;
    }

    /** Blob length and checksum. */
    method Seal(sha1: seq<octet> -> Digest, ghost off: nat, ghost len: nat, ghost n: nat, ghost rest: seq<octet>)
      returns (ok: bool)
      requires mem == Fixed(0, off, len, n) + rest
      modifies this
      ensures ok <==> |old(mem)| + 20 <= BLOB_SIZE_LIMIT
      ensures ok ==> var u := Fixed(20 + |rest| + 20, off, len, n) + rest;
                     mem == u + sha1(u)
    {
      hide Fixed, Patched;
      Patch(0, |mem| + 20);
      PatchStart(Fixed(0, off, len, n), rest, 0, Be32(20 + |rest| + 20));
      PatchFixed(0, off, len, n, 20 + |rest| + 20);
      ok := Put(sha1(mem));
    }
  }

  /** kbx_write_pgp: `base` bytes have been written to the destination before. */
  method WritePgp(k: Entry, now: nat, base: nat, sha1: seq<octet> -> Digest) returns (ok: bool, blob: seq<octet>)
    ensures ok <==> Writable(k, now, base, sha1)
    ensures ok ==> blob == PgpImage(k, now, base, sha1)
  {
    hide Fixed, Mid, Post, UidTable, UidEntries, Flatten, KeyblockOf;
    blob := [];
    var mem := new Memory();
    var start;
    if AllPresent(k.subs) {
      UnsignedSize(k, now, base);
    }
    ok, start := mem.PutTables(k, now);
    if !ok {
      return;
    }
    ghost var n, at := 1 + |k.subs|, StringsAt(k, now);
    ghost var off, len, post := at + |Flatten(k.uids)|, |KeyblockOf(k)|, Post(k, now);
    ok := mem.PutStrings(k.uids, start, base, Fixed(0, 0, 0, n) + Mid(k), post);
    if !ok {
      return;
    }
    ghost var t := UidTable(UidEntries(k.uids, base + at));
    ghost var rest := Mid(k) + t + post + Flatten(k.uids);
    AssocFive(Fixed(0, 0, 0, n), Mid(k), t, post, Flatten(k.uids));
    ok := mem.PutKeyblock(k, n, rest);
    if !ok {
      return;
    }
    assert mem.mem == Fixed(0, off, len, n) + (rest + KeyblockOf(k));
    ok := mem.Seal(sha1, off, len, n, rest + KeyblockOf(k));
    blob := mem.mem;
  }

  // ----- The file -----

  /** A key of the store; subkeys are written with their primary key. */
  datatype Listed = Primary(entry: Entry) | Sub

  function HeaderImage(created: nat, now: nat): (r: seq<octet>)
    ensures |r| == BLOB_FIRST_SIZE
  {
    Be32(BLOB_FIRST_SIZE) + [HEADER_BLOB, 1] + Be16(0) + MAGIC + Be32(0) + Be32(0) + Be32(created) + Be32(now) + Be32(0)
  }

  /** The creation time of the file that was loaded is kept. */
  function CreatedAt(blobs: seq<Blob>, now: nat): (r: nat) {
    if blobs != [] && blobs[0].Header? then blobs[0].fileCreatedAt else now
  }

  /** The blobs of the primary keys. Each is built with the byte count that the destination has then. */
  function PgpImages(keys: seq<Listed>, now: nat, c: Count, sha1: seq<octet> -> Digest): (r: Option<seq<octet>>)
    requires Sane(c)
    decreases |keys|
  {
    if keys == [] then Some([])
    else if keys[0].Sub? then PgpImages(keys[1..], now, c, sha1)
    else if !Writable(keys[0].entry, now, c.sent, sha1) then None
    else
      var im := PgpImage(keys[0].entry, now, c.sent, sha1);
      var rest := PgpImages(keys[1..], now, Advance(c, |im|), sha1);
      if rest.None? then None else Some(im + rest.value)
  }

  predicate IsX509(b: Blob) {
    b.Plain? && |b.image| > 4 && b.image[4] == X509_BLOB
  }

  function X509Blobs(blobs: seq<Blob>): (r: seq<Blob>)
    ensures forall b :: b in r <==> b in blobs && b.Plain? && |b.image| >= 5 && b.image[4] == 3
  {
    if blobs == [] then [] else (if IsX509(blobs[0]) then [blobs[0]] else []) + X509Blobs(blobs[1..])
  }

  /** A new destination after the header. */
  function HeaderCount(direct: bool): (c: Count)
    ensures Sane(c)
  {
    Advance(Count(direct, 0, 0), BLOB_FIRST_SIZE)
  }

  function FileImage(blobs: seq<Blob>, keys: seq<Listed>, now: nat, sha1: seq<octet> -> Digest, direct: bool)
    : (r: Option<seq<octet>>)
  {
    var pgp := PgpImages(keys, now, HeaderCount(direct), sha1);
    if pgp.None? then None
    else Some(HeaderImage(CreatedAt(blobs, now), now) + pgp.value + Images(X509Blobs(blobs)))
  }

  /** KeyStore::write_kbx, to a new destination with or without a cache */
  method WriteKbx(blobs: seq<Blob>, keys: seq<Listed>, now: nat, sha1: seq<octet> -> Digest, direct: bool)
    returns (ok: bool, dst: Output)
    ensures fresh(dst) && dst.Valid()
    ensures ok <==> FileImage(blobs, keys, now, sha1, direct).Some?
    ensures ok ==> dst.Content() == FileImage(blobs, keys, now, sha1, direct).value
  {
    hide HeaderImage, PgpImages, CreatedAt;
    dst := new Output(direct);
    WriteHeader(blobs, now, dst);
    ok := WriteKeys(keys, now, sha1, dst);
    if ok {
      WriteX509(blobs, dst);
    }
  }

  /** The loop over the primary keys. */
  method WriteKeys(keys: seq<Listed>, now: nat, sha1: seq<octet> -> Digest, dst: Output) returns (ok: bool)
    requires dst.Valid()
    modifies dst, dst.cache
    ensures dst.Valid()
    ensures ok <==> PgpImages(keys, now, old(dst.Counts()), sha1).Some?
    ensures ok ==> dst.Content() == old(dst.Content()) + PgpImages(keys, now, old(dst.Counts()), sha1).value
  {
    hide PgpImages, PgpImage, Writable, Advance;
    ghost var was, all := dst.Content(), PgpImages(keys, now, dst.Counts(), sha1);
    assert keys[0..] == keys;
    for i := 0 to |keys|
      invariant dst.Valid()
      invariant var rest := PgpImages(keys[i..], now, dst.Counts(), sha1);
                && (all.Some? <==> rest.Some?)
                && (all.Some? ==> dst.Content() + rest.value == was + all.value)
    {
      PgpImagesNext(keys, i, now, dst.Counts(), sha1);
      if keys[i].Primary? {
        ghost var before := dst.Content();
        var blob;
        ok, blob := WritePgp(keys[i].entry, now, dst.writeb, sha1);
        if !ok {
          return;
        }
        dst.Write(blob);
        ghost var rest := PgpImages(keys[i + 1..], now, dst.Counts(), sha1);
        if rest.Some? {
          Assoc(before, blob, rest.value);
        }
      }
    }
    PgpImagesNone(keys[|keys|..], now, dst.Counts(), sha1);
    assert dst.Content() + [] == dst.Content();
    ok := true;
  }

  lemma PgpImagesNext(keys: seq<Listed>, i: nat, now: nat, c: Count, sha1: seq<octet> -> Digest)
    requires Sane(c) && i < |keys|
    ensures PgpImages(keys[i..], now, c, sha1)
            == if keys[i].Sub? then PgpImages(keys[i + 1..], now, c, sha1)
               else if !Writable(keys[i].entry, now, c.sent, sha1) then None
               else
                 var im := PgpImage(keys[i].entry, now, c.sent, sha1);
                 var rest := PgpImages(keys[i + 1..], now, Advance(c, |im|), sha1);
                 if rest.None? then None else Some(im + rest.value)
  {
    hide PgpImage, Writable, Advance;
    assert keys[i..][1..] == keys[i + 1..];
  }

  lemma PgpImagesNone(keys: seq<Listed>, now: nat, c: Count, sha1: seq<octet> -> Digest)
    requires Sane(c) && keys == []
    ensures PgpImages(keys, now, c, sha1) == Some([])
  {
  }

  /** kbx_write_header */
  method WriteHeader(blobs: seq<Blob>, now: nat, dst: Output)
    requires dst.Valid() && dst.Content() == [] && dst.Counts() == Count(dst.direct, 0, 0)
    modifies dst, dst.cache
    ensures dst.Valid() && dst.Content() == HeaderImage(CreatedAt(blobs, now), now)
    ensures dst.Counts() == HeaderCount(dst.direct)
  {
    hide Be32, Be16, Advance, HeaderCount;
    var created := now;
    if blobs != [] && blobs[0].Header? {
      created := blobs[0].fileCreatedAt;
    }
    ghost var c := Count(dst.direct, 0, 0);
    AdvanceNone(c);
    PutField(Be32(BLOB_FIRST_SIZE), dst, c);
    PutField([HEADER_BLOB], dst, c);
    PutField([1], dst, c);
    PutField(Be16(0), dst, c);
    PutField(MAGIC, dst, c);
    PutField(Be32(0), dst, c);
    PutField(Be32(0), dst, c);
    PutField(Be32(created), dst, c);
    PutField(Be32(now), dst, c);
    PutField(Be32(0), dst, c);
    HeaderFields(created, now);
    HeaderCountIs(dst.direct);
  }

  lemma HeaderCountIs(direct: bool)
    ensures HeaderCount(direct) == Advance(Count(direct, 0, 0), BLOB_FIRST_SIZE)
  {
  }

  lemma HeaderFields(created: nat, now: nat)
    ensures [] + Be32(BLOB_FIRST_SIZE) + [HEADER_BLOB] + [1] + Be16(0) + MAGIC + Be32(0) + Be32(0)
            + Be32(created) + Be32(now) + Be32(0) == HeaderImage(created, now)
  {
    hide Be32, Be16;
    assert [] + Be32(BLOB_FIRST_SIZE) == Be32(BLOB_FIRST_SIZE);
    Assoc(Be32(BLOB_FIRST_SIZE), [HEADER_BLOB], [1]);
    assert [HEADER_BLOB] + [1] == [HEADER_BLOB, 1];
  }

  /** A small field at the start of a new destination. */
  method PutField(b: seq<octet>, dst: Output, ghost c: Count)
    requires dst.Valid() && c == Count(dst.direct, 0, 0) && |dst.Content()| + |b| <= CACHE
    requires dst.Counts() == Advance(c, |dst.Content()|)
    modifies dst, dst.cache
    ensures dst.Valid() && dst.Content() == old(dst.Content()) + b && dst.Counts() == Advance(c, |dst.Content()|)
  {
    hide Advance;
    AdvanceTwice(c, |dst.Content()|, |b|);
    dst.Write(b);
  }

  /** kbx_write_x509 */
  method WriteX509(blobs: seq<Blob>, dst: Output)
    requires dst.Valid()
    modifies dst, dst.cache
    ensures dst.Valid() && dst.Content() == old(dst.Content()) + Images(X509Blobs(blobs))
  {
    hide Advance;
    ghost var before := dst.Content();
    for i := 0 to |blobs|
      invariant dst.Valid() && dst.Content() + Images(X509Blobs(blobs[i..])) == before + Images(X509Blobs(blobs))
    {
      assert blobs[i..][1..] == blobs[i + 1..];
      ghost var rest, out := X509Blobs(blobs[i + 1..]), dst.Content();
      if blobs[i].Plain? && |blobs[i].image| > 4 && blobs[i].image[4] == X509_BLOB {
        assert ([blobs[i]] + rest)[1..] == rest;
        Assoc(out, blobs[i].image, Images(rest));
        dst.Write(blobs[i].image);
      } else {
        assert [] + rest == rest;
      }
    }
  }

  lemma AssocFive(a: seq<octet>, b: seq<octet>, c: seq<octet>, d: seq<octet>, e: seq<octet>)
    ensures a + b + c + d + e == a + (b + c + d + e)
  {
  }

  lemma Assoc(a: seq<octet>, b: seq<octet>, c: seq<octet>)
    ensures a + b + c == a + (b + c)
  {
  }

  lemma AssocRows(a: seq<octet>, b: seq<octet>, c: seq<octet>, d: seq<octet>, e: seq<octet>)
    ensures a + b + c + d + e == a + (b + c + (d + e))
  {
  }

  lemma AssocSeven(w: seq<octet>, a: seq<octet>, b: seq<octet>, c: seq<octet>, d: seq<octet>, e: seq<octet>,
                   f: seq<octet>, g: seq<octet>)
    ensures w + a + b + c + d + e + f + g == w + (a + b + c + d + e + f + g)
  {
    AssocFive(w, a, b, c, d);
    AssocFive(w, a + b + c + d, e, f, g);
  }

  lemma PatchStart(p: seq<octet>, c: seq<octet>, at: nat, b: seq<octet>)
    requires at + |b| <= |p|
    ensures at + |b| <= |p + c| && Patched(p + c, at, b) == Patched(p, at, b) + c
  {
    hide Patched;
    assert [] + p + c == p + c && [] + Patched(p, at, b) + c == Patched(p, at, b) + c;
    PatchInside([], p, c, at, b);
  }

  function Zeros(n: nat): (r: seq<(nat, nat)>)
    ensures |r| == n
  {
    seq(n, i => (0, 0))
  }

  lemma ZerosNext(i: nat)
    ensures UidTable(Zeros(i + 1)) == UidTable(Zeros(i)) + UidRow((0, 0))
  {
    hide UidRow;
    assert Zeros(i + 1) == Zeros(i) + [(0, 0)];
    UidTableAppend(Zeros(i), [(0, 0)]);
    assert [(0, 0)][1..] == [];
  }

  lemma {:induction false} UidTableAppend(a: seq<(nat, nat)>, b: seq<(nat, nat)>)
    ensures UidTable(a + b) == UidTable(a) + UidTable(b)
  {
    hide UidRow;
    if a == [] {
      assert a + b == b;
    } else {
      assert (a + b)[1..] == a[1..] + b;
      UidTableAppend(a[1..], b);
    }
  }

  lemma UidTableAt(es: seq<(nat, nat)>, i: nat)
    requires i < |es|
    ensures UidTable(es) == UidTable(es[..i]) + UidRow(es[i]) + UidTable(es[i + 1..])
  {
    hide UidTable, UidRow;
    assert es == es[..i] + es[i..];
    UidTableAppend(es[..i], es[i..]);
    UidTableFirst(es[i..]);
    assert es[i..][1..] == es[i + 1..];
  }

  lemma UidTableFirst(es: seq<(nat, nat)>)
    requires es != []
    ensures UidTable(es) == UidRow(es[0]) + UidTable(es[1..])
  {
    hide UidRow;
  }

  lemma PatchUidTable(es: seq<(nat, nat)>, i: nat, offset: nat, len: nat)
    requires i < |es|
    ensures Patched(Patched(UidTable(es), 12 * i, Be32(offset)), 12 * i + 4, Be32(len))
            == UidTable(es[i := (offset, len)])
  {
    hide UidTable, UidRow, Be32, Patched;
    var fs := es[i := (offset, len)];
    var a, r, c := UidTable(es[..i]), UidRow(es[i]), UidTable(es[i + 1..]);
    UidTableAt(es, i);
    UidTableAt(fs, i);
    assert fs[..i] == es[..i] && fs[i + 1..] == es[i + 1..];
    PatchInside(a, r, c, 0, Be32(offset));
    PatchInside(a, Patched(r, 0, Be32(offset)), c, 4, Be32(len));
    PatchUidRow(es[i], offset, len);
  }

  lemma ExpTableNext(exps: seq<nat>, i: nat)
    requires i < |exps|
    ensures ExpTable(exps[..i + 1]) == ExpTable(exps[..i]) + Be32(exps[i])
  {
    hide Be32;
    assert exps[..i + 1] == exps[..i] + [exps[i]];
    ExpTableAppend(exps[..i], [exps[i]]);
    assert [exps[i]][1..] == [];
  }

  lemma {:induction false} ExpTableAppend(a: seq<nat>, b: seq<nat>)
    ensures ExpTable(a + b) == ExpTable(a) + ExpTable(b)
  {
    hide Be32;
    if a == [] {
      assert a + b == b;
    } else {
      assert (a + b)[1..] == a[1..] + b;
      ExpTableAppend(a[1..], b);
    }
  }

  lemma {:induction false} UidEntriesAt(uids: seq<seq<octet>>, at: nat, i: nat)
    requires i < |uids|
    ensures UidEntries(uids, at)[i] == (at + |Flatten(uids[..i])|, |uids[i]|)
    decreases i
  {
    if i > 0 {
      UidEntriesAt(uids[1..], at + |uids[0]|, i - 1);
      assert uids[..i] == [uids[0]] + uids[1..][..i - 1];
      assert uids[..i][1..] == uids[1..][..i - 1];
    }
  }

  lemma {:induction false} KeyTableAppend(a: seq<seq<octet>>, b: seq<seq<octet>>, at: nat)
    requires 20 <= at
    ensures KeyTable(a + b, at) == KeyTable(a, at) + KeyTable(b, at + |KeyTable(a, at)|)
    decreases |a|
  {
    hide KeyRow;
    if a == [] {
      assert a + b == b;
    } else {
      assert (a + b)[1..] == a[1..] + b;
      KeyTableAppend(a[1..], b, at + |a[0]| + 8);
    }
  }

  lemma {:induction false} SubsAppend(a: seq<Option<Subkey>>, b: seq<Option<Subkey>>)
    requires AllPresent(a) && AllPresent(b)
    ensures AllPresent(a + b)
    ensures Fps(a + b) == Fps(a) + Fps(b)
    ensures SubExpirations(a + b) == SubExpirations(a) + SubExpirations(b)
    ensures SubBodies(a + b) == SubBodies(a) + SubBodies(b)
  {
    hide Fps, SubExpirations, SubBodies;
    if a == [] {
      assert a + b == b;
      NoSubs(a);
    } else {
      assert (a + b)[1..] == a[1..] + b && (a + b)[0] == a[0];
      SubsAppend(a[1..], b);
      FirstSub(a);
      FirstSub(a + b);
    }
  }

  lemma NoSubs(a: seq<Option<Subkey>>)
    requires a == []
    ensures Fps(a) == [] && SubExpirations(a) == [] && SubBodies(a) == []
  {
  }

  lemma FirstSub(a: seq<Option<Subkey>>)
    requires a != [] && AllPresent(a)
    ensures AllPresent(a[1..])
    ensures Fps(a) == [a[0].value.fp] + Fps(a[1..])
    ensures SubExpirations(a) == a[0].value.expirations + SubExpirations(a[1..])
    ensures SubBodies(a) == a[0].value.body + SubBodies(a[1..])
  {
  }

  /** The packets of the key and its first `n` subkeys. */
  function Bodies(k: Entry, n: nat): (r: seq<octet>)
    requires AllPresent(k.subs) && n <= |k.subs|
  {
    k.body + SubBodies(k.subs[..n])
  }

  lemma BodiesEnds(k: Entry)
    requires AllPresent(k.subs)
    ensures Bodies(k, 0) == k.body && Bodies(k, |k.subs|) == KeyblockOf(k) && |k.body| <= |KeyblockOf(k)|
  {
    assert k.subs[..|k.subs|] == k.subs;
  }

  lemma {:induction false} BodiesNext(k: Entry, i: nat)
    requires i < |k.subs| && AllPresent(k.subs)
    ensures Bodies(k, i + 1) == Bodies(k, i) + k.subs[i].value.body && |Bodies(k, i + 1)| <= |KeyblockOf(k)|
  {
    hide SubBodies;
    SubBodiesNext(k.subs, i);
  }

  lemma {:induction false} SubBodiesNext(subs: seq<Option<Subkey>>, i: nat)
    requires i < |subs| && AllPresent(subs)
    ensures SubBodies(subs[..i + 1]) == SubBodies(subs[..i]) + subs[i].value.body
    ensures |SubBodies(subs[..i])| + |subs[i].value.body| <= |SubBodies(subs)|
  {
    hide Fps, SubExpirations;
    var a, b, c := subs[..i], [subs[i]], subs[i + 1..];
    assert subs[..i + 1] == a + b && b[1..] == [] && subs == (a + b) + c;
    SubsAppend(a, b);
    SubsAppend(a + b, c);
  }

  /** The next record, and that it is part of the whole table. */
  lemma KeyTableNext(k: Entry, i: nat)
    requires i < |k.subs| && AllPresent(k.subs[..i]) && k.subs[i].Some?
    ensures AllPresent(k.subs[..i + 1])
    ensures var t := KeyTable([k.fp] + Fps(k.subs[..i]), 20);
            var sub := k.subs[i].value;
            && KeyTable([k.fp] + Fps(k.subs[..i + 1]), 20) == t + KeyRow(sub.fp, 20 + |t|)
            && SubExpirations(k.subs[..i + 1]) == SubExpirations(k.subs[..i]) + sub.expirations
            && (AllPresent(k.subs) ==> |t| + |KeyRow(sub.fp, 20 + |t|)| <= |KeyTable([k.fp] + Fps(k.subs), 20)|)
  {
    hide KeyRow, KeyTable;
    var a, b := k.subs[..i], [k.subs[i]];
    assert k.subs[..i + 1] == a + b;
    assert b[1..] == [];
    SubsAppend(a, b);
    assert Fps(b) == [k.subs[i].value.fp];
    assert [k.fp] + Fps(a + b) == [k.fp] + Fps(a) + Fps(b);
    KeyTableAppend([k.fp] + Fps(a), Fps(b), 20);
    KeyTableSingle(k.subs[i].value.fp, 20 + |KeyTable([k.fp] + Fps(a), 20)|);
    if AllPresent(k.subs) {
      var c := k.subs[i + 1..];
      assert k.subs == (a + b) + c;
      SubsAppend(a + b, c);
      assert [k.fp] + Fps(k.subs) == [k.fp] + Fps(a + b) + Fps(c);
      KeyTableAppend([k.fp] + Fps(a + b), Fps(c), 20);
    }
  }

  lemma KeyTableSingle(fp: seq<octet>, at: nat)
    requires 20 <= at
    ensures KeyTable([fp], at) == KeyRow(fp, at)
  {
    hide KeyRow;
    assert [fp][1..] == [];
  }

  function Patched(s: seq<octet>, at: nat, b: seq<octet>): (r: seq<octet>)
    requires at + |b| <= |s|
    ensures |r| == |s|
  {
    s[..at] + b + s[at + |b|..]
  }

  lemma PatchInside(a: seq<octet>, p: seq<octet>, c: seq<octet>, at: nat, b: seq<octet>)
    requires at + |b| <= |p|
    ensures Patched(a + p + c, |a| + at, b) == a + Patched(p, at, b) + c
  {
    var s := a + p + c;
    assert s[..|a| + at] == a + p[..at];
    assert s[|a| + at + |b|..] == p[at + |b|..] + c;
  }

  lemma PatchPart(a: seq<octet>, x: seq<octet>, c: seq<octet>, b: seq<octet>)
    requires |x| == |b|
    ensures Patched(a + x + c, |a|, b) == a + b + c
  {
    var s := a + x + c;
    assert s[..|a|] == a && s[|a| + |b|..] == c;
  }

  lemma PatchFixed(t: nat, o: nat, l: nat, n: nat, v: nat)
    ensures Patched(Fixed(t, o, l, n), 0, Be32(v)) == Fixed(v, o, l, n)
    ensures Patched(Fixed(t, o, l, n), 8, Be32(v)) == Fixed(t, v, l, n)
    ensures Patched(Fixed(t, o, l, n), 12, Be32(v)) == Fixed(t, o, v, n)
  {
    hide Be32, Be16, Patched, Fixed;
    var kind, tail := [PGP_BLOB] + [1] + Be16(0), Be16(n) + Be16(28);
    FixedParts(t, o, l, n);
    FixedParts(v, o, l, n);
    FixedParts(t, v, l, n);
    FixedParts(t, o, v, n);
    PatchPart([], Be32(t), kind + Be32(o) + Be32(l) + tail, Be32(v));
    PatchPart(Be32(t) + kind, Be32(o), Be32(l) + tail, Be32(v));
    PatchPart(Be32(t) + kind + Be32(o), Be32(l), tail, Be32(v));
  }

  /** The fixed part, cut before and behind each of its three 32-bit numbers. */
  lemma FixedParts(t: nat, o: nat, l: nat, n: nat)
    ensures var kind, tail := [PGP_BLOB] + [1] + Be16(0), Be16(n) + Be16(28);
            && Fixed(t, o, l, n) == [] + Be32(t) + (kind + Be32(o) + Be32(l) + tail)
            && Fixed(t, o, l, n) == (Be32(t) + kind) + Be32(o) + (Be32(l) + tail)
            && Fixed(t, o, l, n) == (Be32(t) + kind + Be32(o)) + Be32(l) + tail
  {
    hide Be32, Be16;
  }

  lemma PatchUidRow(e: (nat, nat), at: nat, len: nat)
    ensures Patched(Patched(UidRow(e), 0, Be32(at)), 4, Be32(len)) == UidRow((at, len))
  {
    hide Be32, Be16, Patched;
    var rest := Be16(0) + [0, 0];
    PatchPart([], Be32(e.0), Be32(e.1) + rest, Be32(at));
    PatchPart(Be32(at), Be32(e.1), rest, Be32(len));
    assert UidRow(e) == [] + Be32(e.0) + (Be32(e.1) + rest);
    assert [] + Be32(at) + (Be32(e.1) + rest) == Be32(at) + Be32(e.1) + rest;
    assert UidRow((at, len)) == Be32(at) + Be32(len) + rest;
  }
}
