/** Reading the keybox format: a cursor over the image of each blob, proved against a description
    of the layout by positions. */
module Kbx {
  import opened Options
  import opened Octets

  const BLOB_SIZE_LIMIT: nat := 5 * 1024 * 1024
  const BLOB_OBJ_LIMIT: nat := 0x8000
  const BLOB_HEADER_SIZE: nat := 5
  const BLOB_FIRST_SIZE: nat := 0x20
  const BLOB_KEY_SIZE: nat := 0x1c
  const BLOB_UID_SIZE: nat := 0x0c
  const BLOB_SIG_SIZE: nat := 4
  const BLOB_VALIDITY_SIZE: nat := 0x10

  const EMPTY_BLOB: octet := 0
  const HEADER_BLOB: octet := 1
  const PGP_BLOB: octet := 2
  const X509_BLOB: octet := 3

  /** "KBXf" */
  const MAGIC: seq<octet> := [0x4b, 0x42, 0x58, 0x66]

  datatype KeyRec = KeyRec(fp: seq<octet>, keyidOffset: nat, flags: nat)
  datatype UidRec = UidRec(offset: nat, length: nat, flags: nat, validity: nat)

  datatype Pgp = Pgp(keyblockOffset: nat, keyblockLength: nat, keys: seq<KeyRec>, sn: seq<octet>,
                     uids: seq<UidRec>, sigs: seq<nat>, timestamp: nat, createdAt: nat)

  datatype Blob =
    | Plain(image: seq<octet>)
    | Header(image: seq<octet>, fileCreatedAt: nat)
    | PgpBlob(image: seq<octet>, pgp: Pgp)

  // ----- Layout by positions -----

  /** End of a table of `n` records of `len` bytes at `at`, if the image holds it. */
  function TableEnd(size: nat, at: nat, n: nat, len: nat): (r: Option<nat>)
    requires at <= size
    ensures r.Some? ==> at <= r.value <= size
    decreases n
  {
    if n == 0 then Some(at) else if size - at < len then None else TableEnd(size, at + len, n - 1, len)
  }

  lemma {:induction false} TableEndIs(size: nat, at: nat, n: nat, len: nat)
    requires at <= size
    ensures TableEnd(size, at, n, len) == if at + n * len <= size then Some(at + n * len) else None
    decreases n
  {
    if n > 0 {
      assert n * len == len + (n - 1) * len;
      assert (n - 1) * len >= 0;
      if size - at >= len {
        TableEndIs(size, at + len, n - 1, len);
      }
    }
  }

  function KeyRecAt(im: seq<octet>, at: nat): KeyRec
    requires at + BLOB_KEY_SIZE <= |im|
  {
    KeyRec(im[at..at + 20], U32(im, at + 20), U16(im, at + 24))
  }

  function UidRecAt(im: seq<octet>, at: nat): UidRec
    requires at + BLOB_UID_SIZE <= |im|
  {
    UidRec(U32(im, at), U32(im, at + 4), U16(im, at + 8), im[at + 10])
  }

  function KeyRecs(im: seq<octet>, at: nat, n: nat, len: nat): (r: seq<KeyRec>)
    requires at <= |im| && TableEnd(|im|, at, n, len).Some? && BLOB_KEY_SIZE <= len
    ensures |r| == n
    decreases n
  {
    if n == 0 then [] else [KeyRecAt(im, at)] + KeyRecs(im, at + len, n - 1, len)
  }

  function UidRecs(im: seq<octet>, at: nat, n: nat, len: nat): (r: seq<UidRec>)
    requires at <= |im| && TableEnd(|im|, at, n, len).Some? && BLOB_UID_SIZE <= len
    ensures |r| == n
    decreases n
  {
    if n == 0 then [] else [UidRecAt(im, at)] + UidRecs(im, at + len, n - 1, len)
  }

  function SigRecs(im: seq<octet>, at: nat, n: nat, len: nat): (r: seq<nat>)
    requires at <= |im| && TableEnd(|im|, at, n, len).Some? && BLOB_SIG_SIZE <= len
    ensures |r| == n
    decreases n
  {
    if n == 0 then [] else [U32(im, at)] + SigRecs(im, at + len, n - 1, len)
  }

  /** Positions of the parts of a PGP blob. */
  datatype Parts = Parts(nkeys: nat, keyLen: nat, sn: nat, snSize: nat, uids: nat, nuids: nat, uidLen: nat,
                         sigs: nat, nsigs: nat, sigLen: nat, validity: nat)

  predicate KeyblockFits(im: seq<octet>)
    requires 20 <= |im|
  {
    var off, len := U32(im, 8), U32(im, 12);
    off <= |im| && off + len < 0x1_0000_0000 && off + len <= |im|
  }

  /** The parts of an acceptable PGP blob, if it is one. */
  function PartsOf(im: seq<octet>): (r: Option<Parts>) {
    if |im| < 20 || im[5] != 1 || !KeyblockFits(im) then None
    else
      var nkeys, keyLen := U16(im, 16), U16(im, 18);
      if nkeys < 1 || nkeys > BLOB_OBJ_LIMIT || keyLen < BLOB_KEY_SIZE then None
      else
        var sn := TableEnd(|im|, 20, nkeys, keyLen);
        if sn.None? || |im| - sn.value < 2 then None
        else
          var snSize := U16(im, sn.value);
          var uids := sn.value + 2 + snSize;
          if uids > |im| || |im| - uids < 4 then None
          else
            var nuids, uidLen := U16(im, uids), U16(im, uids + 2);
            if nuids > BLOB_OBJ_LIMIT || uidLen < BLOB_UID_SIZE then None
            else
              var sigs := TableEnd(|im|, uids + 4, nuids, uidLen);
              if sigs.None? || |im| - sigs.value < 4 then None
              else
                var nsigs, sigLen := U16(im, sigs.value), U16(im, sigs.value + 2);
                if nsigs > BLOB_OBJ_LIMIT || sigLen < BLOB_SIG_SIZE then None
                else
                  var validity := TableEnd(|im|, sigs.value + 4, nsigs, sigLen);
                  if validity.None? || |im| - validity.value < BLOB_VALIDITY_SIZE then None
                  else Some(Parts(nkeys, keyLen, sn.value, snSize, uids, nuids, uidLen,
                                  sigs.value, nsigs, sigLen, validity.value))
  }

  /** What the blob says. */
  function PgpAt(im: seq<octet>): (r: Option<Pgp>) {
    var ps := PartsOf(im);
    if ps.None? then None
    else
      var p := ps.value;
      Some(Pgp(U32(im, 8), U32(im, 12), KeyRecs(im, 20, p.nkeys, p.keyLen), im[p.sn + 2..p.sn + 2 + p.snSize],
               UidRecs(im, p.uids + 4, p.nuids, p.uidLen), SigRecs(im, p.sigs + 4, p.nsigs, p.sigLen),
               U32(im, p.validity + 8), U32(im, p.validity + 12)))
  }

  /** Which images are accepted, with every table at its computed place. */
  lemma AcceptedExactly(im: seq<octet>)
    ensures PgpAt(im).Some? <==>
            && 20 <= |im| && im[5] == 1
            && U32(im, 8) + U32(im, 12) <= |im| && U32(im, 8) + U32(im, 12) <= 0xffff_ffff
            && 1 <= U16(im, 16) <= 0x8000 && 28 <= U16(im, 18)
            && var sn := 20 + Span(U16(im, 16), U16(im, 18));
            && sn + 2 <= |im|
            && var uids := sn + 2 + U16(im, sn);
            && uids + 4 <= |im| && U16(im, uids) <= 0x8000 && 12 <= U16(im, uids + 2)
            && var sigs := uids + 4 + Span(U16(im, uids), U16(im, uids + 2));
            && sigs + 4 <= |im| && U16(im, sigs) <= 0x8000 && 4 <= U16(im, sigs + 2)
            && sigs + 4 + Span(U16(im, sigs), U16(im, sigs + 2)) + 16 <= |im|
  {
    hide U16, U32, TableEnd, KeyRecs, UidRecs, SigRecs, Span;
    if |im| >= 20 {
      var nkeys, keyLen := U16(im, 16), U16(im, 18);
      TableEndSpan(|im|, 20, nkeys, keyLen);
      var sn := 20 + Span(nkeys, keyLen);
      if sn + 2 <= |im| {
        var uids := sn + 2 + U16(im, sn);
        if uids + 4 <= |im| {
          var nuids, uidLen := U16(im, uids), U16(im, uids + 2);
          TableEndSpan(|im|, uids + 4, nuids, uidLen);
          var sigs := uids + 4 + Span(nuids, uidLen);
          if sigs + 4 <= |im| {
            TableEndSpan(|im|, sigs + 4, U16(im, sigs), U16(im, sigs + 2));
          }
        }
      }
    }
  }

  /** The size of `n` records of `len` bytes. */
  function Span(n: nat, len: nat): (r: nat) {
    if n == 0 then 0 else len + Span(n - 1, len)
  }

  lemma SpanNext(n: nat, len: nat)
    ensures Span(n, len) == if n == 0 then 0 else len + Span(n - 1, len)
  {
  }

  lemma {:induction false} SpanIs(n: nat, len: nat)
    ensures Span(n, len) == n * len
  {
    if n > 0 {
      SpanIs(n - 1, len);
      assert n * len == len + (n - 1) * len;
    }
  }

  lemma {:induction false} TableEndSpan(size: nat, at: nat, n: nat, len: nat)
    requires at <= size
    ensures TableEnd(size, at, n, len) == if at + Span(n, len) <= size then Some(at + Span(n, len)) else None
    decreases n
  {
    if n > 0 && size - at >= len {
      TableEndSpan(size, at + len, n - 1, len);
    }
  }

  /** What the records of an accepted blob are, by their places in the image. */
  lemma KeyRecordAt(im: seq<octet>, q: Parts, i: nat)
    requires PartsOf(im) == Some(q) && i < q.nkeys
    ensures PgpAt(im).Some? && |PgpAt(im).value.keys| == q.nkeys
    ensures var a := 20 + Span(i, q.keyLen);
            a + 28 <= |im| && PgpAt(im).value.keys[i] == KeyRec(im[a..a + 20], U32(im, a + 20), U16(im, a + 24))
  {
    hide U16, U32, TableEnd, KeyRecs, UidRecs, SigRecs;
    KeyRecIs(im, 20, q.nkeys, q.keyLen, i);
  }

  lemma UidRecordAt(im: seq<octet>, q: Parts, i: nat)
    requires PartsOf(im) == Some(q) && i < q.nuids
    ensures PgpAt(im).Some? && |PgpAt(im).value.uids| == q.nuids
    ensures var a := q.uids + 4 + Span(i, q.uidLen);
            && a + 12 <= |im|
            && PgpAt(im).value.uids[i] == UidRec(U32(im, a), U32(im, a + 4), U16(im, a + 8), im[a + 10])
  {
    hide U16, U32, TableEnd, KeyRecs, UidRecs, SigRecs;
    UidRecIs(im, q.uids + 4, q.nuids, q.uidLen, i);
  }

  lemma SigRecordAt(im: seq<octet>, q: Parts, i: nat)
    requires PartsOf(im) == Some(q) && i < q.nsigs
    ensures PgpAt(im).Some? && |PgpAt(im).value.sigs| == q.nsigs
    ensures var a := q.sigs + 4 + Span(i, q.sigLen);
            a + 4 <= |im| && PgpAt(im).value.sigs[i] == U32(im, a)
  {
    hide U16, U32, TableEnd, KeyRecs, UidRecs, SigRecs;
    SigRecIs(im, q.sigs + 4, q.nsigs, q.sigLen, i);
  }

  lemma {:induction false} KeyRecIs(im: seq<octet>, at: nat, n: nat, len: nat, i: nat)
    requires at <= |im| && TableEnd(|im|, at, n, len).Some? && BLOB_KEY_SIZE <= len && i < n
    ensures at + Span(i, len) + 28 <= |im| && KeyRecs(im, at, n, len)[i] == KeyRecAt(im, at + Span(i, len))
    decreases n
  {
    hide U16, U32, KeyRecs, TableEnd, Span;
    TableNext(|im|, at, n, len);
    KeyNext(im, at, n, len);
    SpanNext(i, len);
    if i > 0 {
      KeyRecIs(im, at + len, n - 1, len, i - 1);
    }
  }

  lemma {:induction false} UidRecIs(im: seq<octet>, at: nat, n: nat, len: nat, i: nat)
    requires at <= |im| && TableEnd(|im|, at, n, len).Some? && BLOB_UID_SIZE <= len && i < n
    ensures at + Span(i, len) + 12 <= |im| && UidRecs(im, at, n, len)[i] == UidRecAt(im, at + Span(i, len))
    decreases n
  {
    hide U16, U32, UidRecs, TableEnd, Span;
    TableNext(|im|, at, n, len);
    UidNext(im, at, n, len);
    SpanNext(i, len);
    if i > 0 {
      UidRecIs(im, at + len, n - 1, len, i - 1);
    }
  }

  lemma {:induction false} SigRecIs(im: seq<octet>, at: nat, n: nat, len: nat, i: nat)
    requires at <= |im| && TableEnd(|im|, at, n, len).Some? && BLOB_SIG_SIZE <= len && i < n
    ensures at + Span(i, len) + 4 <= |im| && SigRecs(im, at, n, len)[i] == U32(im, at + Span(i, len))
    decreases n
  {
    hide U16, U32, SigRecs, TableEnd, Span;
    TableNext(|im|, at, n, len);
    SigNext(im, at, n, len);
    SpanNext(i, len);
    if i > 0 {
      SigRecIs(im, at + len, n - 1, len, i - 1);
    }
  }

  lemma TableNext(size: nat, at: nat, n: nat, len: nat)
    requires at <= size && n > 0
    ensures TableEnd(size, at, n, len) == if size - at < len then None else TableEnd(size, at + len, n - 1, len)
  {
  }

  lemma TableZero(size: nat, at: nat, len: nat)
    requires at <= size
    ensures TableEnd(size, at, 0, len) == Some(at)
  {
  }

  lemma KeyNext(im: seq<octet>, at: nat, n: nat, len: nat)
    requires at <= |im| && TableEnd(|im|, at, n, len).Some? && BLOB_KEY_SIZE <= len && n > 0
    ensures KeyRecs(im, at, n, len) == [KeyRecAt(im, at)] + KeyRecs(im, at + len, n - 1, len)
  {
  }

  lemma UidNext(im: seq<octet>, at: nat, n: nat, len: nat)
    requires at <= |im| && TableEnd(|im|, at, n, len).Some? && BLOB_UID_SIZE <= len && n > 0
    ensures UidRecs(im, at, n, len) == [UidRecAt(im, at)] + UidRecs(im, at + len, n - 1, len)
  {
  }

  lemma SigNext(im: seq<octet>, at: nat, n: nat, len: nat)
    requires at <= |im| && TableEnd(|im|, at, n, len).Some? && BLOB_SIG_SIZE <= len && n > 0
    ensures SigRecs(im, at, n, len) == [U32(im, at)] + SigRecs(im, at + len, n - 1, len)
  {
  }

  // ----- The cursor -----

  method ReadKeys(im: seq<octet>, at: nat, n: nat, len: nat) returns (ok: bool, recs: seq<KeyRec>, idx: nat)
    requires at <= |im| && BLOB_KEY_SIZE <= len
    ensures ok <==> TableEnd(|im|, at, n, len).Some?
    ensures ok ==> idx == TableEnd(|im|, at, n, len).value && recs == KeyRecs(im, at, n, len)
  {
    hide U16, U32, TableEnd, KeyRecs, UidRecs, SigRecs;
    idx, recs := at, [];
    for i := 0 to n
      invariant idx <= |im| && TableEnd(|im|, idx, n - i, len) == TableEnd(|im|, at, n, len)
      invariant TableEnd(|im|, at, n, len).Some? ==> recs + KeyRecs(im, idx, n - i, len) == KeyRecs(im, at, n, len)
    {
      TableNext(|im|, idx, n - i, len);
      if |im| - idx < len {
        return false, recs, idx;
      }
      ghost var tail := if TableEnd(|im|, at, n, len).Some? then KeyRecs(im, idx + len, n - i - 1, len) else [];
      if TableEnd(|im|, at, n, len).Some? {
        KeyNext(im, idx, n - i, len);
      }
      var fp := im[idx..idx + 20];
      idx := idx + 20;
      var keyidOffset := U32(im, idx);
      idx := idx + 4;
      var rec := KeyRec(fp, keyidOffset, U16(im, idx));
      idx := idx + 2;
      idx := idx + 2;
      idx := idx + (len - BLOB_KEY_SIZE);
      assert recs + ([rec] + tail) == recs + [rec] + tail;
      recs := recs + [rec];
    }
    TableZero(|im|, idx, len);
    ok := true;
  }

  method ReadUids(im: seq<octet>, at: nat, n: nat, len: nat) returns (ok: bool, recs: seq<UidRec>, idx: nat)
    requires at <= |im| && BLOB_UID_SIZE <= len
    ensures ok <==> TableEnd(|im|, at, n, len).Some?
    ensures ok ==> idx == TableEnd(|im|, at, n, len).value && recs == UidRecs(im, at, n, len)
  {
    hide U16, U32, TableEnd, KeyRecs, UidRecs, SigRecs;
    idx, recs := at, [];
    for i := 0 to n
      invariant idx <= |im| && TableEnd(|im|, idx, n - i, len) == TableEnd(|im|, at, n, len)
      invariant TableEnd(|im|, at, n, len).Some? ==> recs + UidRecs(im, idx, n - i, len) == UidRecs(im, at, n, len)
    {
      TableNext(|im|, idx, n - i, len);
      if |im| - idx < len {
        return false, recs, idx;
      }
      ghost var tail := if TableEnd(|im|, at, n, len).Some? then UidRecs(im, idx + len, n - i - 1, len) else [];
      if TableEnd(|im|, at, n, len).Some? {
        UidNext(im, idx, n - i, len);
      }
      var offset := U32(im, idx);
      idx := idx + 4;
      var length := U32(im, idx);
      idx := idx + 4;
      var flags := U16(im, idx);
      idx := idx + 2;
      var rec := UidRec(offset, length, flags, im[idx]);
      idx := idx + 1;
      idx := idx + 1;
      idx := idx + (len - BLOB_UID_SIZE);
      assert recs + ([rec] + tail) == recs + [rec] + tail;
      recs := recs + [rec];
    }
    TableZero(|im|, idx, len);
    ok := true;
  }

  method ReadSigs(im: seq<octet>, at: nat, n: nat, len: nat) returns (ok: bool, recs: seq<nat>, idx: nat)
    requires at <= |im| && BLOB_SIG_SIZE <= len
    ensures ok <==> TableEnd(|im|, at, n, len).Some?
    ensures ok ==> idx == TableEnd(|im|, at, n, len).value && recs == SigRecs(im, at, n, len)
  {
    hide U16, U32, TableEnd, KeyRecs, UidRecs, SigRecs;
    idx, recs := at, [];
    for i := 0 to n
      invariant idx <= |im| && TableEnd(|im|, idx, n - i, len) == TableEnd(|im|, at, n, len)
      invariant TableEnd(|im|, at, n, len).Some? ==> recs + SigRecs(im, idx, n - i, len) == SigRecs(im, at, n, len)
    {
      TableNext(|im|, idx, n - i, len);
      if |im| - idx < len {
        return false, recs, idx;
      }
      ghost var tail := if TableEnd(|im|, at, n, len).Some? then SigRecs(im, idx + len, n - i - 1, len) else [];
      if TableEnd(|im|, at, n, len).Some? {
        SigNext(im, idx, n - i, len);
      }
      assert recs + ([U32(im, idx)] + tail) == recs + [U32(im, idx)] + tail;
      recs := recs + [U32(im, idx)];
      idx := idx + 4 + (len - BLOB_SIG_SIZE);
    }
    TableZero(|im|, idx, len);
    ok := true;
  }

  /** kbx_pgp_blob_t::parse: accepts exactly the blobs with these parts; the cursor never passes the
      end of the image. */
  method ParsePgp(im: seq<octet>) returns (r: Option<Pgp>)
    requires BLOB_HEADER_SIZE <= |im|
    ensures r == PgpAt(im)
  {
    hide U16, U32, TableEnd, KeyRecs, UidRecs, SigRecs;
    if |im| < 15 + BLOB_HEADER_SIZE {
      return None;
    }
    var idx := BLOB_HEADER_SIZE;
    if im[idx] != 1 {
      return None;
    }
    idx := idx + 1;
    idx := idx + 2;
    var off := U32(im, idx);
    idx := idx + 4;
    var len := U32(im, idx);
    idx := idx + 4;
    if off > |im| || off > 0xffff_ffff - len || |im| < off + len {
      return None;
    }
    var nkeys := U16(im, idx);
    idx := idx + 2;
    if nkeys < 1 || nkeys > BLOB_OBJ_LIMIT {
      return None;
    }
    var keyLen := U16(im, idx);
    idx := idx + 2;
    if keyLen < BLOB_KEY_SIZE {
      return None;
    }
    var ok, keys;
    ok, keys, idx := ReadKeys(im, idx, nkeys, keyLen);
    if !ok || |im| - idx < 2 {
      return None;
    }
    ghost var snAt := idx;
    var snSize := U16(im, idx);
    idx := idx + 2;
    if |im| - idx < snSize {
      return None;
    }
    var sn := im[idx..idx + snSize];
    idx := idx + snSize;
    r := ParsePgpRest(im, idx, off, len, keys, sn, snAt, nkeys, keyLen);
  }

  /** The second half: userid records, signature records, trust and times. */
  method ParsePgpRest(im: seq<octet>, at: nat, off: nat, len: nat, keys: seq<KeyRec>, sn: seq<octet>,
                      ghost snAt: nat, ghost nkeys: nat, ghost keyLen: nat) returns (r: Option<Pgp>)
    requires 20 <= |im| && im[5] == 1 && KeyblockFits(im) && off == U32(im, 8) && len == U32(im, 12)
    requires nkeys == U16(im, 16) && keyLen == U16(im, 18) && 1 <= nkeys <= BLOB_OBJ_LIMIT && BLOB_KEY_SIZE <= keyLen
    requires TableEnd(|im|, 20, nkeys, keyLen) == Some(snAt) && keys == KeyRecs(im, 20, nkeys, keyLen)
    requires snAt + 2 <= |im| && at == snAt + 2 + U16(im, snAt) && at <= |im| && sn == im[snAt + 2..at]
    ensures r == PgpAt(im)
  {
    hide U16, U32, TableEnd, KeyRecs, UidRecs, SigRecs, KeyblockFits;
    var idx := at;
    if |im| - idx < 4 {
      return None;
    }
    var nuids := U16(im, idx);
    if nuids > BLOB_OBJ_LIMIT {
      return None;
    }
    var uidLen := U16(im, idx + 2);
    idx := idx + 4;
    if uidLen < BLOB_UID_SIZE {
      return None;
    }
    var ok, uids;
    ok, uids, idx := ReadUids(im, idx, nuids, uidLen);
    if !ok || |im| - idx < 4 {
      return None;
    }
    var nsigs := U16(im, idx);
    if nsigs > BLOB_OBJ_LIMIT {
      return None;
    }
    var sigLen := U16(im, idx + 2);
    idx := idx + 4;
    if sigLen < BLOB_SIG_SIZE {
      return None;
    }
    var sigs;
    ok, sigs, idx := ReadSigs(im, idx, nsigs, sigLen);
    if !ok || |im| - idx < BLOB_VALIDITY_SIZE {
      return None;
    }
    idx := idx + 1;
    idx := idx + 1;
    idx := idx + 2;
    idx := idx + 4;
    var timestamp := U32(im, idx);
    idx := idx + 4;
    var createdAt := U32(im, idx);
    r := Some(Pgp(off, len, keys, sn, uids, sigs, timestamp, createdAt));
  }

  // ----- Blobs -----

  function HeaderAt(im: seq<octet>): (r: Option<nat>) {
    if |im| == BLOB_FIRST_SIZE && im[5] == 1 && im[8..12] == MAGIC then Some(U32(im, 20)) else None
  }

  /** kbx_header_blob_t::parse: of the two times the second one stays. */
  method ParseHeader(im: seq<octet>) returns (r: Option<nat>)
    requires BLOB_HEADER_SIZE <= |im|
    ensures r == HeaderAt(im)
  {
    if |im| != BLOB_FIRST_SIZE {
      return None;
    }
    var idx := BLOB_HEADER_SIZE;
    if im[idx] != 1 {
      return None;
    }
    idx := idx + 1;
    idx := idx + 2;
    if im[idx..idx + 4] != MAGIC {
      return None;
    }
    idx := idx + 4;
    idx := idx + 4;
    var created := U32(im, idx);
    idx := idx + 4;
    created := U32(im, idx);
    r := Some(created);
  }

  /** The blob with this image, if it is one. */
  function BlobAt(im: seq<octet>): (r: Option<Blob>)
    ensures r.Some? ==> r.value.image == im
  {
    if |im| < BLOB_HEADER_SIZE || U32(im, 0) > BLOB_SIZE_LIMIT || U32(im, 0) != |im| then None
    else if im[4] == EMPTY_BLOB || im[4] == X509_BLOB then Some(Plain(im))
    else if im[4] == HEADER_BLOB then
      var h := HeaderAt(im);
      if h.Some? then Some(Header(im, h.value)) else None
    else if im[4] == PGP_BLOB then
      var p := PgpAt(im);
      if p.Some? then Some(PgpBlob(im, p.value)) else None
    else None
  }

  /** kbx_parse_blob with the constructor of kbx_blob_t */
  method ParseBlob(im: seq<octet>) returns (r: Option<Blob>)
    ensures r == BlobAt(im)
  {
    hide U32, PgpAt, HeaderAt;
    if |im| < BLOB_HEADER_SIZE {
      return None;
    }
    var kind := im[4];
    if kind > X509_BLOB {
      return None;
    }
    var len := U32(im, 0);
    if len > BLOB_SIZE_LIMIT || len != |im| {
      return None;
    }
    if kind == HEADER_BLOB {
      var h := ParseHeader(im);
      return if h.Some? then Some(Header(im, h.value)) else None;
    } else if kind == PGP_BLOB {
      var p := ParsePgp(im);
      return if p.Some? then Some(PgpBlob(im, p.value)) else None;
    }
    return Some(Plain(im));
  }

  /** An accepted PGP blob's keyblock lies inside its image. */
  lemma KeyblockInside(im: seq<octet>)
    requires PgpAt(im).Some?
    ensures var p := PgpAt(im).value; p.keyblockOffset + p.keyblockLength <= |im|
  {
    hide KeyRecs, UidRecs, SigRecs, TableEnd, U16, U32;
  }

  // ----- Files -----

  function Keyblock(b: Blob): (r: seq<octet>)
    requires b.PgpBlob?
  {
    var off, len := b.pgp.keyblockOffset, b.pgp.keyblockLength;
    if off + len <= |b.image| then b.image[off..off + len] else []
  }

  /** A PGP blob must hold keys that load_pgp accepts; `loads` is its verdict. */
  predicate Accepted(b: Blob, loads: seq<octet> -> bool) {
    b.PgpBlob? ==> b.pgp.keyblockLength != 0 && loads(Keyblock(b))
  }

  /** The blobs a byte string consists of; up to four trailing bytes are ignored. */
  function Blobs(s: seq<octet>, loads: seq<octet> -> bool): (r: Option<seq<Blob>>)
    decreases |s|
  {
    if |s| <= 4 then Some([])
    else
      var len := U32(s, 0);
      if len > BLOB_SIZE_LIMIT || len < BLOB_HEADER_SIZE || |s| < len then None
      else
        var b, rest := BlobAt(s[..len]), Blobs(s[len..], loads);
        if b.None? || !Accepted(b.value, loads) || rest.None? then None else Some([b.value] + rest.value)
  }

  /** load_kbx, into an empty store. */
  method LoadKbx(input: seq<octet>, loads: seq<octet> -> bool) returns (ok: bool, blobs: seq<Blob>)
    ensures ok <==> |input| >= BLOB_FIRST_SIZE && Blobs(input, loads).Some?
    ensures ok ==> blobs == Blobs(input, loads).value
  {
    hide BlobAt, U32;
    blobs := [];
    if |input| < BLOB_FIRST_SIZE {
      return false, blobs;
    }
    var buf := input;
    while |buf| > 4
      invariant Blobs(buf, loads).Some? <==> Blobs(input, loads).Some?
      invariant Blobs(input, loads).Some? ==> blobs + Blobs(buf, loads).value == Blobs(input, loads).value
      decreases |buf|
    {
      var len := U32(buf, 0);
      if len > BLOB_SIZE_LIMIT {
        return false, blobs;
      }
      if len < BLOB_HEADER_SIZE {
        return false, blobs;
      }
      if |buf| < len {
        return false, blobs;
      }
      var blob := ParseBlob(buf[..len]);
      if blob.None? {
        return false, blobs;
      }
      blobs := blobs + [blob.value];
      if !Accepted(blob.value, loads) {
        return false, blobs;
      }
      buf := buf[len..];
    }
    ok := true;
  }

  function Images(blobs: seq<Blob>): (r: seq<octet>) {
    if blobs == [] then [] else blobs[0].image + Images(blobs[1..])
  }

  /** Nothing is skipped or read twice: the images in order, and at most four bytes, are the input;
      and each PGP blob's keyblock is a slice of its image. */
  lemma {:induction false} LoadConserves(s: seq<octet>, loads: seq<octet> -> bool)
    requires Blobs(s, loads).Some?
    ensures var bs := Blobs(s, loads).value;
            && Images(bs) <= s && |s| - |Images(bs)| <= 4
            && (forall i :: 0 <= i < |bs| ==> BlobAt(bs[i].image) == Some(bs[i]))
            && (forall i :: 0 <= i < |bs| && bs[i].PgpBlob? ==>
                  bs[i].pgp.keyblockOffset + bs[i].pgp.keyblockLength <= |bs[i].image|)
    decreases |s|
  {
    hide BlobAt, U32;
    var bs := Blobs(s, loads).value;
    if |s| > 4 {
      var len := U32(s, 0);
      var b := BlobAt(s[..len]);
      LoadConserves(s[len..], loads);
      assert bs[1..] == Blobs(s[len..], loads).value;
      assert s == s[..len] + s[len..];
      BlobInside(s[..len]);
    }
  }

  lemma BlobInside(im: seq<octet>)
    requires BlobAt(im).Some?
    ensures var b := BlobAt(im).value;
            b.PgpBlob? ==> b.pgp.keyblockOffset + b.pgp.keyblockLength <= |im|
  {
    hide PgpAt, HeaderAt;
    if BlobAt(im).value.PgpBlob? {
      KeyblockInside(im);
    }
  }
}
