/** What the keybox writer writes, the keybox reader reads back; and exactly when. */
module KbxRoundTrip {
  import opened Options
  import opened Octets
  import opened Sequences
  import opened Destination
  import opened Kbx
  import opened KbxWriter

  // ----- What should be read back -----

  function AllFps(k: Entry): (r: seq<seq<octet>>)
    requires AllPresent(k.subs)
    ensures |r| == 1 + |k.subs|
  {
    [k.fp] + Fps(k.subs)
  }

  function KeyRecsOf(fps: seq<seq<octet>>, at: nat): (r: seq<KeyRec>)
    requires 20 <= at
    ensures |r| == |fps|
  {
    if fps == [] then []
    else [KeyRec(fps[0], W32(at + |fps[0]| - 8), 0)] + KeyRecsOf(fps[1..], at + |fps[0]| + 8)
  }

  function UidRecsOf(es: seq<(nat, nat)>): (r: seq<UidRec>)
    ensures |r| == |es|
  {
    if es == [] then [] else [UidRec(W32(es[0].0), W32(es[0].1), 0, 0)] + UidRecsOf(es[1..])
  }

  function SigRecsOf(exps: seq<nat>): (r: seq<nat>)
    ensures |r| == |exps|
  {
    if exps == [] then [] else [W32(exps[0])] + SigRecsOf(exps[1..])
  }

  function PgpOf(k: Entry, now: nat, base: nat): (r: Pgp)
    requires AllPresent(k.subs)
  {
    var at := StringsAt(k, now);
    Tables(at + |Flatten(k.uids)|, |KeyblockOf(k)|, AllFps(k), UidEntries(k.uids, base + at), Expirations(k), now)
  }

  function Tables(off: nat, len: nat, fps: seq<seq<octet>>, es: seq<(nat, nat)>, exps: seq<nat>, now: nat): (r: Pgp) {
    Pgp(off, len, KeyRecsOf(fps, 20), [], UidRecsOf(es), SigRecsOf(exps), W32(now), W32(now))
  }

  /** What the record sizes and counts of the format can hold: 20-byte fingerprints, and no more than
      BLOB_OBJ_LIMIT records of a kind. */
  predicate Fits(k: Entry)
    requires AllPresent(k.subs)
  {
    && AllTwenty(AllFps(k))
    && 1 + |k.subs| <= BLOB_OBJ_LIMIT && |k.uids| <= BLOB_OBJ_LIMIT && |Expirations(k)| <= BLOB_OBJ_LIMIT
  }

  predicate AllTwenty(fps: seq<seq<octet>>) {
    forall i :: 0 <= i < |fps| ==> |fps[i]| == 20
  }

  // ----- Tables -----

  lemma {:induction false} KeyTableSize(fps: seq<seq<octet>>, at: nat)
    requires 20 <= at && AllTwenty(fps)
    ensures |KeyTable(fps, at)| == 28 * |fps|
    decreases |fps|
  {
    if fps != [] {
      assert AllTwenty(fps[1..]);
      KeyTableSize(fps[1..], at + 28);
    }
  }

  lemma KeyRowRead(im: seq<octet>, at: nat, fp: seq<octet>)
    requires 20 <= at && |fp| == 20 && At(im, at, KeyRow(fp, at))
    ensures at + 28 <= |im| && KeyRecAt(im, at) == KeyRec(fp, W32(at + 12), 0)
  {
    hide Be32, Be16, U32, U16, W32;
    AtSplit(im, at, fp + Be32(at + 12) + Be16(0), Be16(0));
    AtSplit(im, at, fp + Be32(at + 12), Be16(0));
    AtSplit(im, at, fp, Be32(at + 12));
    At32(im, at + 20, at + 12);
    At16(im, at + 24, 0);
  }

  lemma {:induction false} KeyTableRead(im: seq<octet>, at: nat, fps: seq<seq<octet>>)
    requires 20 <= at <= |im| && AllTwenty(fps) && At(im, at, KeyTable(fps, at))
    ensures TableEnd(|im|, at, |fps|, 28) == Some(at + 28 * |fps|)
    ensures KeyRecs(im, at, |fps|, 28) == KeyRecsOf(fps, at)
    decreases |fps|
  {
    hide KeyRow, KeyRecAt, W32, At;
    if fps != [] {
      assert AllTwenty(fps[1..]);
      AtSplit(im, at, KeyRow(fps[0], at), KeyTable(fps[1..], at + 28));
      KeyRowRead(im, at, fps[0]);
      KeyTableRead(im, at + 28, fps[1..]);
    }
  }

  lemma UidRowRead(im: seq<octet>, at: nat, e: (nat, nat))
    requires At(im, at, UidRow(e))
    ensures at + 12 <= |im| && UidRecAt(im, at) == UidRec(W32(e.0), W32(e.1), 0, 0)
  {
    hide Be32, Be16, U32, U16, W32;
    AtSplit(im, at, Be32(e.0) + Be32(e.1) + Be16(0), [0, 0]);
    AtSplit(im, at, Be32(e.0) + Be32(e.1), Be16(0));
    AtSplit(im, at, Be32(e.0), Be32(e.1));
    At32(im, at, e.0);
    At32(im, at + 4, e.1);
    At16(im, at + 8, 0);
    assert im[at + 10..at + 12][0] == im[at + 10];
  }

  lemma {:induction false} UidTableRead(im: seq<octet>, at: nat, es: seq<(nat, nat)>)
    requires at <= |im| && At(im, at, UidTable(es))
    ensures TableEnd(|im|, at, |es|, 12) == Some(at + 12 * |es|)
    ensures UidRecs(im, at, |es|, 12) == UidRecsOf(es)
    decreases |es|
  {
    hide UidRow, UidRecAt, W32, At;
    if es != [] {
      AtSplit(im, at, UidRow(es[0]), UidTable(es[1..]));
      UidRowRead(im, at, es[0]);
      UidTableRead(im, at + 12, es[1..]);
    }
  }

  lemma {:induction false} ExpTableRead(im: seq<octet>, at: nat, exps: seq<nat>)
    requires at <= |im| && At(im, at, ExpTable(exps))
    ensures TableEnd(|im|, at, |exps|, 4) == Some(at + 4 * |exps|)
    ensures SigRecs(im, at, |exps|, 4) == SigRecsOf(exps)
    decreases |exps|
  {
    hide Be32, U32, W32, At;
    if exps != [] {
      AtSplit(im, at, Be32(exps[0]), ExpTable(exps[1..]));
      At32(im, at, exps[0]);
      ExpTableRead(im, at + 4, exps[1..]);
    }
  }

  /** Every record read has a 20-byte fingerprint. */
  lemma {:induction false} ReadFps(im: seq<octet>, at: nat, n: nat, len: nat, i: nat)
    requires at <= |im| && TableEnd(|im|, at, n, len).Some? && BLOB_KEY_SIZE <= len && i < n
    ensures |KeyRecs(im, at, n, len)[i].fp| == 20
    decreases n
  {
    hide U32, U16;
    if i > 0 {
      ReadFps(im, at + len, n - 1, len, i - 1);
    }
  }

  lemma {:induction false} ExpectedFps(fps: seq<seq<octet>>, at: nat, i: nat)
    requires 20 <= at && i < |fps|
    ensures KeyRecsOf(fps, at)[i].fp == fps[i]
    decreases |fps|
  {
    if i > 0 {
      ExpectedFps(fps[1..], at + |fps[0]| + 8, i - 1);
    }
  }

  // ----- One blob -----

  lemma FixedRead(im: seq<octet>, total: nat, off: nat, len: nat, n: nat)
    requires At(im, 0, Fixed(total, off, len, n)) && n < 0x1_0000
    ensures 20 <= |im| && im[4] == PGP_BLOB && im[5] == 1
    ensures U32(im, 0) == W32(total) && U32(im, 8) == W32(off) && U32(im, 12) == W32(len)
    ensures U16(im, 16) == n && U16(im, 18) == 28
  {
    hide Be32, Be16, U32, U16, W32, At;
    var a := Be32(total) + [PGP_BLOB] + [1] + Be16(0);
    AtSplit(im, 0, a + Be32(off) + Be32(len) + Be16(n), Be16(28));
    AtSplit(im, 0, a + Be32(off) + Be32(len), Be16(n));
    AtSplit(im, 0, a + Be32(off), Be32(len));
    AtSplit(im, 0, a, Be32(off));
    StartRead(im, total);
    At32(im, 8, off);
    At32(im, 12, len);
    At16(im, 16, n);
    At16(im, 18, 28);
  }

  lemma StartRead(im: seq<octet>, total: nat)
    requires At(im, 0, Be32(total) + [PGP_BLOB] + [1] + Be16(0))
    ensures 6 <= |im| && im[4] == PGP_BLOB && im[5] == 1 && U32(im, 0) == W32(total)
  {
    hide Be32, Be16, U32, W32;
    AtSplit(im, 0, Be32(total) + [PGP_BLOB] + [1], Be16(0));
    AtSplit(im, 0, Be32(total) + [PGP_BLOB], [1]);
    AtSplit(im, 0, Be32(total), [PGP_BLOB]);
    At32(im, 0, total);
  }

  lemma MidRead(im: seq<octet>, fps: seq<seq<octet>>, nuids: nat)
    requires AllTwenty(fps) && |fps| <= BLOB_OBJ_LIMIT && nuids <= BLOB_OBJ_LIMIT
    requires 20 <= |im| && At(im, 20, KeyTable(fps, 20) + Be16(0) + Be16(nuids) + Be16(12))
    ensures var sn := 20 + 28 * |fps|;
            && TableEnd(|im|, 20, |fps|, 28) == Some(sn) && KeyRecs(im, 20, |fps|, 28) == KeyRecsOf(fps, 20)
            && sn + 6 <= |im| && U16(im, sn) == 0 && U16(im, sn + 2) == nuids && U16(im, sn + 4) == 12
  {
    hide KeyTable, KeyRecs, KeyRecsOf, TableEnd, Be16, U16, At, AllTwenty;
    var sn := 20 + 28 * |fps|;
    KeyTableSize(fps, 20);
    AtSplit(im, 20, KeyTable(fps, 20) + Be16(0) + Be16(nuids), Be16(12));
    AtSplit(im, 20, KeyTable(fps, 20) + Be16(0), Be16(nuids));
    AtSplit(im, 20, KeyTable(fps, 20), Be16(0));
    KeyTableRead(im, 20, fps);
    At16(im, sn, 0);
    At16(im, sn + 2, nuids);
    At16(im, sn + 4, 12);
  }

  lemma PostRead(im: seq<octet>, at: nat, exps: seq<nat>, now: nat)
    requires |exps| <= BLOB_OBJ_LIMIT && At(im, at, Be16(|exps|) + Be16(4) + ExpTable(exps) + Times(now))
    ensures var validity := at + 4 + 4 * |exps|;
            && validity + 20 <= |im| && U16(im, at) == |exps| && U16(im, at + 2) == 4
            && TableEnd(|im|, at + 4, |exps|, 4) == Some(validity)
            && SigRecs(im, at + 4, |exps|, 4) == SigRecsOf(exps)
            && U32(im, validity + 8) == W32(now) && U32(im, validity + 12) == W32(now)
  {
    hide ExpTable, SigRecs, SigRecsOf, Times, TableEnd, Be16, U16, U32, W32, At;
    AtSplit(im, at, Be16(|exps|) + Be16(4) + ExpTable(exps), Times(now));
    AtSplit(im, at, Be16(|exps|) + Be16(4), ExpTable(exps));
    AtSplit(im, at, Be16(|exps|), Be16(4));
    At16(im, at, |exps|);
    At16(im, at + 2, 4);
    ExpTableRead(im, at + 4, exps);
    TimesRead(im, at + 4 + 4 * |exps|, now);
  }

  lemma TimesRead(im: seq<octet>, at: nat, now: nat)
    requires At(im, at, Times(now))
    ensures at + 20 <= |im| && U32(im, at + 8) == W32(now) && U32(im, at + 12) == W32(now)
  {
    hide Be32, Be16, U32, W32, At;
    var a := [0] + [0] + Be16(0) + Be32(0);
    AtSplit(im, at, a + Be32(now) + Be32(now), Be32(0));
    AtSplit(im, at, a + Be32(now), Be32(now));
    AtSplit(im, at, a, Be32(now));
    At32(im, at + 8, now);
    At32(im, at + 12, now);
    At32(im, at + 16, 0);
  }

  /** What a fitting key's blob holds, and where. */
  lemma ImageParts(k: Entry, now: nat, base: nat, sha1: seq<octet> -> Digest)
    requires Writable(k, now, base, sha1)
    ensures var im := PgpImage(k, now, base, sha1);
            var at := StringsAt(k, now);
            var off, len := at + |Flatten(k.uids)|, |KeyblockOf(k)|;
            && |im| == off + len + 20
            && At(im, 0, Fixed(off + len + 20, off, len, 1 + |k.subs|))
            && At(im, 20, Mid(k))
            && At(im, 20 + |Mid(k)|, UidTable(UidEntries(k.uids, base + at)))
            && At(im, 20 + |Mid(k)| + 12 * |k.uids|, Post(k, now))
            && At(im, at, Flatten(k.uids))
            && At(im, off, KeyblockOf(k))
  {
    hide At, Fixed, Mid, Post, UidTable, UidEntries, Flatten, KeyblockOf;
    UnsignedSize(k, now, base);
    var u := Unsigned(k, now, base);
    var im := u + sha1(u);
    AtSelf(im);
    AtSplit(im, 0, u, sha1(u));
    var at := StringsAt(k, now);
    var off, len := at + |Flatten(k.uids)|, |KeyblockOf(k)|;
    var f, m, t := Fixed(off + len + 20, off, len, 1 + |k.subs|), Mid(k), UidTable(UidEntries(k.uids, base + at));
    AtSplit(im, 0, f, m + t + Post(k, now) + Flatten(k.uids) + KeyblockOf(k));
    AtSplit(im, 20, m + t + Post(k, now) + Flatten(k.uids), KeyblockOf(k));
    AtSplit(im, 20, m + t + Post(k, now), Flatten(k.uids));
    AtSplit(im, 20, m + t, Post(k, now));
    AtSplit(im, 20, m, t);
  }

  lemma AtSelf(s: seq<octet>)
    ensures At(s, 0, s)
  {
  }

  /** A blob with these fields is accepted, with these parts. */
  lemma PartsFrom(im: seq<octet>, nkeys: nat, nuids: nat, nsigs: nat)
    requires 20 <= |im| && im[5] == 1 && KeyblockFits(im)
    requires 1 <= nkeys <= BLOB_OBJ_LIMIT && nuids <= BLOB_OBJ_LIMIT && nsigs <= BLOB_OBJ_LIMIT
    requires U16(im, 16) == nkeys && U16(im, 18) == 28
    requires var sn := 20 + 28 * nkeys;
             && TableEnd(|im|, 20, nkeys, 28) == Some(sn)
             && sn + 6 <= |im| && U16(im, sn) == 0 && U16(im, sn + 2) == nuids && U16(im, sn + 4) == 12
    requires var sigs := 26 + 28 * nkeys + 12 * nuids;
             && TableEnd(|im|, 26 + 28 * nkeys, nuids, 12) == Some(sigs)
             && sigs + 24 + 4 * nsigs <= |im| && U16(im, sigs) == nsigs && U16(im, sigs + 2) == 4
             && TableEnd(|im|, sigs + 4, nsigs, 4) == Some(sigs + 4 + 4 * nsigs)
    ensures var sn, sigs := 20 + 28 * nkeys, 26 + 28 * nkeys + 12 * nuids;
            PartsOf(im) == Some(Parts(nkeys, 28, sn, 0, sn + 2, nuids, 12, sigs, nsigs, 4, sigs + 4 + 4 * nsigs))
  {
    hide KeyblockFits, TableEnd, U16;
  }

  lemma PgpFrom(im: seq<octet>, p: Parts, off: nat, len: nat, fps: seq<seq<octet>>, es: seq<(nat, nat)>,
                exps: seq<nat>, now: nat)
    requires PartsOf(im) == Some(p) && p.snSize == 0 && U32(im, 8) == off && U32(im, 12) == len
    requires KeyRecs(im, 20, p.nkeys, p.keyLen) == KeyRecsOf(fps, 20)
    requires UidRecs(im, p.uids + 4, p.nuids, p.uidLen) == UidRecsOf(es)
    requires SigRecs(im, p.sigs + 4, p.nsigs, p.sigLen) == SigRecsOf(exps)
    requires U32(im, p.validity + 8) == W32(now) == U32(im, p.validity + 12)
    ensures PgpAt(im) == Some(Tables(off, len, fps, es, exps, now))
  {
    hide TableEnd, KeyRecs, UidRecs, SigRecs, KeyRecsOf, UidRecsOf, SigRecsOf, U16, U32, W32;
    assert im[p.sn + 2..p.sn + 2] == [];
  }

  lemma Small(n: nat)
    requires n <= BLOB_SIZE_LIMIT
    ensures W32(n) == n
  {
  }

  /** The blob with these tables parses to these records. */
  lemma {:induction false} TablesParse(im: seq<octet>, off: nat, len: nat, fps: seq<seq<octet>>,
                                       es: seq<(nat, nat)>, exps: seq<nat>, now: nat)
    requires AllTwenty(fps) && off + len <= |im| <= BLOB_SIZE_LIMIT
    requires 1 <= |fps| <= BLOB_OBJ_LIMIT && |es| <= BLOB_OBJ_LIMIT && |exps| <= BLOB_OBJ_LIMIT
    requires At(im, 0, Fixed(|im|, off, len, |fps|))
    requires At(im, 20, KeyTable(fps, 20) + Be16(0) + Be16(|es|) + Be16(12))
    requires At(im, 26 + 28 * |fps|, UidTable(es))
    requires At(im, 26 + 28 * |fps| + 12 * |es|, Be16(|exps|) + Be16(4) + ExpTable(exps) + Times(now))
    ensures PgpAt(im) == Some(Tables(off, len, fps, es, exps, now))
  {
    hide At, Fixed, KeyTable, UidTable, ExpTable, Times, Be16, AllTwenty, PartsOf, PgpAt, TableEnd, U16, U32, W32;
    hide KeyRecs, UidRecs, SigRecs, KeyRecsOf, UidRecsOf, SigRecsOf, Tables;
    FixedRead(im, |im|, off, len, |fps|);
    Small(off);
    Small(len);
    MidRead(im, fps, |es|);
    UidTableRead(im, 26 + 28 * |fps|, es);
    PostRead(im, 26 + 28 * |fps| + 12 * |es|, exps, now);
    PartsFrom(im, |fps|, |es|, |exps|);
    PgpFrom(im, PartsOf(im).value, off, len, fps, es, exps, now);
  }

  lemma FittingParses(k: Entry, now: nat, base: nat, sha1: seq<octet> -> Digest)
    requires Writable(k, now, base, sha1) && Fits(k)
    ensures PgpAt(PgpImage(k, now, base, sha1)) == Some(PgpOf(k, now, base))
  {
    hide PgpImage, At, Fixed, KeyTable, UidTable, UidEntries, Flatten, KeyblockOf, Expirations, AllTwenty, PgpAt;
    hide Tables;
    var im, at := PgpImage(k, now, base, sha1), StringsAt(k, now);
    ImageParts(k, now, base, sha1);
    KeyTableSize(AllFps(k), 20);
    var es := UidEntries(k.uids, base + at);
    TablesParse(im, at + |Flatten(k.uids)|, |KeyblockOf(k)|, AllFps(k), es, Expirations(k), now);
  }

  lemma {:induction false} ParsedFits(k: Entry, now: nat, base: nat, im: seq<octet>)
    requires AllPresent(k.subs) && PgpAt(im) == Some(PgpOf(k, now, base))
    ensures Fits(k)
  {
    hide StringsAt, Flatten, KeyblockOf, UidEntries, Expirations, KeyRecs, UidRecs, SigRecs;
    hide KeyRecsOf, UidRecsOf, SigRecsOf, TableEnd, U16, U32, W32;
    var fps, p := AllFps(k), PartsOf(im).value;
    assert |KeyRecsOf(fps, 20)| == p.nkeys;
    forall i: nat | i < |fps|
      ensures |fps[i]| == 20
    {
      ReadFps(im, 20, p.nkeys, p.keyLen, i);
      ExpectedFps(fps, 20, i);
    }
  }

  /** A written blob has the length it says, and its keyblock is the key's packets. It reads back as
      what was written exactly when the key fits the format. */
  lemma {:induction false} BlobRoundTrip(k: Entry, now: nat, base: nat, sha1: seq<octet> -> Digest)
    requires Writable(k, now, base, sha1)
    ensures var im := PgpImage(k, now, base, sha1);
            && Framed(im)
            && Keyblock(PgpBlob(im, PgpOf(k, now, base))) == KeyblockOf(k)
            && (BlobAt(im) == Some(PgpBlob(im, PgpOf(k, now, base))) <==> Fits(k))
  {
    hide PgpImage, StringsAt, Flatten, KeyblockOf, UidEntries, Expirations, KeyRecsOf, UidRecsOf, SigRecsOf;
    hide PgpAt, Fits, U16, U32, Fixed, Mid, Post, UidTable, W32;
    var im := PgpImage(k, now, base, sha1);
    ImageParts(k, now, base, sha1);
    ImageKind(k, now, base, sha1);
    if Fits(k) {
      FittingParses(k, now, base, sha1);
    }
    if PgpAt(im) == Some(PgpOf(k, now, base)) {
      ParsedFits(k, now, base, im);
    }
  }

  predicate Framed(im: seq<octet>) {
    BLOB_HEADER_SIZE <= |im| <= BLOB_SIZE_LIMIT && U32(im, 0) == |im|
  }

  lemma {:induction false} ImageKind(k: Entry, now: nat, base: nat, sha1: seq<octet> -> Digest)
    requires Writable(k, now, base, sha1)
    ensures var im := PgpImage(k, now, base, sha1);
            Framed(im) && im[4] == PGP_BLOB
  {
    hide PgpImage, StringsAt, Flatten, KeyblockOf, UidEntries, Mid, Post, UidTable, At, Be32, Be16, U32, W32;
    var im := PgpImage(k, now, base, sha1);
    var off, len := StringsAt(k, now) + |Flatten(k.uids)|, |KeyblockOf(k)|;
    ImageParts(k, now, base, sha1);
    var a := Be32(off + len + 20) + [PGP_BLOB] + [1] + Be16(0);
    var b := Be32(off) + Be32(len) + Be16(1 + |k.subs|) + Be16(28);
    assert Fixed(off + len + 20, off, len, 1 + |k.subs|) == a + b;
    AtSplit(im, 0, a, b);
    StartRead(im, off + len + 20);
    Small(|im|);
  }

  /** A key with the 32-byte fingerprint of version 5 is written, and does not read back. */
  lemma {:induction false} LongFingerprint(now: nat, base: nat, sha1: seq<octet> -> Digest)
    ensures var k := Entry(seq(32, i => 0), [], [], [0x99], []);
            && Writable(k, now, base, sha1)
            && var im := PgpImage(k, now, base, sha1);
            BlobAt(im) != Some(PgpBlob(im, PgpOf(k, now, base)))
  {
    hide BlobAt, PgpOf, KeyRow, Be16, Be32, Times;
    var k := Entry(seq(32, i => 0), [], [], [0x99], []);
    UnsignedSize(k, now, base);
    KeyTableSingle(k.fp, 20);
    assert [k.fp] + Fps([]) == [k.fp] && KeyblockOf(k) == [0x99];
    assert Writable(k, now, base, sha1);
    BlobRoundTrip(k, now, base, sha1);
    assert |AllFps(k)[0]| == 32;
  }

  // ----- The file -----

  lemma HeaderRead(created: nat, now: nat)
    ensures var im := HeaderImage(created, now);
            Framed(im) && BlobAt(im) == Some(Header(im, W32(created))) && U32(im, 24) == W32(now)
  {
    hide Be32, Be16, U32, W32, At;
    var im := HeaderImage(created, now);
    var a := Be32(BLOB_FIRST_SIZE) + [HEADER_BLOB, 1] + Be16(0) + MAGIC + Be32(0) + Be32(0);
    AtSelf(im);
    AtSplit(im, 0, a + Be32(created) + Be32(now), Be32(0));
    AtSplit(im, 0, a + Be32(created), Be32(now));
    AtSplit(im, 0, a, Be32(created));
    At32(im, 20, created);
    At32(im, 24, now);
    var b := Be32(BLOB_FIRST_SIZE);
    AtSplit(im, 0, b + [HEADER_BLOB, 1] + Be16(0) + MAGIC + Be32(0), Be32(0));
    AtSplit(im, 0, b + [HEADER_BLOB, 1] + Be16(0) + MAGIC, Be32(0));
    AtSplit(im, 0, b + [HEADER_BLOB, 1] + Be16(0), MAGIC);
    AtSplit(im, 0, b + [HEADER_BLOB, 1], Be16(0));
    AtSplit(im, 0, b, [HEADER_BLOB, 1]);
    At32(im, 0, BLOB_FIRST_SIZE);
    Small(BLOB_FIRST_SIZE);
    HeaderKind(im);
  }

  lemma HeaderKind(im: seq<octet>)
    requires At(im, 4, [HEADER_BLOB, 1]) && At(im, 8, MAGIC)
    ensures 12 <= |im| && im[4] == HEADER_BLOB && im[5] == 1 && im[8..12] == MAGIC
  {
    assert im[4..6][0] == im[4] && im[4..6][1] == im[5];
  }

  /** Loading takes a file apart where its blobs meet. */
  lemma {:induction false} LoadsNext(im: seq<octet>, rest: seq<octet>, loads: seq<octet> -> bool)
    requires Framed(im)
    ensures var b, bs := BlobAt(im), Blobs(rest, loads);
            Blobs(im + rest, loads)
            == if b.None? || !Accepted(b.value, loads) || bs.None? then None else Some([b.value] + bs.value)
  {
    hide BlobAt, Accepted;
    var s := im + rest;
    assert U32(s, 0) == |im|;
    assert s[..|im|] == im && s[|im|..] == rest;
  }

  /** The blobs the primary keys should be read back as. */
  function PgpBlobs(keys: seq<Listed>, now: nat, c: Count, sha1: seq<octet> -> Digest): (r: seq<Blob>)
    requires Sane(c)
    decreases |keys|
  {
    if keys == [] then []
    else if keys[0].Sub? then PgpBlobs(keys[1..], now, c, sha1)
    else if !AllPresent(keys[0].entry.subs) then []
    else
      var im := PgpImage(keys[0].entry, now, c.sent, sha1);
      [PgpBlob(im, PgpOf(keys[0].entry, now, c.sent))] + PgpBlobs(keys[1..], now, Advance(c, |im|), sha1)
  }

  /** The key fits the format, and the key loader accepts its packets. */
  predicate Loadable(k: Entry, loads: seq<octet> -> bool) {
    AllPresent(k.subs) && Fits(k) && KeyblockOf(k) != [] && loads(KeyblockOf(k))
  }

  predicate AllLoadable(keys: seq<Listed>, loads: seq<octet> -> bool) {
    forall i :: 0 <= i < |keys| && keys[i].Primary? ==> Loadable(keys[i].entry, loads)
  }

  lemma {:induction false} KeysRoundTrip(keys: seq<Listed>, now: nat, c: Count, sha1: seq<octet> -> Digest,
                                         loads: seq<octet> -> bool, rest: seq<octet>, after: seq<Blob>)
    requires Sane(c) && PgpImages(keys, now, c, sha1).Some? && Blobs(rest, loads) == Some(after)
    ensures Blobs(PgpImages(keys, now, c, sha1).value + rest, loads) == Some(PgpBlobs(keys, now, c, sha1) + after)
            <==> AllLoadable(keys, loads)
    decreases |keys|
  {
    hide PgpImage, PgpOf, BlobAt, Blobs, Loadable, Advance;
    if keys == [] {
      assert [] + rest == rest && [] + after == after;
    } else if keys[0].Sub? {
      KeysRoundTrip(keys[1..], now, c, sha1, loads, rest, after);
      assert AllLoadable(keys, loads) <==> AllLoadable(keys[1..], loads);
    } else {
      var k := keys[0].entry;
      var im := PgpImage(k, now, c.sent, sha1);
      var tail := PgpImages(keys[1..], now, Advance(c, |im|), sha1).value;
      var b, bs := PgpBlob(im, PgpOf(k, now, c.sent)), PgpBlobs(keys[1..], now, Advance(c, |im|), sha1);
      KeysRoundTrip(keys[1..], now, Advance(c, |im|), sha1, loads, rest, after);
      AcceptedIff(k, now, c.sent, sha1, loads);
      assert im + tail + rest == im + (tail + rest);
      LoadsNext(im, tail + rest, loads);
      assert [b] + bs + after == [b] + (bs + after);
      if Blobs(im + (tail + rest), loads).Some? {
        Cons(BlobAt(im).value, Blobs(tail + rest, loads).value, b, bs + after);
      }
      NextLoadable(keys, loads);
    }
  }

  lemma Cons(x: Blob, s: seq<Blob>, y: Blob, t: seq<Blob>)
    ensures [x] + s == [y] + t <==> x == y && s == t
  {
    assert ([x] + s)[1..] == s && ([y] + t)[1..] == t;
  }

  lemma NextLoadable(keys: seq<Listed>, loads: seq<octet> -> bool)
    requires keys != [] && keys[0].Primary?
    ensures AllLoadable(keys, loads) <==> Loadable(keys[0].entry, loads) && AllLoadable(keys[1..], loads)
  {
    hide Loadable;
    if Loadable(keys[0].entry, loads) && AllLoadable(keys[1..], loads) {
      forall i | 0 <= i < |keys| && keys[i].Primary?
        ensures Loadable(keys[i].entry, loads)
      {
        assert i > 0 ==> keys[i] == keys[1..][i - 1];
      }
    }
  }

  lemma {:induction false} AcceptedIff(k: Entry, now: nat, base: nat, sha1: seq<octet> -> Digest,
                                       loads: seq<octet> -> bool)
    requires Writable(k, now, base, sha1)
    ensures var im := PgpImage(k, now, base, sha1);
            var b := PgpBlob(im, PgpOf(k, now, base));
            Framed(im) && (BlobAt(im) == Some(b) && Accepted(b, loads) <==> Loadable(k, loads))
  {
    hide PgpImage, StringsAt, Flatten, KeyblockOf, UidEntries, Expirations, KeyRecsOf, UidRecsOf, SigRecsOf;
    hide BlobAt, Fits, Keyblock, W32, U32;
    BlobRoundTrip(k, now, base, sha1);
    assert PgpOf(k, now, base).keyblockLength == |KeyblockOf(k)|;
  }

  lemma {:induction false} X509RoundTrip(blobs: seq<Blob>, loads: seq<octet> -> bool)
    requires forall i :: 0 <= i < |blobs| ==> BlobAt(blobs[i].image) == Some(blobs[i])
    ensures Blobs(Images(X509Blobs(blobs)), loads) == Some(X509Blobs(blobs))
  {
    hide BlobAt;
    if blobs != [] {
      assert forall i :: 0 <= i < |blobs[1..]| ==> BlobAt(blobs[1..][i].image) == Some(blobs[1..][i]) by {
        forall i | 0 <= i < |blobs[1..]|
          ensures BlobAt(blobs[1..][i].image) == Some(blobs[1..][i])
        {
          assert blobs[1..][i] == blobs[i + 1];
        }
      }
      X509RoundTrip(blobs[1..], loads);
      var rest := X509Blobs(blobs[1..]);
      if IsX509(blobs[0]) {
        assert ([blobs[0]] + rest)[1..] == rest;
        BlobFramed(blobs[0].image);
        LoadsNext(blobs[0].image, Images(rest), loads);
      } else {
        assert [] + rest == rest;
      }
    }
  }

  lemma BlobFramed(im: seq<octet>)
    requires BlobAt(im).Some?
    ensures Framed(im)
  {
    hide U32, PgpAt, HeaderAt;
  }

  /** Writing a store and loading the file: the header keeps the file's creation time, every primary
      key comes back as its own blob in order, the X.509 blobs come back unchanged; and this holds
      exactly when every primary key fits the format and is accepted by the key loader. */
  lemma {:induction false} FileRoundTrip(blobs: seq<Blob>, keys: seq<Listed>, now: nat, sha1: seq<octet> -> Digest,
                                         loads: seq<octet> -> bool, direct: bool)
    requires FileImage(blobs, keys, now, sha1, direct).Some?
    requires forall i :: 0 <= i < |blobs| ==> BlobAt(blobs[i].image) == Some(blobs[i])
    ensures var created := CreatedAt(blobs, now);
            var head := HeaderImage(created, now);
            Blobs(FileImage(blobs, keys, now, sha1, direct).value, loads)
            == Some([Header(head, W32(created))] + PgpBlobs(keys, now, HeaderCount(direct), sha1) + X509Blobs(blobs))
            <==> AllLoadable(keys, loads)
  {
    hide BlobAt, Blobs, HeaderImage, PgpImages, PgpBlobs, AllLoadable, X509Blobs, Images, W32, U32, HeaderCount;
    var created := CreatedAt(blobs, now);
    var head := HeaderImage(created, now);
    var pgp, x := PgpImages(keys, now, HeaderCount(direct), sha1).value, X509Blobs(blobs);
    var bs := PgpBlobs(keys, now, HeaderCount(direct), sha1);
    X509RoundTrip(blobs, loads);
    KeysRoundTrip(keys, now, HeaderCount(direct), sha1, loads, Images(x), x);
    HeaderRead(created, now);
    LoadsNext(head, pgp + Images(x), loads);
    assert head + pgp + Images(x) == head + (pgp + Images(x));
    var h := Header(head, W32(created));
    assert [h] + bs + x == [h] + (bs + x);
    if Blobs(pgp + Images(x), loads).Some? {
      Cons(h, Blobs(pgp + Images(x), loads).value, h, bs + x);
    }
  }

  /** Loading a keybox, writing it and loading that file keeps its X.509 blobs and creation time,
      whatever its keys became. */
  lemma {:induction false} ReloadKeeps(input: seq<octet>, keys: seq<Listed>, now: nat, sha1: seq<octet> -> Digest,
                                       loads: seq<octet> -> bool, direct: bool)
    requires Blobs(input, loads).Some? && FileImage(Blobs(input, loads).value, keys, now, sha1, direct).Some?
    requires AllLoadable(keys, loads)
    ensures var first := Blobs(input, loads).value;
            var again := Blobs(FileImage(first, keys, now, sha1, direct).value, loads);
            && again.Some? && again.value != [] && again.value[0].Header?
            && (first != [] && first[0].Header? ==> again.value[0].fileCreatedAt == first[0].fileCreatedAt)
            && X509Blobs(again.value) == X509Blobs(first)
  {
    hide BlobAt, Blobs, HeaderImage, FileImage, AllLoadable, U32;
    var first := Blobs(input, loads).value;
    LoadConserves(input, loads);
    FileRoundTrip(first, keys, now, sha1, loads, direct);
    NoX509(keys, now, HeaderCount(direct), sha1);
    var created := CreatedAt(first, now);
    var h := Header(HeaderImage(created, now), W32(created));
    var pgp := PgpBlobs(keys, now, HeaderCount(direct), sha1);
    X509Append([h] + pgp, X509Blobs(first));
    X509Append([h], pgp);
    X509Twice(first);
    assert [h][1..] == [];
    if first != [] && first[0].Header? {
      HeaderTime(first[0].image);
    }
  }

  lemma HeaderTime(im: seq<octet>)
    requires BlobAt(im).Some? && BlobAt(im).value.Header?
    ensures W32(BlobAt(im).value.fileCreatedAt) == BlobAt(im).value.fileCreatedAt
  {
    hide PgpAt, U32;
  }

  lemma {:induction false} NoX509(keys: seq<Listed>, now: nat, c: Count, sha1: seq<octet> -> Digest)
    requires Sane(c)
    ensures X509Blobs(PgpBlobs(keys, now, c, sha1)) == []
    decreases |keys|
  {
    hide PgpImage, PgpOf, Advance;
    if keys != [] {
      if keys[0].Sub? {
        NoX509(keys[1..], now, c, sha1);
      } else if AllPresent(keys[0].entry.subs) {
        var im := PgpImage(keys[0].entry, now, c.sent, sha1);
        NoX509(keys[1..], now, Advance(c, |im|), sha1);
        var rest := PgpBlobs(keys[1..], now, Advance(c, |im|), sha1);
        assert ([PgpBlob(im, PgpOf(keys[0].entry, now, c.sent))] + rest)[1..] == rest;
      }
    }
  }

  lemma {:induction false} X509Append(a: seq<Blob>, b: seq<Blob>)
    ensures X509Blobs(a + b) == X509Blobs(a) + X509Blobs(b)
  {
    hide IsX509;
    if a == [] {
      assert a + b == b;
    } else {
      assert (a + b)[1..] == a[1..] + b && (a + b)[0] == a[0];
      X509Append(a[1..], b);
    }
  }

  lemma {:induction false} X509Twice(blobs: seq<Blob>)
    ensures X509Blobs(X509Blobs(blobs)) == X509Blobs(blobs)
  {
    if blobs != [] {
      X509Twice(blobs[1..]);
      var rest := X509Blobs(blobs[1..]);
      assert ([blobs[0]] + rest)[1..] == rest && [] + rest == rest;
    }
  }
}
