/** Do the offsets in a written keybox point at what they name? Key id offsets, inside a blob, always do.
    Userid offsets, in the file, do exactly if the destination's cache was empty. */
module KbxOffsets {
  import opened Options
  import opened Octets
  import opened Sequences
  import opened Destination
  import opened Kbx
  import opened KbxWriter
  import opened KbxRoundTrip

  // ----- Positions -----

  lemma AtInside(s: seq<octet>, i: nat, p: seq<octet>, j: nat, q: seq<octet>)
    requires At(s, i, p) && At(p, j, q)
    ensures At(s, i + j, q)
  {
    var a, c := p[..j], p[j + |q|..];
    assert p == a + (q + c);
    AtSplit(s, i, a, q + c);
    AtSplit(s, i + j, q, c);
  }

  lemma TwoParts(a: seq<octet>, b: seq<octet>)
    ensures At(a + b, 0, a) && At(a + b, |a|, b)
  {
    assert (a + b)[..|a|] == a && (a + b)[|a|..|a| + |b|] == b;
  }

  lemma {:induction false} UidEntryIs(uids: seq<seq<octet>>, at: nat, i: nat)
    requires i < |uids|
    ensures UidEntries(uids, at)[i] == (at + |Flatten(uids[..i])|, |uids[i]|)
    decreases |uids|
  {
    if i == 0 {
      assert uids[..0] == [];
    } else {
      UidEntryIs(uids[1..], at + |uids[0]|, i - 1);
      assert uids[..i][0] == uids[0] && uids[..i][1..] == uids[1..][..i - 1];
    }
  }

  lemma {:induction false} UidRecIs(es: seq<(nat, nat)>, i: nat)
    requires i < |es|
    ensures UidRecsOf(es)[i] == UidRec(W32(es[i].0), W32(es[i].1), 0, 0)
  {
    hide W32;
    if i > 0 {
      UidRecIs(es[1..], i - 1);
    }
  }

  lemma StringAt(uids: seq<seq<octet>>, i: nat)
    requires i < |uids|
    ensures At(Flatten(uids), |Flatten(uids[..i])|, uids[i])
  {
    hide Flatten;
    var a, b := uids[..i], uids[i..];
    assert uids == a + b;
    FlattenAppend(a, b);
    FlattenNext(uids, i);
    var s, f := Flatten(uids), Flatten(a);
    assert s == f + (uids[i] + Flatten(uids[i + 1..]));
    assert s[|f|..|f| + |uids[i]|] == uids[i];
  }

  // ----- One blob -----

  /** Where in its blob userid `i` stands. */
  function UidPlace(k: Entry, now: nat, i: nat): (n: nat)
    requires AllPresent(k.subs) && i < |k.uids|
  {
    StringsAt(k, now) + |Flatten(k.uids[..i])|
  }

  /** The userid stands there; its record has its length, and that place after the counted bytes. */
  lemma UidRecordPoints(k: Entry, now: nat, base: nat, sha1: seq<octet> -> Digest, i: nat)
    requires Writable(k, now, base, sha1) && i < |k.uids|
    ensures At(PgpImage(k, now, base, sha1), UidPlace(k, now, i), k.uids[i])
    ensures i < |PgpOf(k, now, base).uids|
    ensures PgpOf(k, now, base).uids[i] == UidRec(W32(base + UidPlace(k, now, i)), W32(|k.uids[i]|), 0, 0)
  {
    hide PgpImage, At, StringsAt, Flatten, UidEntries, UidRecsOf, KeyRecsOf, SigRecsOf, KeyblockOf, Expirations, W32;
    hide Fixed, Mid, Post, UidTable;
    var at := StringsAt(k, now);
    ImageParts(k, now, base, sha1);
    StringAt(k.uids, i);
    AtInside(PgpImage(k, now, base, sha1), at, Flatten(k.uids), |Flatten(k.uids[..i])|, k.uids[i]);
    UidEntryIs(k.uids, base + at, i);
    UidRecIs(UidEntries(k.uids, base + at), i);
  }

  lemma {:induction false} KeyIdInTable(fps: seq<seq<octet>>, at: nat, i: nat)
    requires 20 <= at && i < |fps| && |fps[i]| >= 8
    ensures exists o: nat :: IdOffset(fps, at, i, o)
    decreases |fps|
  {
    hide KeyRow, KeyTable, KeyRecsOf, W32, At;
    TableFirst(fps, at);
    if i == 0 {
      assert IdOffset(fps, at, 0, at + |fps[0]| - 8);
    } else {
      var n := |fps[0]| + 8;
      KeyIdInTable(fps[1..], at + n, i - 1);
      var o: nat :| IdOffset(fps[1..], at + n, i - 1, o);
      AtInside(KeyTable(fps, at), n, KeyTable(fps[1..], at + n), o - at - n, fps[i][|fps[i]| - 8..]);
      assert IdOffset(fps, at, i, o);
    }
  }

  lemma TableFirst(fps: seq<seq<octet>>, at: nat)
    requires 20 <= at && fps != []
    ensures var t, n := KeyTable(fps, at), |fps[0]| + 8;
            && At(t, n, KeyTable(fps[1..], at + n))
            && (|fps[0]| >= 8 ==> At(t, |fps[0]| - 8, fps[0][|fps[0]| - 8..]))
            && KeyRecsOf(fps, at)[0].keyidOffset == W32(at + |fps[0]| - 8)
            && KeyRecsOf(fps, at)[1..] == KeyRecsOf(fps[1..], at + n)
  {
    hide Be32, Be16, W32;
    var t, row, fp := KeyTable(fps, at), KeyRow(fps[0], at), fps[0];
    assert t == row + KeyTable(fps[1..], at + |row|);
    if |fp| >= 8 {
      assert t[..|fp|] == fp;
      assert t[|fp| - 8..|fp|] == t[..|fp|][|fp| - 8..];
    }
  }

  /** In a table that starts at `at`, record `i` has offset `o`, and the last 8 bytes of its fingerprint
      stand there. */
  predicate IdOffset(fps: seq<seq<octet>>, at: nat, i: nat, o: nat)
    requires 20 <= at && i < |fps| && |fps[i]| >= 8
  {
    && at <= o && KeyRecsOf(fps, at)[i].keyidOffset == W32(o)
    && At(KeyTable(fps, at), o - at, fps[i][|fps[i]| - 8..])
  }

  /** The key id offset of every key record is where the last 8 bytes of its fingerprint stand in the blob. */
  lemma KeyIdPoints(k: Entry, now: nat, base: nat, sha1: seq<octet> -> Digest, i: nat)
    requires Writable(k, now, base, sha1) && i < 1 + |k.subs| && |AllFps(k)[i]| >= 8
    ensures var im, rec, fp := PgpImage(k, now, base, sha1), PgpOf(k, now, base).keys[i], AllFps(k)[i];
            At(im, rec.keyidOffset, fp[|fp| - 8..])
  {
    hide PgpImage, At, StringsAt, Flatten, UidEntries, UidRecsOf, KeyRecsOf, SigRecsOf, KeyblockOf, Expirations, W32;
    hide Fixed, Post, UidTable, KeyTable, Be16;
    var fps, im := AllFps(k), PgpImage(k, now, base, sha1);
    var t := KeyTable(fps, 20);
    ImageParts(k, now, base, sha1);
    AtSplit(im, 20, t + Be16(0) + Be16(|k.uids|), Be16(12));
    AtSplit(im, 20, t + Be16(0), Be16(|k.uids|));
    AtSplit(im, 20, t, Be16(0));
    KeyIdInTable(fps, 20, i);
    var o: nat :| IdOffset(fps, 20, i, o);
    AtInside(im, 20, t, o - 20, fps[i][|fps[i]| - 8..]);
    InImage(im, o, fps[i][|fps[i]| - 8..]);
  }

  lemma InImage(im: seq<octet>, o: nat, p: seq<octet>)
    requires At(im, o, p) && |im| <= BLOB_SIZE_LIMIT
    ensures W32(o) == o
  {
    Small(o);
  }

  // ----- The file -----

  /** The destination's counters when key `j` is written. */
  function CountAt(keys: seq<Listed>, now: nat, c: Count, sha1: seq<octet> -> Digest, j: nat): (r: Count)
    requires Sane(c) && j <= |keys| && PgpImages(keys, now, c, sha1).Some?
    ensures Sane(r) && r.direct == c.direct
    decreases j
  {
    if j == 0 then c
    else if keys[0].Sub? then CountAt(keys[1..], now, c, sha1, j - 1)
    else CountAt(keys[1..], now, Advance(c, |PgpImage(keys[0].entry, now, c.sent, sha1)|), sha1, j - 1)
  }

  /** Primary keys in front of key `j`. */
  function PrimariesBefore(keys: seq<Listed>, j: nat): (n: nat)
    requires j <= |keys|
  {
    if j == 0 then 0 else (if keys[0].Sub? then 0 else 1) + PrimariesBefore(keys[1..], j - 1)
  }

  /** The blob of key `j` stands where all bytes counted and cached before it end, and it is read back in its turn. */
  lemma {:induction false} BlobStands(keys: seq<Listed>, now: nat, c: Count, sha1: seq<octet> -> Digest, j: nat)
    requires Sane(c) && PgpImages(keys, now, c, sha1).Some? && j < |keys| && keys[j].Primary?
    ensures var q, k := CountAt(keys, now, c, sha1, j), keys[j].entry;
            && Writable(k, now, q.sent, sha1) && c.sent + c.cached <= q.sent + q.cached
            && At(PgpImages(keys, now, c, sha1).value, q.sent + q.cached - (c.sent + c.cached),
                  PgpImage(k, now, q.sent, sha1))
            && PrimariesBefore(keys, j) < |PgpBlobs(keys, now, c, sha1)|
            && PgpBlobs(keys, now, c, sha1)[PrimariesBefore(keys, j)]
               == PgpBlob(PgpImage(k, now, q.sent, sha1), PgpOf(k, now, q.sent))
    decreases j
  {
    hide PgpImage, PgpOf, Advance, At;
    var all := PgpImages(keys, now, c, sha1).value;
    if keys[0].Sub? {
      BlobStands(keys[1..], now, c, sha1, j - 1);
    } else {
      var im := PgpImage(keys[0].entry, now, c.sent, sha1);
      var d := Advance(c, |im|);
      var rest := PgpImages(keys[1..], now, d, sha1).value;
      TwoParts(im, rest);
      if j > 0 {
        BlobStands(keys[1..], now, d, sha1, j - 1);
        var q := CountAt(keys[1..], now, d, sha1, j - 1);
        AtInside(all, |im|, rest, q.sent + q.cached - (d.sent + d.cached),
                 PgpImage(keys[j].entry, now, q.sent, sha1));
      }
    }
  }

  /** Userid `i` of key `j` stands at a place in the file, and its record has that place less the bytes that
      were in the cache: it is the place, in 32 bits, exactly if there were none. */
  lemma UidOffsetExact(blobs: seq<Blob>, keys: seq<Listed>, now: nat, sha1: seq<octet> -> Digest, direct: bool,
                       j: nat, i: nat)
    requires FileImage(blobs, keys, now, sha1, direct).Some?
    requires j < |keys| && keys[j].Primary? && i < |keys[j].entry.uids|
    ensures var k, q := keys[j].entry, CountAt(keys, now, HeaderCount(direct), sha1, j);
            && Writable(k, now, q.sent, sha1) && i < |PgpOf(k, now, q.sent).uids|
            && var rec, at := PgpOf(k, now, q.sent).uids[i], q.sent + q.cached + UidPlace(k, now, i);
            && At(FileImage(blobs, keys, now, sha1, direct).value, at, k.uids[i])
            && rec.offset == W32(at - q.cached)
            && (rec.offset == W32(at) <==> q.cached == 0)
            && (direct ==> q.cached == 0)
  {
    hide PgpImage, PgpOf, PgpImages, PgpBlobs, CountAt, HeaderImage, CreatedAt, X509Blobs, Images, UidPlace, W32;
    var f, c := FileImage(blobs, keys, now, sha1, direct).value, HeaderCount(direct);
    var head, pgp := HeaderImage(CreatedAt(blobs, now), now), PgpImages(keys, now, c, sha1).value;
    var k, q := keys[j].entry, CountAt(keys, now, c, sha1, j);
    BlobStands(keys, now, c, sha1, j);
    UidRecordPoints(k, now, q.sent, sha1, i);
    var im := PgpImage(k, now, q.sent, sha1);
    assert At(f, |head|, pgp);
    AtInside(f, |head|, pgp, q.sent + q.cached - |head|, im);
    AtInside(f, q.sent + q.cached, im, UidPlace(k, now, i), k.uids[i]);
    Shifted(q.sent + UidPlace(k, now, i), q.cached);
  }

  lemma Shifted(n: nat, d: nat)
    requires d <= CACHE
    ensures W32(n) == W32(n + d) <==> d == 0
  {
  }

  /** With a cache the header is still in it when the first primary key comes: its userid offsets are 32 too
      small. */
  lemma {:induction false} FirstKeyIsOff(keys: seq<Listed>, now: nat, sha1: seq<octet> -> Digest, j: nat)
    requires PgpImages(keys, now, HeaderCount(false), sha1).Some?
    requires j < |keys| && forall i :: 0 <= i < j ==> keys[i].Sub?
    ensures CountAt(keys, now, HeaderCount(false), sha1, j) == Count(false, 0, BLOB_FIRST_SIZE)
    decreases j
  {
    hide PgpImage, Writable;
    if j > 0 {
      FirstKeyIsOff(keys[1..], now, sha1, j - 1);
    }
  }
}
