/** What stands where in a written keybox blob, record by record: which key, userid or signature each parsed
    record belongs to. The records are named by their places, not by the tables the writer builds. */
module KbxRecords {
  import opened Options
  import opened Octets
  import opened Sequences
  import opened Destination
  import opened Kbx
  import opened KbxWriter
  import opened KbxRoundTrip
  import opened KbxOffsets

  /** Number of signatures of these subkeys. */
  function SigCount(subs: seq<Option<Subkey>>): (n: nat)
    requires AllPresent(subs)
  {
    if subs == [] then 0 else |subs[0].value.expirations| + SigCount(subs[1..])
  }

  /** Number of bytes of these subkeys' packets. */
  function ByteCount(subs: seq<Option<Subkey>>): (n: nat)
    requires AllPresent(subs)
  {
    if subs == [] then 0 else |subs[0].value.body| + ByteCount(subs[1..])
  }

  lemma PresentPrefix(subs: seq<Option<Subkey>>, s: nat)
    requires AllPresent(subs) && s <= |subs|
    ensures AllPresent(subs[..s])
  {
  }

  lemma {:induction false} SubExpirationAt(subs: seq<Option<Subkey>>, s: nat, j: nat)
    requires AllPresent(subs) && s < |subs| && j < |subs[s].value.expirations|
    ensures AllPresent(subs[..s])
    ensures var n := SigCount(subs[..s]) + j;
            n < |SubExpirations(subs)| && SubExpirations(subs)[n] == subs[s].value.expirations[j]
  {
    PresentPrefix(subs, s);
    if s > 0 {
      SubExpirationAt(subs[1..], s - 1, j);
      assert subs[..s][1..] == subs[1..][..s - 1];
    }
  }

  lemma {:induction false} SubBodyAt(subs: seq<Option<Subkey>>, s: nat)
    requires AllPresent(subs) && s < |subs|
    ensures AllPresent(subs[..s]) && At(SubBodies(subs), ByteCount(subs[..s]), subs[s].value.body)
  {
    hide At;
    PresentPrefix(subs, s);
    var first, rest := subs[0].value.body, SubBodies(subs[1..]);
    TwoParts(first, rest);
    if s > 0 {
      SubBodyAt(subs[1..], s - 1);
      assert subs[..s][1..] == subs[1..][..s - 1];
      AtInside(SubBodies(subs), |first|, rest, ByteCount(subs[1..][..s - 1]), subs[s].value.body);
    }
  }

  lemma {:induction false} Counts(subs: seq<Option<Subkey>>)
    requires AllPresent(subs)
    ensures |SubExpirations(subs)| == SigCount(subs) && |SubBodies(subs)| == ByteCount(subs)
  {
    if subs != [] {
      Counts(subs[1..]);
    }
  }

  lemma {:induction false} FpAt(subs: seq<Option<Subkey>>, s: nat)
    requires AllPresent(subs) && s < |subs|
    ensures Fps(subs)[s] == subs[s].value.fp
  {
    if s > 0 {
      FpAt(subs[1..], s - 1);
    }
  }

  lemma {:induction false} SigRecIs(exps: seq<nat>, i: nat)
    requires i < |exps|
    ensures SigRecsOf(exps)[i] == W32(exps[i])
  {
    hide W32;
    if i > 0 {
      SigRecIs(exps[1..], i - 1);
    }
  }

  /** Key records: the key itself, then its subkeys in the order of its list. */
  lemma KeyRecordIs(k: Entry, now: nat, base: nat, s: nat)
    requires AllPresent(k.subs) && s < |k.subs|
    ensures var p := PgpOf(k, now, base);
            |p.keys| == 1 + |k.subs| && p.keys[0].fp == k.fp && p.keys[1 + s].fp == k.subs[s].value.fp
  {
    hide StringsAt, Flatten, UidEntries, UidRecsOf, KeyRecsOf, SigRecsOf, KeyblockOf, Expirations, W32;
    ExpectedFps(AllFps(k), 20, 0);
    ExpectedFps(AllFps(k), 20, 1 + s);
    FpAt(k.subs, s);
  }

  /** Signature records: first the key's own, one for each in order. */
  lemma OwnSigRecordIs(k: Entry, now: nat, base: nat, i: nat)
    requires AllPresent(k.subs) && i < |k.expirations|
    ensures var p := PgpOf(k, now, base);
            i < |p.sigs| && p.sigs[i] == W32(k.expirations[i])
  {
    hide StringsAt, Flatten, UidEntries, UidRecsOf, KeyRecsOf, SigRecsOf, KeyblockOf, W32;
    SigRecIs(Expirations(k), i);
  }

  /** Then the subkeys', subkey by subkey: record `j` of subkey `s` stands behind the key's own records and
      those of the subkeys before it. */
  lemma SubSigRecordIs(k: Entry, now: nat, base: nat, s: nat, j: nat)
    requires AllPresent(k.subs) && s < |k.subs| && j < |k.subs[s].value.expirations|
    ensures AllPresent(k.subs[..s])
    ensures var p, n := PgpOf(k, now, base), |k.expirations| + SigCount(k.subs[..s]) + j;
            n < |p.sigs| && p.sigs[n] == W32(k.subs[s].value.expirations[j])
  {
    hide StringsAt, Flatten, UidEntries, UidRecsOf, KeyRecsOf, SigRecsOf, KeyblockOf, W32, SigCount, SubExpirations;
    SubExpirationAt(k.subs, s, j);
    SigRecIs(Expirations(k), |k.expirations| + SigCount(k.subs[..s]) + j);
  }

  /** Packets: first the key's own, then the subkeys', one behind the other. */
  lemma KeyblockParts(k: Entry, s: nat)
    requires AllPresent(k.subs) && s < |k.subs|
    ensures k.body <= KeyblockOf(k) && AllPresent(k.subs[..s])
    ensures At(KeyblockOf(k), |k.body| + ByteCount(k.subs[..s]), k.subs[s].value.body)
  {
    hide At, SubBodies, ByteCount;
    SubBodyAt(k.subs, s);
    TwoParts(k.body, SubBodies(k.subs));
    AtInside(KeyblockOf(k), |k.body|, SubBodies(k.subs), ByteCount(k.subs[..s]), k.subs[s].value.body);
  }

  /** What the reader finds in the blob of a key that fits the format, by number and place. */
  ghost predicate Holds(k: Entry, now: nat, b: Blob)
    requires AllPresent(k.subs)
  {
    && b.PgpBlob?
    && var p := b.pgp;
    // as many records as keys, userids and signatures
    && |p.keys| == 1 + |k.subs| && |p.uids| == |k.uids| && |p.sigs| == |k.expirations| + SigCount(k.subs)
    && p.timestamp == W32(now) && p.createdAt == W32(now)
    // the key, then its subkeys
    && p.keys[0].fp == k.fp
    && (forall s :: 0 <= s < |k.subs| ==> p.keys[1 + s].fp == k.subs[s].value.fp)
    // the userids
    && (forall i :: 0 <= i < |k.uids| ==> p.uids[i].length == W32(|k.uids[i]|))
    // the key's signatures, then those of its subkeys
    && (forall i :: 0 <= i < |k.expirations| ==> p.sigs[i] == W32(k.expirations[i]))
    && (forall s, j :: 0 <= s < |k.subs| && 0 <= j < |k.subs[s].value.expirations| ==> SubSigHolds(k, p, s, j))
    // the key's packets, then those of its subkeys
    && k.body <= Keyblock(b) && |Keyblock(b)| == |k.body| + ByteCount(k.subs)
    && (forall s :: 0 <= s < |k.subs| ==> SubBodyHolds(k, b, s))
  }

  ghost predicate SubSigHolds(k: Entry, p: Pgp, s: nat, j: nat)
    requires AllPresent(k.subs) && s < |k.subs| && j < |k.subs[s].value.expirations|
  {
    PresentPrefix(k.subs, s);
    var n := |k.expirations| + SigCount(k.subs[..s]) + j;
    n < |p.sigs| && p.sigs[n] == W32(k.subs[s].value.expirations[j])
  }

  ghost predicate SubBodyHolds(k: Entry, b: Blob, s: nat)
    requires AllPresent(k.subs) && s < |k.subs| && b.PgpBlob?
  {
    PresentPrefix(k.subs, s);
    At(Keyblock(b), |k.body| + ByteCount(k.subs[..s]), k.subs[s].value.body)
  }

  /** The written blob of a key that fits the format parses, and holds all this. */
  lemma {:induction false} BlobHolds(k: Entry, now: nat, base: nat, sha1: seq<octet> -> Digest)
    requires Writable(k, now, base, sha1) && KbxRoundTrip.Fits(k)
    ensures var b := BlobAt(PgpImage(k, now, base, sha1));
            b.Some? && b.value.image == PgpImage(k, now, base, sha1) && Holds(k, now, b.value)
  {
    hide PgpImage, BlobAt, Keyblock, StringsAt, Flatten, UidEntries, UidRecsOf, KeyRecsOf, SigRecsOf, KeyblockOf, W32;
    hide KbxRoundTrip.Fits, SubSigHolds, SubBodyHolds, SubExpirations, SigCount, ByteCount;
    var b := PgpBlob(PgpImage(k, now, base, sha1), PgpOf(k, now, base));
    BlobRoundTrip(k, now, base, sha1);
    KeysHold(k, now, base);
    UidsHold(k, now, base, sha1);
    SigsHold(k, now, base);
    BodiesHold(k, b);
  }

  lemma KeysHold(k: Entry, now: nat, base: nat)
    requires AllPresent(k.subs)
    ensures var p := PgpOf(k, now, base);
            && |p.keys| == 1 + |k.subs| && p.keys[0].fp == k.fp
            && forall s :: 0 <= s < |k.subs| ==> p.keys[1 + s].fp == k.subs[s].value.fp
  {
    hide StringsAt, Flatten, UidEntries, UidRecsOf, KeyRecsOf, SigRecsOf, KeyblockOf, Expirations, W32;
    ExpectedFps(AllFps(k), 20, 0);
    forall s | 0 <= s < |k.subs| ensures PgpOf(k, now, base).keys[1 + s].fp == k.subs[s].value.fp {
      KeyRecordIs(k, now, base, s);
    }
  }

  lemma UidsHold(k: Entry, now: nat, base: nat, sha1: seq<octet> -> Digest)
    requires Writable(k, now, base, sha1)
    ensures var p := PgpOf(k, now, base);
            |p.uids| == |k.uids| && forall i :: 0 <= i < |k.uids| ==> p.uids[i].length == W32(|k.uids[i]|)
  {
    hide PgpImage, At, StringsAt, Flatten, UidEntries, UidRecsOf, KeyRecsOf, SigRecsOf, KeyblockOf, Expirations, W32;
    hide UidPlace;
    forall i | 0 <= i < |k.uids| ensures PgpOf(k, now, base).uids[i].length == W32(|k.uids[i]|) {
      UidRecordPoints(k, now, base, sha1, i);
    }
  }

  lemma SigsHold(k: Entry, now: nat, base: nat)
    requires AllPresent(k.subs)
    ensures var p := PgpOf(k, now, base);
            && |p.sigs| == |k.expirations| + SigCount(k.subs)
            && (forall i :: 0 <= i < |k.expirations| ==> p.sigs[i] == W32(k.expirations[i]))
            && (forall s, j :: 0 <= s < |k.subs| && 0 <= j < |k.subs[s].value.expirations| ==>
                  SubSigHolds(k, p, s, j))
  {
    hide StringsAt, Flatten, UidEntries, UidRecsOf, KeyRecsOf, SigRecsOf, KeyblockOf, W32, SigCount, SubExpirations;
    Counts(k.subs);
    var p := PgpOf(k, now, base);
    forall i | 0 <= i < |k.expirations| ensures p.sigs[i] == W32(k.expirations[i]) {
      OwnSigRecordIs(k, now, base, i);
    }
    forall s, j | 0 <= s < |k.subs| && 0 <= j < |k.subs[s].value.expirations| ensures SubSigHolds(k, p, s, j) {
      SubSigRecordIs(k, now, base, s, j);
    }
  }

  lemma BodiesHold(k: Entry, b: Blob)
    requires AllPresent(k.subs) && b.PgpBlob? && Keyblock(b) == KeyblockOf(k)
    ensures k.body <= Keyblock(b) && |Keyblock(b)| == |k.body| + ByteCount(k.subs)
    ensures forall s :: 0 <= s < |k.subs| ==> SubBodyHolds(k, b, s)
  {
    hide At, SubBodies, ByteCount, Keyblock;
    Counts(k.subs);
    forall s | 0 <= s < |k.subs| ensures SubBodyHolds(k, b, s) {
      KeyblockParts(k, s);
    }
  }

  /** The same for a whole file: the blob of each primary key comes back in its turn behind the header, and holds
      what the key's blob holds. */
  lemma {:induction false} FileHolds(blobs: seq<Blob>, keys: seq<Listed>, now: nat, sha1: seq<octet> -> Digest,
                                     loads: seq<octet> -> bool, direct: bool, j: nat)
    requires FileImage(blobs, keys, now, sha1, direct).Some? && AllLoadable(keys, loads)
    requires forall i :: 0 <= i < |blobs| ==> BlobAt(blobs[i].image) == Some(blobs[i])
    requires j < |keys| && keys[j].Primary?
    ensures AllPresent(keys[j].entry.subs)
    ensures var read, n := Blobs(FileImage(blobs, keys, now, sha1, direct).value, loads), 1 + PrimariesBefore(keys, j);
            read.Some? && n < |read.value| && Holds(keys[j].entry, now, read.value[n])
  {
    hide BlobAt, Blobs, HeaderImage, PgpImage, PgpImages, PgpBlobs, X509Blobs, Images, PgpOf, Holds, W32, CountAt;
    hide PrimariesBefore, HeaderCount, KbxRoundTrip.Fits, CreatedAt;
    var c := HeaderCount(direct);
    FileRoundTrip(blobs, keys, now, sha1, loads, direct);
    BlobStands(keys, now, c, sha1, j);
    var k, base := keys[j].entry, CountAt(keys, now, c, sha1, j).sent;
    assert Loadable(k, loads);
    BlobHolds(k, now, base, sha1);
    BlobRoundTrip(k, now, base, sha1);
  }
}
