/** One key, seen by the parts that use it: its signatures in order for the validity rules, and its
    entry for the keybox writer. Both are functions of the layout that the key store holds. */
module KeyViews {
  import opened Options
  import opened Octets
  import opened Sequences
  import opened Signatures
  import opened KeyValidity
  import L = KeyLayout
  import R = KeyRecord
  import Run = KeyRun
  import F = KeyRefresh
  import S = KeyStore
  import K = Kbx
  import W = KbxWriter
  import T = KbxRoundTrip
  import B = KbxRecords

  // ----- Signatures in order -----

  predicate Listable(l: L.Layout) {
    forall i :: 0 <= i < |l.sigs| ==> l.sigs[i] in l.subs
  }

  function InOrder(l: L.Layout): (r: seq<SubSig>)
    requires Listable(l)
    ensures |r| == |l.sigs| && forall i :: 0 <= i < |r| ==> r[i] == l.subs[l.sigs[i]]
  {
    seq(|l.sigs|, i requires 0 <= i < |l.sigs| => l.subs[l.sigs[i]])
  }

  /** With the lists in step, each signature in order is on the key or on a userid the key has, and each
      is there under its own id. */
  lemma GoodInOrder(l: L.Layout)
    requires L.Good(l)
    ensures Listable(l) && RealUids(InOrder(l))
    ensures forall i :: 0 <= i < |l.sigs| ==> InOrder(l)[i].sig.id == l.sigs[i]
    ensures forall i :: 0 <= i < |l.sigs| ==> InOrder(l)[i].uid == UID_NONE || InOrder(l)[i].uid < |l.uids|
  {
    hide L.Flat, L.NoDup;
    forall i | 0 <= i < |l.sigs|
      ensures l.sigs[i] in l.subs
      ensures l.subs[l.sigs[i]].uid == UID_NONE || l.subs[l.sigs[i]].uid < |l.uids|
    {
      var id := l.sigs[i];
      assert id in l.sigs;
      assert id in l.keysigs || id in L.Flat(l.uids);
      L.FlatHas(l.uids, id);
    }
  }

  /** The layout with the entries of its signatures replaced, in order. */
  function Restored(l: L.Layout, ss: seq<SubSig>): (r: L.Layout)
    requires L.NoDup(l.sigs) && |ss| == |l.sigs|
  {
    l.(subs := map i | 0 <= i < |l.sigs| :: l.sigs[i] := ss[i])
  }

  /** New verdicts on the signatures can be put back: the lists stay in step, and reading the signatures in
      order again gives just these. */
  lemma RestoredGood(l: L.Layout, ss: seq<SubSig>)
    requires L.Good(l) && Listable(l) && |ss| == |l.sigs|
    requires forall i :: 0 <= i < |ss| ==> ss[i].sig == InOrder(l)[i].sig && ss[i].uid == InOrder(l)[i].uid
    ensures L.Good(Restored(l, ss)) && Listable(Restored(l, ss)) && InOrder(Restored(l, ss)) == ss
  {
    hide L.Good;
    GoodIsUnique(l);
    RestoredAt(l, ss);
    SameSubsGood(l, Restored(l, ss));
  }

  lemma RestoredAt(l: L.Layout, ss: seq<SubSig>)
    requires L.NoDup(l.sigs) && |ss| == |l.sigs|
    ensures var r := Restored(l, ss);
            && (forall i :: 0 <= i < |ss| ==> l.sigs[i] in r.subs && r.subs[l.sigs[i]] == ss[i])
            && (forall id :: id in r.subs ==> id in l.sigs)
  {
  }

  /** Only signature, owner and order matter to the lists. */
  lemma SameSubsGood(l: L.Layout, r: L.Layout)
    requires L.Good(l) && Listable(l) && Listable(r) && r == l.(subs := r.subs)
    requires forall id :: id in r.subs ==> id in l.sigs
    requires forall i :: 0 <= i < |l.sigs| ==>
      var s, t := l.subs[l.sigs[i]], r.subs[l.sigs[i]]; s.sig == t.sig && s.uid == t.uid
    ensures L.Good(r)
  {
    hide L.Flat, L.NoDup;
    SameSubs(l, r);
  }

  lemma SameSubs(l: L.Layout, r: L.Layout)
    requires L.Good(l) && Listable(l) && Listable(r) && r.sigs == l.sigs
    requires forall i :: 0 <= i < |l.sigs| ==>
      var s, t := l.subs[l.sigs[i]], r.subs[l.sigs[i]]; s.sig == t.sig && s.uid == t.uid
    ensures forall id :: id in l.subs ==>
      id in r.subs && r.subs[id].sig == l.subs[id].sig && r.subs[id].uid == l.subs[id].uid
  {
    hide L.Ordered, L.NoDup;
    forall id | id in l.subs
      ensures id in r.subs && r.subs[id].sig == l.subs[id].sig && r.subs[id].uid == l.subs[id].uid
    {
      assert id in l.sigs;
      var i :| 0 <= i < |l.sigs| && l.sigs[i] == id;
    }
  }

  /** Checking the signatures of a key keeps its lists in step. */
  lemma CheckedGood(l: L.Layout, k: Info, check: F.Check)
    requires L.Good(l) && Listable(l)
    ensures var ss := F.Checked(k, InOrder(l), check);
            L.Good(Restored(l, ss)) && Listable(Restored(l, ss)) && InOrder(Restored(l, ss)) == ss
  {
    hide L.Good, F.CheckedOne;
    GoodIsUnique(l);
    RestoredGood(l, F.Checked(k, InOrder(l), check));
  }

  lemma GoodIsUnique(l: L.Layout)
    requires L.Good(l)
    ensures L.NoDup(l.sigs)
  {
    hide L.NoDup;
  }

  /** After any run of changes under fresh ids, from an empty key or any other in order: there is a signature
      to decide by exactly if there is a valid self-signature, and then validity, expiration and valid-till
      agree. */
  lemma RunAgreement(first: L.Layout, ops: seq<Run.Op>, k: Info, now: nat, bound: bool)
    requires L.Good(first) && Run.FreshRun(first, ops) && now <= FOREVER
    ensures var l := Run.Final(first, ops);
            && Listable(l)
            && var sigs := InOrder(l);
            && (Deciding(k, sigs) != [] <==>
                  exists i :: 0 <= i < |sigs|
                              && (Wanted(k, sigs[i], SelfSig(UID_NONE)) || Wanted(k, sigs[i], SelfSig(UID_ANY))))
            && (!Revoked(k, sigs) && Deciding(k, sigs) != [] && k.creation + PrimaryExpiration(k, sigs) <= FOREVER ==>
                  var v, e := PrimaryValidity(k, sigs, now, bound), PrimaryExpiration(k, sigs);
                  var till := ValidTill(k, v, e, None, v.expired);
                  && v.validated && v.valid != v.expired && (v.valid <==> e == 0 || k.creation + e >= now)
                  && (v.valid ==> now <= till) && (v.expired ==> till < now))
  {
    hide L.Good, Run.FreshRun, Run.Final, Deciding, Revoked, PrimaryExpiration, PrimaryValidity, ValidTill, Wanted;
    var l := Run.Final(first, ops);
    Run.RunGood(first, ops);
    GoodInOrder(l);
    var sigs := InOrder(l);
    DecidingExists(k, sigs);
    if !Revoked(k, sigs) && Deciding(k, sigs) != [] && k.creation + PrimaryExpiration(k, sigs) <= FOREVER {
      ExpiryAgreement(k, sigs, now, bound);
    }
  }

  // ----- Keybox entries -----

  /** How fingerprints, userids and packets look as bytes. */
  datatype Forms = Forms(fp: Fp -> seq<octet>, text: UidPkt -> seq<octet>, packet: (Fp, R.Packet) -> seq<octet>)

  function ExpirationsOf(l: L.Layout): (r: seq<nat>)
    requires Listable(l)
    ensures |r| == |l.sigs|
  {
    seq(|l.sigs|, i requires 0 <= i < |l.sigs| => InOrder(l)[i].sig.keyExpiration)
  }

  /** The bytes a key is written as. */
  function BodyOf(k: S.Source, f: Forms): (r: seq<octet>) {
    var ps := R.Packets(k.layout);
    Flatten(seq(|ps|, i requires 0 <= i < |ps| => f.packet(k.fp, ps[i])))
  }

  function SubkeyOf(k: S.Source, f: Forms): (r: W.Subkey)
    requires Listable(k.layout)
  {
    W.Subkey(f.fp(k.fp), ExpirationsOf(k.layout), BodyOf(k, f))
  }

  predicate AllListable(keys: seq<S.Source>) {
    forall i :: 0 <= i < |keys| ==> Listable(keys[i].layout)
  }

  /** The stored key with a fingerprint. */
  function Lookup(keys: seq<S.Source>, fp: Fp): (r: Option<S.Source>)
    ensures r.None? <==> forall i :: 0 <= i < |keys| ==> keys[i].fp != fp
    ensures r.Some? ==> r.value in keys && r.value.fp == fp
  {
    if keys == [] then None else if keys[0].fp == fp then Some(keys[0]) else Lookup(keys[1..], fp)
  }

  function SubsOf(fps: seq<Fp>, keys: seq<S.Source>, f: Forms): (r: seq<Option<W.Subkey>>)
    requires AllListable(keys)
    ensures |r| == |fps|
    ensures forall i :: 0 <= i < |fps| ==> (r[i].Some? <==> Lookup(keys, fps[i]).Some?)
  {
    if fps == [] then []
    else
      var k := Lookup(keys, fps[0]);
      [if k.Some? then Some(SubkeyOf(k.value, f)) else None] + SubsOf(fps[1..], keys, f)
  }

  /** What the writer is given for a stored primary key. */
  function EntryOf(k: S.Source, keys: seq<S.Source>, f: Forms): (r: W.Entry)
    requires AllListable(keys) && Listable(k.layout)
  {
    W.Entry(f.fp(k.fp), seq(|k.layout.uids|, i requires 0 <= i < |k.layout.uids| => f.text(k.layout.uids[i].pkt)),
            ExpirationsOf(k.layout), BodyOf(k, f), SubsOf(k.subkeyFps, keys, f))
  }

  /** Signatures of the listed subkeys. */
  function SubSigCount(fps: seq<Fp>, keys: seq<S.Source>): (n: nat)
    requires forall i :: 0 <= i < |fps| ==> Lookup(keys, fps[i]).Some?
  {
    if fps == [] then 0 else |Lookup(keys, fps[0]).value.layout.sigs| + SubSigCount(fps[1..], keys)
  }

  lemma {:induction false} SubCounts(fps: seq<Fp>, keys: seq<S.Source>, f: Forms)
    requires AllListable(keys) && forall i :: 0 <= i < |fps| ==> Lookup(keys, fps[i]).Some?
    ensures W.AllPresent(SubsOf(fps, keys, f))
    ensures |W.SubExpirations(SubsOf(fps, keys, f))| == SubSigCount(fps, keys)
  {
    hide Lookup;
    if fps != [] {
      SubCounts(fps[1..], keys, f);
      var subs := SubsOf(fps, keys, f);
      assert subs[1..] == SubsOf(fps[1..], keys, f);
    }
  }

  lemma {:induction false} SubIs(fps: seq<Fp>, keys: seq<S.Source>, f: Forms, s: nat)
    requires AllListable(keys) && s < |fps| && forall i :: 0 <= i < |fps| ==> Lookup(keys, fps[i]).Some?
    ensures Listable(Lookup(keys, fps[s]).value.layout)
    ensures SubsOf(fps, keys, f)[s] == Some(SubkeyOf(Lookup(keys, fps[s]).value, f))
    ensures SubsOf(fps, keys, f)[..s] == SubsOf(fps[..s], keys, f)
  {
    hide Lookup, SubkeyOf;
    if s > 0 {
      SubIs(fps[1..], keys, f, s - 1);
      assert fps[..s][1..] == fps[1..][..s - 1];
    }
  }

  lemma {:induction false} SubSigCounts(fps: seq<Fp>, keys: seq<S.Source>, f: Forms)
    requires AllListable(keys) && forall i :: 0 <= i < |fps| ==> Lookup(keys, fps[i]).Some?
    ensures W.AllPresent(SubsOf(fps, keys, f)) && B.SigCount(SubsOf(fps, keys, f)) == SubSigCount(fps, keys)
  {
    hide Lookup;
    if fps != [] {
      SubSigCounts(fps[1..], keys, f);
      var subs := SubsOf(fps, keys, f);
      assert subs[1..] == SubsOf(fps[1..], keys, f);
    }
  }

  /** Signature `j` of the key's listed subkey `s` has its record behind the key's own and those of the subkeys
      listed before it. */
  predicate SubSigStored(k: S.Source, keys: seq<S.Source>, p: K.Pgp, s: nat, j: nat)
    requires forall i :: 0 <= i < |k.subkeyFps| ==> Lookup(keys, k.subkeyFps[i]).Some?
    requires s < |k.subkeyFps| && Listable(Lookup(keys, k.subkeyFps[s]).value.layout)
    requires j < |Lookup(keys, k.subkeyFps[s]).value.layout.sigs|
  {
    var l := Lookup(keys, k.subkeyFps[s]).value.layout;
    var n := |k.layout.sigs| + SubSigCount(k.subkeyFps[..s], keys) + j;
    n < |p.sigs| && p.sigs[n] == W32(l.subs[l.sigs[j]].sig.keyExpiration)
  }

  lemma SubSigsStored(k: S.Source, keys: seq<S.Source>, f: Forms, p: K.Pgp, s: nat, j: nat)
    requires Listable(k.layout) && AllListable(keys)
    requires forall i :: 0 <= i < |k.subkeyFps| ==> Lookup(keys, k.subkeyFps[i]).Some?
    requires s < |k.subkeyFps| && j < |Lookup(keys, k.subkeyFps[s]).value.layout.sigs|
    requires var e := EntryOf(k, keys, f);
             W.AllPresent(e.subs) && forall u, v :: 0 <= u < |e.subs| && 0 <= v < |e.subs[u].value.expirations| ==>
               B.SubSigHolds(e, p, u, v)
    ensures Listable(Lookup(keys, k.subkeyFps[s]).value.layout) && SubSigStored(k, keys, p, s, j)
  {
    hide Lookup, SubSigCount, B.SigCount, BodyOf, W32, SubsOf, Listable, B.SubSigHolds, ExpirationsOf, W.AllPresent;
    var e := EntryOf(k, keys, f);
    SubIs(k.subkeyFps, keys, f, s);
    SubSigCounts(k.subkeyFps[..s], keys, f);
    SubSigFrom(e, p, s, j, Lookup(keys, k.subkeyFps[s]).value.layout);
  }

  lemma SubSigFrom(e: W.Entry, p: K.Pgp, s: nat, j: nat, l: L.Layout)
    requires Listable(l) && W.AllPresent(e.subs) && s < |e.subs| && W.AllPresent(e.subs[..s])
    requires e.subs[s].value.expirations == ExpirationsOf(l) && j < |l.sigs| && B.SubSigHolds(e, p, s, j)
    ensures var n := |e.expirations| + B.SigCount(e.subs[..s]) + j;
            n < |p.sigs| && p.sigs[n] == W32(l.subs[l.sigs[j]].sig.keyExpiration)
  {
    hide B.SigCount, W32;
  }

  /** A stored key with all its listed subkeys in the store, written to a keybox and read back: one key
      record for the key and for each subkey, with their fingerprints; one record for each userid; one for each
      signature, with its key expiration, first the key's in order and then those of each subkey; and the
      keyblock is the bytes of the key followed by the subkeys'. */
  lemma StoredRoundTrip(k: S.Source, keys: seq<S.Source>, f: Forms, now: nat, base: nat, sha1: seq<octet> -> W.Digest)
    requires L.Good(k.layout) && Listable(k.layout) && AllListable(keys)
    requires forall i :: 0 <= i < |k.subkeyFps| ==> Lookup(keys, k.subkeyFps[i]).Some?
    requires var e := EntryOf(k, keys, f); W.Writable(e, now, base, sha1) && T.Fits(e)
    ensures var e := EntryOf(k, keys, f);
            var im, p := W.PgpImage(e, now, base, sha1), T.PgpOf(e, now, base);
            && K.BlobAt(im) == Some(K.PgpBlob(im, p))
            && |p.keys| == 1 + |k.subkeyFps| && |p.uids| == |k.layout.uids|
            && |p.sigs| == |k.layout.sigs| + SubSigCount(k.subkeyFps, keys)
            && 1 + |k.layout.uids| + |k.layout.sigs| == |R.Packets(k.layout)|
            && K.Keyblock(K.PgpBlob(im, p)) == BodyOf(k, f) + W.SubBodies(e.subs)
            && p.keys[0].fp == f.fp(k.fp)
            && (forall s :: 0 <= s < |k.subkeyFps| ==> p.keys[1 + s].fp == f.fp(k.subkeyFps[s]))
            && (forall i :: 0 <= i < |k.layout.sigs| ==>
                  p.sigs[i] == W32(k.layout.subs[k.layout.sigs[i]].sig.keyExpiration))
            && (forall s, j ::
                  0 <= s < |k.subkeyFps| && 0 <= j < |Lookup(keys, k.subkeyFps[s]).value.layout.sigs| ==>
                  Listable(Lookup(keys, k.subkeyFps[s]).value.layout) && SubSigStored(k, keys, p, s, j))
  {
    hide W.PgpImage, K.BlobAt, K.Keyblock, L.Good, R.Packets, Lookup, T.KeyRecsOf, T.UidRecsOf, T.SigRecsOf;
    hide W.UidEntries, W.StringsAt, Flatten, T.Fits, W.SubBodies, BodyOf;
    var e := EntryOf(k, keys, f);
    T.BlobRoundTrip(e, now, base, sha1);
    SubCounts(k.subkeyFps, keys, f);
    R.PacketCount(k.layout);
    StoredRecords(k, keys, f, now, base, sha1);
  }

  lemma StoredRecords(k: S.Source, keys: seq<S.Source>, f: Forms, now: nat, base: nat, sha1: seq<octet> -> W.Digest)
    requires Listable(k.layout) && AllListable(keys)
    requires forall i :: 0 <= i < |k.subkeyFps| ==> Lookup(keys, k.subkeyFps[i]).Some?
    requires var e := EntryOf(k, keys, f); W.Writable(e, now, base, sha1)
    ensures var p := T.PgpOf(EntryOf(k, keys, f), now, base);
            && |p.keys| == 1 + |k.subkeyFps| && p.keys[0].fp == f.fp(k.fp)
            && (forall s :: 0 <= s < |k.subkeyFps| ==> p.keys[1 + s].fp == f.fp(k.subkeyFps[s]))
            && |k.layout.sigs| <= |p.sigs|
            && (forall i :: 0 <= i < |k.layout.sigs| ==>
                  p.sigs[i] == W32(k.layout.subs[k.layout.sigs[i]].sig.keyExpiration))
            && (forall s, j ::
                  0 <= s < |k.subkeyFps| && 0 <= j < |Lookup(keys, k.subkeyFps[s]).value.layout.sigs| ==>
                  Listable(Lookup(keys, k.subkeyFps[s]).value.layout) && SubSigStored(k, keys, p, s, j))
  {
    hide W.PgpImage, Lookup, T.PgpOf, W.UidEntries, W.StringsAt, Flatten, W.SubBodies, BodyOf, W32, SubSigStored;
    hide B.SubSigHolds, B.SigCount;
    var e, p := EntryOf(k, keys, f), T.PgpOf(EntryOf(k, keys, f), now, base);
    B.KeysHold(e, now, base);
    B.SigsHold(e, now, base);
    forall s | 0 <= s < |k.subkeyFps| ensures p.keys[1 + s].fp == f.fp(k.subkeyFps[s]) {
      SubIs(k.subkeyFps, keys, f, s);
    }
    forall s, j | 0 <= s < |k.subkeyFps| && 0 <= j < |Lookup(keys, k.subkeyFps[s]).value.layout.sigs|
      ensures Listable(Lookup(keys, k.subkeyFps[s]).value.layout) && SubSigStored(k, keys, p, s, j)
    {
      SubSigsStored(k, keys, f, p, s, j);
    }
  }
}
