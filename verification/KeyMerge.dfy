/** Merging another copy of a key: what the layout gains and what it keeps. */
module KeyMerge {
  import opened Signatures
  import opened KeyLayout

  // ----- Specification of the merge -----

  function SigsOf(src: Layout, ids: seq<SigId>): (r: seq<Sig>)
    requires forall id :: id in ids ==> id in src.subs
    ensures |r| == |ids| && forall i :: 0 <= i < |ids| ==> r[i] == src.subs[ids[i]].sig
  {
    seq(|ids|, i requires 0 <= i < |ids| => src.subs[ids[i]].sig)
  }

  /** get_uid_idx: the first userid with this packet, or the number of userids. */
  function UidIdx(uids: seq<Uid>, pkt: UidPkt): (i: nat)
    ensures i <= |uids| && (i < |uids| ==> uids[i].pkt == pkt)
    ensures forall j :: 0 <= j < i ==> uids[j].pkt != pkt
  {
    if uids == [] || uids[0].pkt == pkt then 0 else 1 + UidIdx(uids[1..], pkt)
  }

  /** One userid of the source: found by packet or appended, then its new signatures. */
  function MergeUid(l: Layout, src: Layout, u: Uid): (r: Layout)
    requires Good(l) && Good(src) && |l.uids| < UID_ANY
    requires forall id :: id in u.sigs ==> id in src.subs
    ensures Good(r) && |r.uids| <= |l.uids| + 1
  {
    var i := UidIdx(l.uids, u.pkt);
    AddUidGood(l, u.pkt);
    AddNew(if i == |l.uids| then AddUid(l, u.pkt) else l, SigsOf(src, u.sigs), i)
  }

  function MergeUids(l: Layout, src: Layout, uids: seq<Uid>): (r: Layout)
    requires Good(l) && Good(src) && |l.uids| + |uids| <= UID_ANY
    requires forall u, id :: u in uids && id in u.sigs ==> id in src.subs
    ensures Good(r)
    decreases |uids|
  {
    if uids == [] then l else MergeUids(MergeUid(l, src, uids[0]), src, uids[1..])
  }

  /** merge: direct-key signatures first, then userids and their signatures. */
  function Merge(l: Layout, src: Layout): (r: Layout)
    requires Good(l) && Good(src) && |l.uids| + |src.uids| <= UID_ANY
    ensures Good(r)
  {
    MergeUids(AddNew(l, SigsOf(src, src.keysigs), UID_NONE), src, src.uids)
  }

  /** merge of a subkey: only its direct signatures. */
  function MergeSubkey(l: Layout, src: Layout): (r: Layout)
    requires Good(l) && Good(src)
    ensures Good(r)
  {
    AddNew(l, SigsOf(src, src.keysigs), UID_NONE)
  }

  function Pkts(uids: seq<Uid>): set<UidPkt> {
    set u | u in uids :: u.pkt
  }

  // ----- What is kept -----

  /** Taking the ids that `l` did not have out of `r` gives back the old signatures, in the old
      order, in every list. */
  ghost predicate Extends(l: Layout, r: Layout) {
    var d := Drop(r, r.subs.Keys - l.subs.Keys);
    && l.subs.Keys <= r.subs.Keys && |l.uids| <= |r.uids|
    && d.subs == l.subs && d.sigs == l.sigs && d.keysigs == l.keysigs
    && d.uids[..|l.uids|] == l.uids
  }

  lemma ExtendsSelf(l: Layout)
    requires Good(l)
    ensures Extends(l, l)
  {
    hide Drop;
    assert l.subs.Keys - l.subs.Keys == {};
    DropNothing(l, {});
    assert l.uids[..|l.uids|] == l.uids;
  }

  lemma ExtendsTrans(l: Layout, m: Layout, r: Layout)
    requires Extends(l, m) && Extends(m, r)
    ensures Extends(l, r)
  {
    hide Without, DropUids;
    var a, b := r.subs.Keys - m.subs.Keys, m.subs.Keys - l.subs.Keys;
    assert a + b == r.subs.Keys - l.subs.Keys;
    DropTwice(r, a, b);
    var d, e := Drop(r, a), Drop(r, a + b);
    assert e == Drop(d, b);
    forall u | 0 <= u < |l.uids| ensures e.uids[u] == l.uids[u] {
      assert d.uids[..|m.uids|][u] == m.uids[u];
      assert Drop(m, b).uids[..|l.uids|][u] == l.uids[u];
    }
  }

  lemma OthersUntouched(l: Layout, r: Layout, x: SigId, uid: nat)
    requires Good(l) && x !in l.subs && |r.uids| == |l.uids|
    requires forall u :: 0 <= u < |l.uids| && u != uid ==> r.uids[u] == l.uids[u]
    requires uid < |l.uids| ==> Uid(r.uids[uid].pkt, Without(r.uids[uid].sigs, {x})) == l.uids[uid]
    ensures DropUids(r.uids, {x}) == l.uids
  {
    hide Without;
    var d := DropUids(r.uids, {x});
    forall u | 0 <= u < |l.uids| ensures d[u] == l.uids[u] {
      if u != uid {
        WithoutNone(l.uids[u].sigs, {x});
      }
    }
  }

  /** del_sig undoes add_sig. */
  lemma DropUndoesAdd(l: Layout, sig: Sig, uid: nat, begin: bool)
    requires Good(l) && (uid == UID_NONE || uid < |l.uids|) && sig.id !in l.subs
    ensures Drop(AddSig(l, sig, uid, begin), {sig.id}) == l
  {
    hide Insert, DropUids, Without, NoDup, Flat;
    var x, r := sig.id, AddSig(l, sig, uid, begin);
    assert r.subs - {x} == l.subs;
    if uid == UID_NONE {
      var i := if begin then 0 else |l.keysigs|;
      WithoutInserted(l.sigs, i, x);
      WithoutInserted(l.keysigs, i, x);
    } else {
      FlatAt(l.uids, uid);
      var i := if begin then 0 else |l.uids[uid].sigs|;
      WithoutInserted(l.sigs, Start(l, uid) + i, x);
      WithoutInserted(l.uids[uid].sigs, i, x);
      WithoutNone(l.keysigs, {x});
    }
    OthersUntouched(l, r, x, uid);
  }

  lemma WithoutInserted(s: seq<SigId>, i: nat, x: SigId)
    requires i <= |s| && x !in s
    ensures Without(Insert(s, i, x), {x}) == s
  {
    hide Without;
    WithoutAppend(s[..i] + [x], s[i..], {x});
    WithoutAppend(s[..i], [x], {x});
    WithoutNone(s[..i], {x});
    WithoutNone(s[i..], {x});
    WithoutAll([x], {x});
    assert s[..i] + [] + s[i..] == s;
  }

  // ----- What is gained -----

  function IdsOf(sigs: seq<Sig>): set<SigId> {
    set s | s in sigs :: s.id
  }

  lemma AddIfNewFacts(l: Layout, sig: Sig, uid: nat)
    requires Good(l) && (uid == UID_NONE || uid < |l.uids|)
    ensures var r := AddIfNew(l, sig, uid);
            && r.subs.Keys == l.subs.Keys + {sig.id} && Extends(l, r)
            && (forall u :: 0 <= u < |l.uids| ==> r.uids[u].pkt == l.uids[u].pkt)
  {
    hide Drop, Good, Insert;
    var r := AddIfNew(l, sig, uid);
    AddSigGood(l, sig, uid, false);
    if sig.id in l.subs {
      ExtendsSelf(l);
    } else {
      assert r.subs.Keys - l.subs.Keys == {sig.id};
      DropUndoesAdd(l, sig, uid, false);
      assert l.uids[..|l.uids|] == l.uids;
    }
  }

  lemma {:induction false} AddNewFacts(l: Layout, sigs: seq<Sig>, uid: nat)
    requires Good(l) && (uid == UID_NONE || uid < |l.uids|)
    ensures var r := AddNew(l, sigs, uid);
            && r.subs.Keys == l.subs.Keys + IdsOf(sigs) && Extends(l, r)
            && (forall u :: 0 <= u < |l.uids| ==> r.uids[u].pkt == l.uids[u].pkt)
    decreases |sigs|
  {
    hide Extends, Good, AddIfNew;
    if sigs == [] {
      ExtendsSelf(l);
    } else {
      var m := AddIfNew(l, sigs[0], uid);
      AddIfNewFacts(l, sigs[0], uid);
      AddNewFacts(m, sigs[1..], uid);
      ExtendsTrans(l, m, AddNew(m, sigs[1..], uid));
      assert sigs == [sigs[0]] + sigs[1..];
      assert IdsOf(sigs) == {sigs[0].id} + IdsOf(sigs[1..]);
    }
  }

  lemma IdsOfSigsOf(src: Layout, ids: seq<SigId>)
    requires Good(src) && forall id :: id in ids ==> id in src.subs
    ensures IdsOf(SigsOf(src, ids)) == Ids(ids)
  {
    var s := SigsOf(src, ids);
    forall id | id in Ids(ids) ensures id in IdsOf(s) {
      var i :| 0 <= i < |ids| && ids[i] == id;
      assert s[i] in s;
    }
  }

  lemma AddUidExtends(l: Layout, pkt: UidPkt)
    requires Good(l) && |l.uids| < UID_ANY
    ensures Extends(l, AddUid(l, pkt))
  {
    hide Without, DropUids;
    var r := AddUid(l, pkt);
    AddUidGood(l, pkt);
    assert r.subs.Keys - l.subs.Keys == {};
    ExtendsSelf(r);
    DropNothing(r, {});
    assert r.uids[..|l.uids|] == l.uids;
  }

  lemma MergeUidFacts(l: Layout, src: Layout, u: Uid)
    requires Good(l) && Good(src) && |l.uids| < UID_ANY
    requires forall id :: id in u.sigs ==> id in src.subs
    ensures var r := MergeUid(l, src, u);
            && r.subs.Keys == l.subs.Keys + Ids(u.sigs) && Extends(l, r)
            && Pkts(r.uids) == Pkts(l.uids) + {u.pkt}
            && (|r.uids| == |l.uids| <==> u.pkt in Pkts(l.uids))
  {
    hide Extends, Good, AddNew;
    var i := UidIdx(l.uids, u.pkt);
    AddUidGood(l, u.pkt);
    AddUidExtends(l, u.pkt);
    ExtendsSelf(l);
    var m := if i == |l.uids| then AddUid(l, u.pkt) else l;
    AddNewFacts(m, SigsOf(src, u.sigs), i);
    IdsOfSigsOf(src, u.sigs);
    var r := MergeUid(l, src, u);
    ExtendsTrans(l, m, r);
    SamePkts(m.uids, r.uids);
    if i == |l.uids| {
      PktsAppend(l.uids, u.pkt);
      assert u.pkt !in Pkts(l.uids);
    } else {
      assert l.uids[i] in l.uids;
      assert Pkts(l.uids) + {u.pkt} == Pkts(l.uids);
    }
  }

  lemma SamePkts(a: seq<Uid>, b: seq<Uid>)
    requires |a| == |b| && forall u :: 0 <= u < |a| ==> b[u].pkt == a[u].pkt
    ensures Pkts(a) == Pkts(b)
  {
    forall p | p in Pkts(a) ensures p in Pkts(b) {
      var i :| 0 <= i < |a| && a[i].pkt == p;
      assert b[i] in b;
    }
    forall p | p in Pkts(b) ensures p in Pkts(a) {
      var i :| 0 <= i < |b| && b[i].pkt == p;
      assert a[i] in a;
    }
  }

  lemma PktsAppend(a: seq<Uid>, pkt: UidPkt)
    ensures Pkts(a + [Uid(pkt, [])]) == Pkts(a) + {pkt}
  {
    var b := a + [Uid(pkt, [])];
    assert b[|a|] in b;
    forall p | p in Pkts(a) ensures p in Pkts(b) {
      var u :| u in a && u.pkt == p;
      assert u in b;
    }
  }

  lemma {:induction false} MergeUidsFacts(l: Layout, src: Layout, uids: seq<Uid>)
    requires Good(l) && Good(src) && |l.uids| + |uids| <= UID_ANY
    requires forall u, id :: u in uids && id in u.sigs ==> id in src.subs
    ensures var r := MergeUids(l, src, uids);
            && r.subs.Keys == l.subs.Keys + Ids(Flat(uids)) && Extends(l, r)
            && Pkts(r.uids) == Pkts(l.uids) + Pkts(uids)
            && (|r.uids| == |l.uids| <==> Pkts(uids) <= Pkts(l.uids))
    decreases |uids|
  {
    hide Extends, Good, MergeUid, Flat, Ids, Pkts;
    if uids == [] {
      NoUids(l);
      ExtendsSelf(l);
    } else {
      var m, r := MergeUid(l, src, uids[0]), MergeUids(l, src, uids);
      MergeUidFacts(l, src, uids[0]);
      MergeUidsFacts(m, src, uids[1..]);
      ExtendsTrans(l, m, r);
      ExtendsGrows(l, m);
      ExtendsGrows(m, r);
      FirstUid(uids);
    }
  }

  lemma NoUids(l: Layout)
    ensures l.subs.Keys + Ids(Flat([])) == l.subs.Keys && Pkts(l.uids) + Pkts([]) == Pkts(l.uids)
    ensures Pkts([]) <= Pkts(l.uids)
  {
  }

  lemma FirstUid(uids: seq<Uid>)
    requires uids != []
    ensures Pkts(uids) == {uids[0].pkt} + Pkts(uids[1..])
    ensures Ids(Flat(uids)) == Ids(uids[0].sigs) + Ids(Flat(uids[1..]))
  {
    assert uids == [uids[0]] + uids[1..];
  }

  lemma ExtendsGrows(l: Layout, r: Layout)
    requires Extends(l, r)
    ensures |l.uids| <= |r.uids|
  {
  }

  lemma GoodIds(l: Layout)
    requires Good(l)
    ensures forall id :: id in l.keysigs ==> id in l.subs
    ensures forall u, id :: u in l.uids && id in u.sigs ==> id in l.subs
    ensures Ids(l.keysigs) + Ids(Flat(l.uids)) == l.subs.Keys
  {
  }

  /** Merge is set union of signatures and of userid packets; the old signatures keep their
      entries, their owners and their order. */
  lemma MergeUnion(l: Layout, src: Layout)
    requires Good(l) && Good(src) && |l.uids| + |src.uids| <= UID_ANY
    ensures var r := Merge(l, src);
            && r.subs.Keys == l.subs.Keys + src.subs.Keys
            && Pkts(r.uids) == Pkts(l.uids) + Pkts(src.uids)
            && Extends(l, r)
            && (|r.uids| == |l.uids| <==> Pkts(src.uids) <= Pkts(l.uids))
  {
    hide Extends, AddNew, MergeUids, Good;
    GoodIds(src);
    var m := AddNew(l, SigsOf(src, src.keysigs), UID_NONE);
    AddNewFacts(l, SigsOf(src, src.keysigs), UID_NONE);
    IdsOfSigsOf(src, src.keysigs);
    MergeUidsFacts(m, src, src.uids);
    ExtendsTrans(l, m, Merge(l, src));
    SamePkts(l.uids, m.uids);
  }

  lemma {:induction false} AddNewNothing(l: Layout, sigs: seq<Sig>, uid: nat)
    requires Good(l) && (uid == UID_NONE || uid < |l.uids|) && IdsOf(sigs) <= l.subs.Keys
    ensures AddNew(l, sigs, uid) == l
    decreases |sigs|
  {
    hide Good;
    if sigs != [] {
      assert sigs[0].id in IdsOf(sigs);
      AddNewNothing(l, sigs[1..], uid);
    }
  }

  lemma {:induction false} MergeUidsNothing(l: Layout, src: Layout, uids: seq<Uid>)
    requires Good(l) && Good(src) && |l.uids| + |uids| <= UID_ANY
    requires forall u, id :: u in uids && id in u.sigs ==> id in src.subs
    requires Ids(Flat(uids)) <= l.subs.Keys && Pkts(uids) <= Pkts(l.uids)
    ensures MergeUids(l, src, uids) == l
    decreases |uids|
  {
    hide Good, AddNew;
    if uids != [] {
      var u, i := uids[0], UidIdx(l.uids, uids[0].pkt);
      assert u.pkt in Pkts(uids);
      assert i < |l.uids|;
      assert Ids(Flat(uids)) == Ids(u.sigs) + Ids(Flat(uids[1..]));
      IdsOfSigsOf(src, u.sigs);
      AddNewNothing(l, SigsOf(src, u.sigs), i);
      MergeUidsNothing(l, src, uids[1..]);
    }
  }

  /** A source that brings nothing new changes nothing. */
  lemma MergeNothing(l: Layout, src: Layout)
    requires Good(l) && Good(src) && |l.uids| + |src.uids| <= UID_ANY
    requires src.subs.Keys <= l.subs.Keys && Pkts(src.uids) <= Pkts(l.uids)
    ensures Merge(l, src) == l
  {
    hide Good, AddNew, MergeUids;
    GoodIds(src);
    IdsOfSigsOf(src, src.keysigs);
    AddNewNothing(l, SigsOf(src, src.keysigs), UID_NONE);
    MergeUidsNothing(l, src, src.uids);
  }

  /** A second merge of the same source changes nothing. */
  lemma MergeIdempotent(l: Layout, src: Layout)
    requires Good(l) && Good(src) && |l.uids| + |src.uids| <= UID_ANY
    requires |Merge(l, src).uids| + |src.uids| <= UID_ANY
    ensures Merge(Merge(l, src), src) == Merge(l, src)
  {
    hide Merge;
    MergeUnion(l, src);
    MergeNothing(Merge(l, src), src);
  }

  /** rawpkt_count for other than G10 keys. */
  function RawpktCount(l: Layout): nat {
    1 + |l.uids| + |l.sigs|
  }

  lemma {:induction false} NoDupCount(s: seq<SigId>)
    requires NoDup(s)
    ensures |Ids(s)| == |s|
  {
    if s != [] {
      var t := s[1..];
      NoDupCount(t);
      assert s == [s[0]] + t;
      NoDupAppend([s[0]], t);
      assert Ids(s) == {s[0]} + Ids(t) && s[0] !in Ids(t);
    }
  }

  lemma SigCount(l: Layout)
    requires Good(l)
    ensures |l.sigs| == |l.subs.Keys|
  {
    NoDupCount(l.sigs);
    assert Ids(l.sigs) == l.subs.Keys;
  }

  lemma UnionCount(a: set<SigId>, b: set<SigId>)
    ensures |a + b| >= |a| && (|a + b| == |a| <==> b <= a)
  {
    var added := b - a;
    assert a + b == a + added && a !! added;
    if b <= a {
      assert added == {};
    } else {
      var x :| x in added;
      assert |added| > 0;
    }
  }

  /** The packet count grows exactly if the source brings a new userid packet or signature. */
  lemma {:induction false} MergeCount(l: Layout, src: Layout)
    requires Good(l) && Good(src) && |l.uids| + |src.uids| <= UID_ANY
    ensures RawpktCount(Merge(l, src)) >= RawpktCount(l)
    ensures RawpktCount(Merge(l, src)) == RawpktCount(l)
            <==> src.subs.Keys <= l.subs.Keys && Pkts(src.uids) <= Pkts(l.uids)
  {
    hide Merge, Good, Extends;
    var r := Merge(l, src);
    MergeUnion(l, src);
    ExtendsGrows(l, r);
    SigCount(l);
    SigCount(r);
    UnionCount(l.subs.Keys, src.subs.Keys);
  }

  /** The same for a subkey, of which only the direct signatures are merged. */
  lemma {:induction false} MergeSubkeyCount(l: Layout, src: Layout)
    requires Good(l) && Good(src)
    ensures RawpktCount(MergeSubkey(l, src)) >= RawpktCount(l)
    ensures RawpktCount(MergeSubkey(l, src)) == RawpktCount(l) <==> Ids(src.keysigs) <= l.subs.Keys
  {
    hide Good, Extends, AddNew;
    GoodIds(src);
    var r := MergeSubkey(l, src);
    AddNewFacts(l, SigsOf(src, src.keysigs), UID_NONE);
    IdsOfSigsOf(src, src.keysigs);
    SigCount(l);
    SigCount(r);
    UnionCount(l.subs.Keys, Ids(src.keysigs));
  }
}
