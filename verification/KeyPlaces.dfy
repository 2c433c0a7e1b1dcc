/** Where signatures end up: at which place of which owner's list each operation on a key puts them, and
    what it leaves alone. The layouts are described list by list, not by the functions that build them. */
module KeyPlaces {
  import opened Signatures
  import opened KeyLayout
  import opened KeyMerge
  import opened KeyRecord

  // ----- One signature -----

  /** add_sig puts the signature, not validated, at the front or the back of its owner's list. */
  lemma AddSigPlace(l: Layout, sig: Sig, uid: nat, begin: bool)
    requires Ordered(l) && (uid == UID_NONE || uid < |l.uids|)
    ensures var r := AddSig(l, sig, uid, begin);
            && r.subs == l.subs[sig.id := SubSig(sig, uid, NOT_VALIDATED)]
            && |r.uids| == |l.uids|
            && r.keysigs == (if uid == UID_NONE then Put(l.keysigs, sig.id, begin) else l.keysigs)
            && (forall u :: 0 <= u < |l.uids| ==>
                  r.uids[u] == Uid(l.uids[u].pkt, if u == uid != UID_NONE then Put(l.uids[u].sigs, sig.id, begin)
                                                  else l.uids[u].sigs))
  {
    if uid == UID_NONE {
      InsertEnds(l.keysigs, sig.id);
    } else {
      InsertEnds(l.uids[uid].sigs, sig.id);
    }
  }

  function Put(s: seq<SigId>, id: SigId, begin: bool): seq<SigId> {
    if begin then [id] + s else s + [id]
  }

  lemma InsertEnds(s: seq<SigId>, id: SigId)
    ensures Insert(s, 0, id) == [id] + s && Insert(s, |s|, id) == s + [id]
  {
    assert s[..|s|] + [id] + s[|s|..] == s + [id];
  }

  /** replace_sig with an id that is not in use: the new signature stands where the old one stood, with the
      same owner and not validated; nothing else changes. */
  lemma ReplaceSigPlace(l: Layout, id: SigId, newsig: Sig)
    requires Good(l) && id in l.subs && (newsig.id == id || newsig.id !in l.subs)
    ensures var n, r := newsig.id, ReplaceSig(l, id, newsig);
            && r.subs.Keys == l.subs.Keys - {id} + {n}
            && r.subs[n] == SubSig(newsig, l.subs[id].uid, NOT_VALIDATED)
            && (forall x :: x in l.subs && x != id ==> r.subs[x] == l.subs[x])
            && |r.sigs| == |l.sigs| && |r.keysigs| == |l.keysigs| && |r.uids| == |l.uids|
            && (forall i :: 0 <= i < |l.sigs| ==> r.sigs[i] == if l.sigs[i] == id then n else l.sigs[i])
            && (forall i :: 0 <= i < |l.keysigs| ==> r.keysigs[i] == if l.keysigs[i] == id then n else l.keysigs[i])
            && (forall u :: 0 <= u < |l.uids| ==> r.uids[u].pkt == l.uids[u].pkt)
  {
    hide Good, Flat;
  }

  /** del_uid: exactly that userid and its signatures go. The other signatures keep their verdicts and their
      packets' owners; the userids behind it move down by one. */
  lemma DropUidPlace(l: Layout, idx: nat)
    requires Good(l) && idx < |l.uids|
    ensures var r := DropUid(l, idx);
            && |r.uids| == |l.uids| - 1 && r.keysigs == l.keysigs
            && (forall u :: 0 <= u < idx ==> r.uids[u] == l.uids[u])
            && (forall u :: idx < u < |l.uids| ==> r.uids[u - 1] == l.uids[u])
            && (forall id :: id in r.subs <==> id in l.subs && l.subs[id].uid != idx)
            && (forall id :: id in r.subs ==>
                  && r.subs[id].sig == l.subs[id].sig && r.subs[id].validity == l.subs[id].validity
                  && (l.subs[id].uid == UID_NONE || l.subs[id].uid < idx ==> r.subs[id].uid == l.subs[id].uid)
                  && (idx < l.subs[id].uid < UID_NONE ==> r.subs[id].uid == l.subs[id].uid - 1))
  {
    hide NoDup, Flat, Without;
    forall id | id in l.subs ensures id in l.uids[idx].sigs <==> l.subs[id].uid == idx {
      OwnerLists(l, id);
    }
  }

  /** A signature is listed with the owner that its entry names, and nowhere else. */
  lemma OwnerLists(l: Layout, id: SigId)
    requires Good(l) && id in l.subs
    ensures l.subs[id].uid == UID_NONE <==> id in l.keysigs
    ensures l.subs[id].uid == UID_NONE || l.subs[id].uid < |l.uids|
    ensures forall u :: 0 <= u < |l.uids| ==> (l.subs[id].uid == u <==> id in l.uids[u].sigs)
  {
    hide NoDup, Flat;
    FlatHas(l.uids, id);
  }

  // ----- Several signatures on one owner -----

  /** Old entries are kept; new ones come from the source, not validated. */
  ghost predicate FromSource(l: Layout, src: Layout, r: Layout) {
    forall id :: id in r.subs ==>
      if id in l.subs then r.subs[id] == l.subs[id]
      else id in src.subs && r.subs[id].sig == src.subs[id].sig && r.subs[id].validity == NOT_VALIDATED
  }

  /** `r` is `l` with `more` at the end of the list of owner `uid`. */
  ghost predicate Gains(l: Layout, r: Layout, uid: nat, more: seq<SigId>) {
    && |r.uids| == |l.uids|
    && r.keysigs == (if uid == UID_NONE then l.keysigs + more else l.keysigs)
    && (forall u :: 0 <= u < |l.uids| ==>
          r.uids[u] == Uid(l.uids[u].pkt, if u == uid then l.uids[u].sigs + more else l.uids[u].sigs))
  }

  lemma GainsTrans(l: Layout, m: Layout, r: Layout, uid: nat, a: seq<SigId>, b: seq<SigId>)
    requires Gains(l, m, uid, a) && Gains(m, r, uid, b)
    ensures Gains(l, r, uid, a + b)
  {
    assert l.keysigs + a + b == l.keysigs + (a + b);
    if uid < |l.uids| {
      assert l.uids[uid].sigs + a + b == l.uids[uid].sigs + (a + b);
    }
  }

  lemma GainsNothing(l: Layout, uid: nat)
    ensures Gains(l, l, uid, [])
  {
    assert l.keysigs + [] == l.keysigs;
    if uid < |l.uids| {
      assert l.uids[uid].sigs + [] == l.uids[uid].sigs;
    }
  }

  lemma AddIfNewPlace(l: Layout, src: Layout, id: SigId, uid: nat)
    requires Good(l) && Good(src) && (uid == UID_NONE || uid < |l.uids|) && id in src.subs
    ensures var r := AddIfNew(l, src.subs[id].sig, uid);
            && r.subs.Keys == l.subs.Keys + {id} && FromSource(l, src, r)
            && Gains(l, r, uid, if id in l.subs then [] else [id])
  {
    hide Good, AddSig, Ordered;
    var sig := src.subs[id].sig;
    IdMatches(src, id);
    Orders(l);
    GoodParts(l);
    if id in l.subs {
      GainsNothing(l, uid);
    } else {
      AddSigPlace(l, sig, uid, false);
    }
  }

  lemma {:induction false} AddNewPlace(l: Layout, src: Layout, ids: seq<SigId>, uid: nat)
    requires Good(l) && Good(src) && (uid == UID_NONE || uid < |l.uids|)
    requires NoDup(ids) && forall id :: id in ids ==> id in src.subs
    ensures var r := AddNew(l, SigsOf(src, ids), uid);
            && r.subs.Keys == l.subs.Keys + Ids(ids) && FromSource(l, src, r)
            && Gains(l, r, uid, Without(ids, l.subs.Keys))
    decreases |ids|
  {
    hide Good, AddIfNew, Gains, FromSource, Ids, Without;
    if ids == [] {
      NoIds(l);
      GainsNothing(l, uid);
      FromSelf(l, src);
    } else {
      var sigs, rest := SigsOf(src, ids), ids[1..];
      assert sigs[1..] == SigsOf(src, rest);
      var m := AddIfNew(l, sigs[0], uid);
      AddIfNewPlace(l, src, ids[0], uid);
      FirstId(ids, l.subs.Keys);
      AddNewPlace(m, src, rest, uid);
      var r := AddNew(m, SigsOf(src, rest), uid);
      FromTrans(l, m, r, src);
      GainsTrans(l, m, r, uid, if ids[0] in l.subs then [] else [ids[0]], Without(rest, l.subs.Keys));
    }
  }

  lemma NoIds(l: Layout)
    ensures l.subs.Keys + Ids([]) == l.subs.Keys && Without([], l.subs.Keys) == []
  {
  }

  lemma FromSelf(l: Layout, src: Layout)
    ensures FromSource(l, src, l)
  {
  }

  lemma FromTrans(l: Layout, m: Layout, r: Layout, src: Layout)
    requires FromSource(l, src, m) && FromSource(m, src, r) && l.subs.Keys <= m.subs.Keys <= r.subs.Keys
    ensures FromSource(l, src, r)
  {
  }

  lemma FirstId(ids: seq<SigId>, known: set<SigId>)
    requires ids != [] && NoDup(ids)
    ensures NoDup(ids[1..]) && {ids[0]} + Ids(ids[1..]) == Ids(ids)
    ensures Without(ids, known) == (if ids[0] in known then [] else [ids[0]]) + Without(ids[1..], known)
    ensures Without(ids[1..], known + {ids[0]}) == Without(ids[1..], known)
  {
    hide Without;
    WithoutStep(ids, known);
    assert ids == [ids[0]] + ids[1..];
    NoDupAppend([ids[0]], ids[1..]);
    SameWithout(ids[1..], known, known + {ids[0]});
  }

  lemma WithoutStep(ids: seq<SigId>, known: set<SigId>)
    requires ids != []
    ensures Without(ids, known) == (if ids[0] in known then [] else [ids[0]]) + Without(ids[1..], known)
  {
  }

  lemma {:induction false} SameWithout(ids: seq<SigId>, a: set<SigId>, b: set<SigId>)
    requires forall id :: id in ids ==> (id in a <==> id in b)
    ensures Without(ids, a) == Without(ids, b)
  {
    if ids != [] {
      SameWithout(ids[1..], a, b);
    }
  }

  // ----- Merging -----

  /** Signatures of the first userid with this packet. */
  function Held(uids: seq<Uid>, pkt: UidPkt): seq<SigId> {
    var i := UidIdx(uids, pkt);
    if i < |uids| then uids[i].sigs else []
  }

  /** What the userids with this packet bring along, in their order, beside the ids already known. */
  function Gained(uids: seq<Uid>, pkt: UidPkt, known: set<SigId>): seq<SigId> {
    if uids == [] then []
    else (if uids[0].pkt == pkt then Without(uids[0].sigs, known) else []) + Gained(uids[1..], pkt, known)
  }

  lemma {:induction false} SameGained(uids: seq<Uid>, pkt: UidPkt, a: set<SigId>, b: set<SigId>)
    requires forall id :: id in Flat(uids) ==> (id in a <==> id in b)
    ensures Gained(uids, pkt, a) == Gained(uids, pkt, b)
  {
    hide Without;
    if uids != [] {
      SameWithout(uids[0].sigs, a, b);
      SameGained(uids[1..], pkt, a, b);
    }
  }

  lemma {:induction false} GainedHas(uids: seq<Uid>, v: nat, id: SigId, known: set<SigId>)
    requires v < |uids| && id in uids[v].sigs && id !in known
    ensures id in Gained(uids, uids[v].pkt, known)
  {
    if v > 0 {
      GainedHas(uids[1..], v - 1, id, known);
    }
  }

  lemma {:induction false} IdxOf(uids: seq<Uid>, pkt: UidPkt, i: nat)
    requires i <= |uids| && (i < |uids| ==> uids[i].pkt == pkt)
    requires forall j :: 0 <= j < i ==> uids[j].pkt != pkt
    ensures UidIdx(uids, pkt) == i
  {
  }

  /** The packets of the userids of `l` are at the front of those of `r`. */
  ghost predicate Follows(l: seq<Uid>, r: seq<Uid>) {
    |l| <= |r| && forall u :: 0 <= u < |l| ==> r[u].pkt == l[u].pkt
  }

  lemma FollowsIdx(l: seq<Uid>, r: seq<Uid>, pkt: UidPkt)
    requires Follows(l, r) && UidIdx(l, pkt) < |l|
    ensures UidIdx(r, pkt) == UidIdx(l, pkt)
  {
    IdxOf(r, pkt, UidIdx(l, pkt));
  }

  /** One userid of the source: the first userid with its packet gains the new signatures. */
  lemma MergeUidPlace(l: Layout, src: Layout, u: Uid)
    requires Good(l) && Good(src) && |l.uids| < UID_ANY
    requires NoDup(u.sigs) && forall id :: id in u.sigs ==> id in src.subs
    ensures var r, i := MergeUid(l, src, u), UidIdx(l.uids, u.pkt);
            && r.subs.Keys == l.subs.Keys + Ids(u.sigs) && FromSource(l, src, r) && r.keysigs == l.keysigs
            && |r.uids| == (if i == |l.uids| then i + 1 else |l.uids|) && Follows(l.uids, r.uids)
            && r.uids[i] == Uid(u.pkt, Held(l.uids, u.pkt) + Without(u.sigs, l.subs.Keys))
            && (forall j :: 0 <= j < |l.uids| && j != i ==> r.uids[j] == l.uids[j])
  {
    hide Good, AddNew, UidIdx, Without, Ids, FromSource;
    var i := UidIdx(l.uids, u.pkt);
    AddUidGood(l, u.pkt);
    var m := if i == |l.uids| then AddUid(l, u.pkt) else l;
    AddNewPlace(m, src, u.sigs, i);
    if i == |l.uids| {
      FromUid(l, u.pkt, src, AddNew(m, SigsOf(src, u.sigs), i));
    }
    assert m.uids[i].sigs == Held(l.uids, u.pkt);
  }

  lemma FromUid(l: Layout, pkt: UidPkt, src: Layout, r: Layout)
    requires FromSource(AddUid(l, pkt), src, r)
    ensures FromSource(l, src, r)
  {
  }

  lemma MergeUidHeld(l: Layout, src: Layout, u: Uid, pkt: UidPkt)
    requires Good(l) && Good(src) && |l.uids| < UID_ANY
    requires NoDup(u.sigs) && forall id :: id in u.sigs ==> id in src.subs
    ensures Held(MergeUid(l, src, u).uids, pkt)
            == Held(l.uids, pkt) + if u.pkt == pkt then Without(u.sigs, l.subs.Keys) else []
  {
    hide Good, MergeUid, UidIdx, Without, Ids, FromSource, NoDup;
    MergeUidPlace(l, src, u);
    var r, i := MergeUid(l, src, u).uids, UidIdx(l.uids, u.pkt);
    IdxOf(r, u.pkt, i);
    if UidIdx(l.uids, pkt) < |l.uids| {
      FollowsIdx(l.uids, r, pkt);
    } else if u.pkt != pkt {
      IdxOf(r, pkt, |r|);
    }
  }

  /** All userids of the source. */
  lemma {:induction false} MergeUidsPlace(l: Layout, src: Layout, uids: seq<Uid>)
    requires Good(l) && Good(src) && |l.uids| + |uids| <= UID_ANY
    requires NoDup(Flat(uids)) && forall u, id :: u in uids && id in u.sigs ==> id in src.subs
    ensures var r := MergeUids(l, src, uids);
            FromSource(l, src, r) && l.subs.Keys <= r.subs.Keys && r.keysigs == l.keysigs && Follows(l.uids, r.uids)
    decreases |uids|
  {
    hide Good, MergeUid, FromSource, Without, UidIdx, Held, Ids;
    if uids == [] {
      FromSelf(l, src);
    } else {
      var m := MergeUid(l, src, uids[0]);
      NoDupAppend(uids[0].sigs, Flat(uids[1..]));
      MergeUidPlace(l, src, uids[0]);
      MergeUidsPlace(m, src, uids[1..]);
      FromTrans(l, m, MergeUids(l, src, uids), src);
    }
  }

  lemma {:induction false} MergeUidsHeld(l: Layout, src: Layout, uids: seq<Uid>, pkt: UidPkt)
    requires Good(l) && Good(src) && |l.uids| + |uids| <= UID_ANY
    requires NoDup(Flat(uids)) && forall u, id :: u in uids && id in u.sigs ==> id in src.subs
    ensures Held(MergeUids(l, src, uids).uids, pkt) == Held(l.uids, pkt) + Gained(uids, pkt, l.subs.Keys)
    decreases |uids|
  {
    hide Good, MergeUid, FromSource, Without, UidIdx, Held, Follows;
    if uids != [] {
      var u, rest, known := uids[0], uids[1..], l.subs.Keys;
      var m := MergeUid(l, src, u);
      NoDupAppend(u.sigs, Flat(rest));
      MergeUidPlace(l, src, u);
      MergeUidHeld(l, src, u, pkt);
      MergeUidsHeld(m, src, rest, pkt);
      SameGained(rest, pkt, m.subs.Keys, known);
      JoinGained(Held(l.uids, pkt), uids, pkt, known);
    }
  }

  lemma JoinGained(held: seq<SigId>, uids: seq<Uid>, pkt: UidPkt, known: set<SigId>)
    requires uids != []
    ensures held + (if uids[0].pkt == pkt then Without(uids[0].sigs, known) else []) + Gained(uids[1..], pkt, known)
            == held + Gained(uids, pkt, known)
  {
    hide Without;
    var a := if uids[0].pkt == pkt then Without(uids[0].sigs, known) else [];
    var b := Gained(uids[1..], pkt, known);
    assert held + a + b == held + (a + b);
  }

  /** Where merge puts what is new. Each list gains, behind its old ids and in the order of the source, the
      ids of the source that the key does not have: the key's own list those of the source's own list, and the
      first userid with a packet those of the source's userids with that packet. */
  lemma MergeLists(l: Layout, src: Layout, pkt: UidPkt)
    requires Good(l) && Good(src) && |l.uids| + |src.uids| <= UID_ANY
    ensures var r, known := Merge(l, src), l.subs.Keys;
            && r.keysigs == l.keysigs + Without(src.keysigs, known)
            && Held(r.uids, pkt) == Held(l.uids, pkt) + Gained(src.uids, pkt, known)
            && FromSource(l, src, r) && Follows(l.uids, r.uids)
  {
    hide Good, FromSource, Without, UidIdx, Gained, MergeUids;
    GoodIds(src);
    GoodParts(src);
    var m := AddNew(l, SigsOf(src, src.keysigs), UID_NONE);
    AddNewPlace(l, src, src.keysigs, UID_NONE);
    assert m.uids == l.uids;
    MergeUidsPlace(m, src, src.uids);
    MergeUidsHeld(m, src, src.uids, pkt);
    SameGained(src.uids, pkt, m.subs.Keys, l.subs.Keys);
    FromTrans(l, m, Merge(l, src), src);
  }

  lemma GoodParts(l: Layout)
    requires Good(l)
    ensures NoDup(l.keysigs) && NoDup(Flat(l.uids)) && forall id :: id in l.keysigs ==> id !in Flat(l.uids)
    ensures |l.uids| <= UID_ANY
  {
    NoDupAppend(l.keysigs, Flat(l.uids));
  }

  /** A signature new to the key has the source's contents and is not validated. It is a direct signature
      exactly if it was one in the source; otherwise it is on the first userid with the packet that its owner
      has in the source. */
  lemma MergeOwners(l: Layout, src: Layout, id: SigId)
    requires Good(l) && Good(src) && |l.uids| + |src.uids| <= UID_ANY
    requires id in src.subs && id !in l.subs
    ensures var r, v := Merge(l, src), src.subs[id].uid;
            && id in r.subs && r.subs[id].sig == src.subs[id].sig && r.subs[id].validity == NOT_VALIDATED
            && (v == UID_NONE || v < |src.uids|)
            && (r.subs[id].uid == UID_NONE <==> v == UID_NONE)
            && (v < |src.uids| ==>
                  && r.subs[id].uid < |r.uids| && r.uids[r.subs[id].uid].pkt == src.uids[v].pkt
                  && forall u :: 0 <= u < r.subs[id].uid ==> r.uids[u].pkt != src.uids[v].pkt)
  {
    hide Good, Without, UidIdx, Gained, Merge, Follows;
    var r, v, known := Merge(l, src), src.subs[id].uid, l.subs.Keys;
    MergeUnion(l, src);
    OwnerLists(src, id);
    OwnerLists(r, id);
    MergeLists(l, src, if v < |src.uids| then src.uids[v].pkt else 0);
    if v < |src.uids| {
      GainedHas(src.uids, v, id, known);
    }
  }

  lemma {:induction false} MergeUidsOrder(l: Layout, src: Layout, uids: seq<Uid>)
    requires Good(l) && Good(src) && |l.uids| + |uids| <= UID_ANY
    requires NoDup(Flat(uids)) && forall u, id :: u in uids && id in u.sigs ==> id in src.subs
    ensures NewInOrder(l.uids, MergeUids(l, src, uids).uids, uids)
    decreases |uids|
  {
    hide Good, MergeUid, FromSource, Without, UidIdx, Held, Ids, NewInOrder;
    if uids == [] {
      NoneNew(l.uids);
    } else {
      var m := MergeUid(l, src, uids[0]);
      NoDupAppend(uids[0].sigs, Flat(uids[1..]));
      MergeUidPlace(l, src, uids[0]);
      MergeUidsPlace(m, src, uids[1..]);
      MergeUidsOrder(m, src, uids[1..]);
      OrderStep(l.uids, m.uids, MergeUids(l, src, uids).uids, uids);
    }
  }

  ghost predicate NewInOrder(l: seq<Uid>, r: seq<Uid>, uids: seq<Uid>) {
    forall j :: |l| <= j < |r| ==>
      && UidIdx(l, r[j].pkt) == |l| && UidIdx(uids, r[j].pkt) < |uids|
      && forall i :: |l| <= i < j ==> UidIdx(uids, r[i].pkt) < UidIdx(uids, r[j].pkt)
  }

  lemma NoneNew(l: seq<Uid>)
    ensures NewInOrder(l, l, [])
  {
  }

  lemma OrderStep(l: seq<Uid>, m: seq<Uid>, r: seq<Uid>, uids: seq<Uid>)
    requires uids != [] && Follows(l, m) && Follows(m, r) && NewInOrder(m, r, uids[1..])
    requires var i := UidIdx(l, uids[0].pkt);
             |m| == (if i == |l| then |l| + 1 else |l|) && m[i].pkt == uids[0].pkt
    ensures NewInOrder(l, r, uids)
  {
    hide UidIdx;
    var p := uids[0].pkt;
    IdxOf(uids, p, 0);
    IdxOf(m, p, UidIdx(l, p));
    forall j | |m| <= j < |r|
      ensures r[j].pkt != p && UidIdx(l, r[j].pkt) == |l|
              && UidIdx(uids, r[j].pkt) == 1 + UidIdx(uids[1..], r[j].pkt)
    {
      var q := r[j].pkt;
      assert q != p;
      NotBefore(l, m, q);
      IdxNext(uids, q);
    }
  }

  lemma NotBefore(l: seq<Uid>, m: seq<Uid>, q: UidPkt)
    requires Follows(l, m) && UidIdx(m, q) == |m|
    ensures UidIdx(l, q) == |l|
  {
  }

  lemma IdxNext(uids: seq<Uid>, q: UidPkt)
    requires uids != [] && uids[0].pkt != q
    ensures UidIdx(uids, q) == 1 + UidIdx(uids[1..], q)
  {
  }

  /** Of several userids with one packet only the first gains anything. */
  lemma {:induction false} MergeUidsRest(l: Layout, src: Layout, uids: seq<Uid>, u: nat)
    requires Good(l) && Good(src) && |l.uids| + |uids| <= UID_ANY
    requires NoDup(Flat(uids)) && forall v, id :: v in uids && id in v.sigs ==> id in src.subs
    requires u < |l.uids| && UidIdx(l.uids, l.uids[u].pkt) != u
    ensures u < |MergeUids(l, src, uids).uids| && MergeUids(l, src, uids).uids[u] == l.uids[u]
    decreases |uids|
  {
    hide Good, MergeUid, FromSource, Without, UidIdx, Held, Ids;
    if uids != [] {
      var m := MergeUid(l, src, uids[0]);
      NoDupAppend(uids[0].sigs, Flat(uids[1..]));
      MergeUidPlace(l, src, uids[0]);
      FollowsIdx(l.uids, m.uids, l.uids[u].pkt);
      MergeUidsRest(m, src, uids[1..], u);
    }
  }

  /** New userids stand behind the old ones, each packet once, in the order in which the source first has
      them. */
  lemma MergeOrder(l: Layout, src: Layout)
    requires Good(l) && Good(src) && |l.uids| + |src.uids| <= UID_ANY
    ensures var r := Merge(l, src);
            && Follows(l.uids, r.uids) && NewInOrder(l.uids, r.uids, src.uids)
            && forall u :: 0 <= u < |l.uids| && UidIdx(l.uids, l.uids[u].pkt) != u ==> r.uids[u] == l.uids[u]
  {
    hide Good, FromSource, Without, UidIdx, NewInOrder, MergeUids, AddNew;
    GoodIds(src);
    GoodParts(src);
    var m := AddNew(l, SigsOf(src, src.keysigs), UID_NONE);
    AddNewPlace(l, src, src.keysigs, UID_NONE);
    assert m.uids == l.uids;
    MergeUidsPlace(m, src, src.uids);
    MergeUidsOrder(m, src, src.uids);
    forall u | 0 <= u < |l.uids| && UidIdx(l.uids, l.uids[u].pkt) != u ensures Merge(l, src).uids[u] == l.uids[u] {
      MergeUidsRest(m, src, src.uids, u);
    }
  }

  /** Merging a subkey: only its direct signatures, in the same way. */
  lemma MergeSubkeyLists(l: Layout, src: Layout)
    requires Good(l) && Good(src)
    ensures var r := MergeSubkey(l, src);
            && r.keysigs == l.keysigs + Without(src.keysigs, l.subs.Keys) && r.uids == l.uids
            && FromSource(l, src, r)
  {
    hide Good, FromSource, Without, AddNew;
    GoodIds(src);
    GoodParts(src);
    GoodParts(l);
    AddNewPlace(l, src, src.keysigs, UID_NONE);
    assert MergeSubkey(l, src).uids == l.uids;
  }

  // ----- A userid with its signatures -----

  function IdSeq(sigs: seq<Sig>): (r: seq<SigId>)
    ensures |r| == |sigs| && forall i :: 0 <= i < |sigs| ==> r[i] == sigs[i].id
  {
    seq(|sigs|, i requires 0 <= i < |sigs| => sigs[i].id)
  }

  lemma {:induction false} AddSigsPlace(l: Layout, sigs: seq<Sig>, uid: nat)
    requires Ordered(l) && uid < |l.uids| <= UID_ANY
    ensures Gains(l, AddSigs(l, sigs, uid), uid, IdSeq(sigs))
    ensures AllNew(l, sigs) ==> Entered(l, sigs, uid, AddSigs(l, sigs, uid))
    decreases |sigs|
  {
    hide AddSig, Ordered, Gains, Entered, AllNew;
    if sigs == [] {
      assert IdSeq(sigs) == [];
      GainsNothing(l, uid);
      NoneEntered(l, uid);
    } else {
      var m := AddSig(l, sigs[0], uid, false);
      AddSigOrder(l, sigs[0], uid, false);
      AddSigPlace(l, sigs[0], uid, false);
      AddSigsPlace(m, sigs[1..], uid);
      PutGains(l, m, sigs[0], uid);
      GainsTrans(l, m, AddSigs(l, sigs, uid), uid, [sigs[0].id], IdSeq(sigs[1..]));
      assert IdSeq(sigs) == [sigs[0].id] + IdSeq(sigs[1..]);
      if AllNew(l, sigs) {
        AllNewStep(l, m, sigs);
        EnteredStep(l, m, sigs, uid, AddSigs(l, sigs, uid));
      }
    }
  }

  /** Each signature has its entry, not validated; the old entries are kept. */
  ghost predicate Entered(l: Layout, sigs: seq<Sig>, uid: nat, r: Layout) {
    && (forall id :: id in l.subs ==> id in r.subs && r.subs[id] == l.subs[id])
    && (forall i :: 0 <= i < |sigs| ==>
          sigs[i].id in r.subs && r.subs[sigs[i].id] == SubSig(sigs[i], uid, NOT_VALIDATED))
  }

  lemma NoneEntered(l: Layout, uid: nat)
    ensures Entered(l, [], uid, l)
  {
  }

  lemma EnteredStep(l: Layout, m: Layout, sigs: seq<Sig>, uid: nat, r: Layout)
    requires sigs != [] && sigs[0].id !in l.subs
    requires m.subs == l.subs[sigs[0].id := SubSig(sigs[0], uid, NOT_VALIDATED)]
    requires Entered(m, sigs[1..], uid, r)
    ensures Entered(l, sigs, uid, r)
  {
    assert forall i :: 0 < i < |sigs| ==> sigs[i] == sigs[1..][i - 1];
    assert sigs[0].id in m.subs;
  }

  lemma PutGains(l: Layout, m: Layout, sig: Sig, uid: nat)
    requires uid < |l.uids| <= UID_ANY && |m.uids| == |l.uids| && m.keysigs == l.keysigs
    requires forall u :: 0 <= u < |l.uids| ==>
      m.uids[u] == Uid(l.uids[u].pkt, if u == uid then Put(l.uids[u].sigs, sig.id, false) else l.uids[u].sigs)
    ensures Gains(l, m, uid, [sig.id])
  {
  }

  /** add_uid: the new userid stands last and lists its signatures in the order given. */
  lemma AddUidPlace(l: Layout, pkt: UidPkt, certs: seq<Sig>)
    requires Good(l) && |l.uids| < UID_ANY
    ensures var r := AddUidWith(l, pkt, certs);
            && r.keysigs == l.keysigs && r.uids == l.uids + [Uid(pkt, IdSeq(certs))]
            && (AllNew(l, certs) ==> Entered(l, certs, |l.uids|, r))
  {
    hide AddSigs, Good, Ordered, AllNew, Entered;
    var m := AddUid(l, pkt);
    AddUidGood(l, pkt);
    Orders(m);
    GoodParts(m);
    AddSigsPlace(m, certs, |l.uids|);
    var r := AddUidWith(l, pkt, certs);
    assert [] + IdSeq(certs) == IdSeq(certs);
    assert r.uids == l.uids + [Uid(pkt, IdSeq(certs))];
    SameSubs(l, m, certs, r);
  }

  lemma SameSubs(l: Layout, m: Layout, certs: seq<Sig>, r: Layout)
    requires m.subs == l.subs
    ensures AllNew(l, certs) <==> AllNew(m, certs)
    ensures Entered(l, certs, |l.uids|, r) <==> Entered(m, certs, |l.uids|, r)
  {
  }

  // ----- Packets -----

  /** The signatures in front of anything else. */
  function LeadSigs(ps: seq<Packet>): (r: seq<SigId>) {
    if ps == [] || !ps[0].SigPacket? then [] else [ps[0].id] + LeadSigs(ps[1..])
  }

  /** The userids of a packet sequence, each with the signatures directly behind it. */
  function UidGroups(ps: seq<Packet>): (r: seq<Uid>) {
    if ps == [] then []
    else (if ps[0].UidPacket? then [Uid(ps[0].pkt, LeadSigs(ps[1..]))] else []) + UidGroups(ps[1..])
  }

  lemma {:induction false} SigsFirst(ids: seq<SigId>, rest: seq<Packet>)
    requires rest == [] || !rest[0].SigPacket?
    ensures LeadSigs(SigPackets(ids) + rest) == ids
    ensures UidGroups(SigPackets(ids) + rest) == UidGroups(rest)
  {
    var ps := SigPackets(ids) + rest;
    if ids == [] {
      assert ps == rest;
    } else {
      assert ps[0] == SigPacket(ids[0]) && ps[1..] == SigPackets(ids[1..]) + rest;
      SigsFirst(ids[1..], rest);
    }
  }

  lemma {:induction false} GroupsOf(uids: seq<Uid>)
    ensures UidPackets(uids) == [] || UidPackets(uids)[0].UidPacket?
    ensures UidGroups(UidPackets(uids)) == uids
  {
    if uids != [] {
      var ps, rest := UidPackets(uids), UidPackets(uids[1..]);
      assert ps[0] == UidPacket(uids[0].pkt) && ps[1..] == SigPackets(uids[0].sigs) + rest;
      GroupsOf(uids[1..]);
      SigsFirst(uids[0].sigs, rest);
    }
  }

  /** What write emits can be taken apart again: the key packet, the direct-key signatures, and each userid
      with its signatures, all in the order of the key's lists. */
  lemma PacketsGroup(l: Layout)
    ensures var ps := Packets(l);
            && ps != [] && ps[0] == KeyPacket
            && LeadSigs(ps[1..]) == l.keysigs && UidGroups(ps[1..]) == l.uids
  {
    hide SigPackets, LeadSigs, UidGroups;
    var ps := Packets(l);
    assert ps[1..] == SigPackets(l.keysigs) + UidPackets(l.uids);
    GroupsOf(l.uids);
    SigsFirst(l.keysigs, UidPackets(l.uids));
  }
}
