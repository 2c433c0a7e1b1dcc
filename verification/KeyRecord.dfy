/** pgp_key_t's signature bookkeeping as it is done in place. Each method is proved to do what the
    layout functions say. */
module KeyRecord {
  import opened Signatures
  import L = KeyLayout
  import M = KeyMerge

  datatype Packet = KeyPacket | SigPacket(id: SigId) | UidPacket(pkt: UidPkt)

  /** std::find */
  method Find(s: seq<SigId>, x: SigId) returns (i: nat)
    ensures i <= |s| && x !in s[..i] && (i < |s| ==> s[i] == x)
  {
    i := 0;
    while i < |s| && s[i] != x
      invariant i <= |s| && x !in s[..i]
    {
      i := i + 1;
    }
  }

  // ----- Owners in the global order -----

  /** The ids of `s` that map `m` attaches to `u`. */
  function Owned(s: seq<SigId>, m: map<SigId, SubSig>, u: nat): (r: seq<SigId>) {
    if s == [] then []
    else (if s[0] in m && m[s[0]].uid == u then [s[0]] else []) + Owned(s[1..], m, u)
  }

  lemma {:induction false} OwnedAppend(s: seq<SigId>, t: seq<SigId>, m: map<SigId, SubSig>, u: nat)
    ensures Owned(s + t, m, u) == Owned(s, m, u) + Owned(t, m, u)
  {
    if s == [] {
      assert s + t == t;
    } else {
      assert (s + t)[1..] == s[1..] + t;
      OwnedAppend(s[1..], t, m, u);
    }
  }

  lemma {:induction false} OwnedOthers(s: seq<SigId>, m: map<SigId, SubSig>, u: nat)
    requires forall id :: id in s && id in m ==> m[id].uid != u
    ensures Owned(s, m, u) == []
  {
    if s != [] {
      OwnedOthers(s[1..], m, u);
    }
  }

  lemma {:induction false} OwnedAll(s: seq<SigId>, m: map<SigId, SubSig>, gone: set<SigId>, u: nat)
    requires forall id :: id in s ==> (id in m <==> id !in gone) && (id in m ==> m[id].uid == u)
    ensures Owned(s, m, u) == L.Without(s, gone)
  {
    if s != [] {
      OwnedAll(s[1..], m, gone, u);
    }
  }

  /** In a good layout, picking one owner's ids out of the global order gives its list. */
  lemma OwnedKeysigs(l: L.Layout, gone: set<SigId>)
    requires L.Good(l)
    ensures Owned(l.sigs, l.subs - gone, UID_NONE) == L.Without(l.keysigs, gone)
  {
    hide Owned, L.Without, L.NoDup;
    var m := l.subs - gone;
    OwnedAppend(l.keysigs, L.Flat(l.uids), m, UID_NONE);
    OwnedAll(l.keysigs, m, gone, UID_NONE);
    forall id | id in L.Flat(l.uids) && id in m ensures m[id].uid != UID_NONE {
      L.FlatHas(l.uids, id);
    }
    OwnedOthers(L.Flat(l.uids), m, UID_NONE);
  }

  lemma OwnedUid(l: L.Layout, gone: set<SigId>, u: nat)
    requires L.Good(l) && u < |l.uids|
    ensures Owned(l.sigs, l.subs - gone, u) == L.Without(l.uids[u].sigs, gone)
  {
    hide Owned, L.Without, L.NoDup, L.Flat;
    var m := l.subs - gone;
    var a, own, b := l.keysigs + L.Flat(l.uids[..u]), l.uids[u].sigs, L.Flat(l.uids[u + 1..]);
    L.FlatAt(l.uids, u);
    assert l.sigs == a + own + b;
    OwnedAppend(a + own, b, m, u);
    OwnedAppend(a, own, m, u);
    OwnedAll(own, m, gone, u);
    forall id | id in a && id in m ensures m[id].uid != u {
      L.FlatHas(l.uids[..u], id);
    }
    OwnedOthers(a, m, u);
    forall id | id in b && id in m ensures m[id].uid != u {
      L.FlatHas(l.uids[u + 1..], id);
      var v :| 0 <= v < |l.uids[u + 1..]| && id in l.uids[u + 1..][v].sigs;
      assert l.uids[u + 1..][v] == l.uids[u + 1 + v];
    }
    OwnedOthers(b, m, u);
  }

  class KeyRecord {
    var subs: map<SigId, SubSig>
    var sigs: seq<SigId>
    var keysigs: seq<SigId>
    var uids: seq<L.Uid>

    ghost function View(): L.Layout
      reads this
    {
      L.Layout(subs, sigs, keysigs, uids)
    }

    ghost predicate Valid()
      reads this
    {
      L.Good(View())
    }

    constructor ()
      ensures Valid() && View() == L.EMPTY
    {
      subs, sigs, keysigs, uids := map[], [], [], [];
    }

    /** add_sig. An id that is already present ends up listed twice. */
    method AddSig(sig: Sig, uid: nat, begin: bool)
      requires L.Ordered(View()) && (uid == UID_NONE || uid < |uids|)
      modifies this
      ensures View() == L.AddSig(old(View()), sig, uid, begin) && L.Ordered(View())
      ensures old(Valid()) ==> (Valid() <==> sig.id !in old(subs))
    {
      hide L.Good, L.Insert, L.Flat;
      ghost var l := View();
      if L.Good(l) {
        L.AddSigGood(l, sig, uid, begin);
      }
      L.AddSigOrder(l, sig, uid, begin);
      subs := subs[sig.id := SubSig(sig, uid, NOT_VALIDATED)];
      if uid == UID_NONE {
        var idx := if begin then 0 else |keysigs|;
        sigs := L.Insert(sigs, idx, sig.id);
        keysigs := L.Insert(keysigs, idx, sig.id);
        return;
      }
      var idx := |keysigs|;
      L.FlatAt(uids, uid);
      FlatNone(uids);
      for u := 0 to uid
        invariant idx == |keysigs| + |L.Flat(uids[..u])|
        modifies {}
      {
        L.FlatAt(uids, u);
        idx := idx + |uids[u].sigs|;
      }
      if !begin {
        idx := idx + |uids[uid].sigs|;
      }
      sigs := L.Insert(sigs, idx, sig.id);
      var i := if begin then 0 else |uids[uid].sigs|;
      uids := uids[uid := L.Uid(uids[uid].pkt, L.Insert(uids[uid].sigs, i, sig.id))];
    }

    /** replace_sig; false where the source throws because there is no such signature. */
    method ReplaceSig(id: SigId, newsig: Sig) returns (ok: bool)
      requires Valid()
      modifies this
      ensures ok <==> id in old(subs)
      ensures ok ==> View() == L.ReplaceSig(old(View()), id, newsig)
      ensures ok ==> (Valid() <==> newsig.id == id || newsig.id !in old(subs))
      ensures !ok ==> View() == old(View())
    {
      hide L.Good, L.Flat, L.Renamed, L.RenamedUids, L.NoDup;
      if id !in subs {
        return false;
      }
      ghost var l := View();
      L.ReplaceSigGood(l, id, newsig);
      OwnerHas(l, id);
      var n, uid := newsig.id, subs[id].uid;
      subs := L.ReplacedSubs(subs, id, newsig);
      var i := Find(sigs, id);
      SetRenames(sigs, i, id, n);
      sigs := sigs[i := n];
      if uid == UID_NONE {
        i := Find(keysigs, id);
        InPart(l.sigs, l.keysigs);
        SetRenames(keysigs, i, id, n);
        keysigs := keysigs[i := n];
      } else {
        L.RenamedAbsent(keysigs, id, n);
        i := Find(uids[uid].sigs, id);
        InUid(l, uid);
        SetRenames(uids[uid].sigs, i, id, n);
        uids := uids[uid := L.Uid(uids[uid].pkt, uids[uid].sigs[i := n])];
      }
      RenamedUidsAre(l, id, n, uid, uids);
      return true;
    }

    /** del_sig */
    method DelSig(id: SigId) returns (ok: bool)
      requires Valid()
      modifies this
      ensures Valid() && View() == L.Drop(old(View()), {id})
      ensures ok <==> id in old(subs)
    {
      hide L.Flat, L.Without, L.DropUids, L.NoDup;
      ghost var l := View();
      L.DropGood(l, {id});
      if id !in subs {
        L.DropNothing(l, {id});
        return false;
      }
      var uid := subs[id].uid;
      L.FlatHas(l.uids, id);
      if uid == UID_NONE {
        var i := Find(keysigs, id);
        InPart(l.sigs, l.keysigs);
        EraseDrops(keysigs, i, id);
        keysigs := keysigs[..i] + keysigs[i + 1..];
      } else if uid < |uids| {
        var own := uids[uid].sigs;
        var i := Find(own, id);
        InUid(l, uid);
        EraseDrops(own, i, id);
        uids := uids[uid := L.Uid(uids[uid].pkt, own[..i] + own[i + 1..])];
        L.WithoutNone(keysigs, {id});
      }
      DroppedUidsAre(l, id, uid, uids);
      var i := Find(sigs, id);
      EraseDrops(sigs, i, id);
      sigs := sigs[..i] + sigs[i + 1..];
      subs := subs - {id};
      return true;
    }

    /** del_sigs: erase from the map, then rebuild every list from the global order. */
    method DelSigs(ids: seq<SigId>) returns (count: nat)
      requires Valid()
      modifies this
      ensures Valid() && View() == L.Drop(old(View()), L.Ids(ids))
      ensures View() == L.DropEach(old(View()), ids)
      ensures count == |L.Ids(ids) * old(subs).Keys|
    {
      hide L.Good, L.Drop, L.DropEach, Owned, L.Without;
      ghost var l := View();
      L.DropGood(l, L.Ids(ids));
      L.DropEachIsDrop(l, ids);
      count := EraseAll(ids);
      Rebuild(l, L.Ids(ids));
    }

    method EraseAll(ids: seq<SigId>) returns (count: nat)
      modifies `subs
      ensures subs == old(subs) - L.Ids(ids)
      ensures count == |L.Ids(ids) * old(subs).Keys|
    {
      hide L.Ids;
      count := 0;
      ghost var was := subs;
      IdsNone(ids);
      MinusNone(was);
      for i := 0 to |ids|
        invariant subs == was - L.Ids(ids[..i])
        invariant count == |L.Ids(ids[..i]) * was.Keys|
      {
        EraseCounts(ids, i, was);
        MinusOne(was, L.Ids(ids[..i]), ids[i]);
        if ids[i] in subs {
          subs := subs - {ids[i]};
          count := count + 1;
        }
      }
      assert ids[..|ids|] == ids;
    }

    method Rebuild(ghost l: L.Layout, ghost gone: set<SigId>)
      requires L.Good(l) && subs == l.subs - gone && sigs == l.sigs && uids == l.uids
      modifies `sigs, `keysigs, `uids
      ensures View() == L.Drop(l, gone)
    {
      hide L.Good, Owned, L.Without, L.DropUids, Placed;
      keysigs := [];
      ClearSigs();
      var newsigs := [];
      NonePlaced(sigs, subs, l.uids, uids);
      OwnedNone(sigs, subs);
      for i := 0 to |sigs|
        invariant sigs == l.sigs && subs == l.subs - gone
        invariant newsigs == L.Without(sigs[..i], gone)
        invariant Placed(sigs[..i], subs, l.uids, keysigs, uids)
      {
        OwnerOf(l, gone, i);
        WithoutNext(sigs, i, gone);
        if sigs[i] in subs {
          newsigs := newsigs + [sigs[i]];
        }
        PlaceSig(i, l.uids);
      }
      assert sigs[..|sigs|] == sigs;
      RebuiltIs(l, gone, keysigs, uids);
      sigs := newsigs;
    }

    /** One signature that is left goes to the list of its owner. */
    method PlaceSig(i: nat, ghost all: seq<L.Uid>)
      requires i < |sigs| && Placed(sigs[..i], subs, all, keysigs, uids) && |all| <= UID_ANY
      requires sigs[i] in subs ==> subs[sigs[i]].uid == UID_NONE || subs[sigs[i]].uid < |all|
      modifies `keysigs, `uids
      ensures Placed(sigs[..i + 1], subs, all, keysigs, uids)
    {
      hide Owned;
      var id := sigs[i];
      OwnedNext(sigs, i, subs, UID_NONE);
      forall u | 0 <= u < |uids|
        ensures Owned(sigs[..i + 1], subs, u)
                == if id in subs && subs[id].uid == u then Owned(sigs[..i], subs, u) + [id]
                   else Owned(sigs[..i], subs, u)
      {
        OwnedNext(sigs, i, subs, u);
      }
      if id in subs {
        var uid := subs[id].uid;
        if uid == UID_NONE {
          keysigs := keysigs + [id];
        } else {
          uids := uids[uid := L.Uid(uids[uid].pkt, uids[uid].sigs + [id])];
        }
      }
    }

    /** add_uid: a userid with its signatures, as a transferable key brings them. */
    method AddUid(pkt: UidPkt, certs: seq<Sig>)
      requires Valid() && |uids| < UID_ANY
      modifies this
      ensures View() == AddUidWith(old(View()), pkt, certs)
      ensures Valid() <==> L.AllNew(old(View()), certs)
    {
      hide L.Good, L.AddSig, L.Ordered;
      ghost var l := View();
      L.AddUidGood(l, pkt);
      Orders(L.AddUid(l, pkt));
      uids := uids + [L.Uid(pkt, [])];
      ghost var goal := L.AddSigs(View(), certs, |uids| - 1);
      L.AddSigsGood(View(), certs, |uids| - 1);
      assert certs[0..] == certs;
      for i := 0 to |certs|
        invariant L.Ordered(View()) && |uids| == |old(uids)| + 1
        invariant L.AddSigs(View(), certs[i..], |uids| - 1) == goal
      {
        assert certs[i..][1..] == certs[i + 1..];
        AddSig(certs[i], |uids| - 1, false);
      }
    }

    /** del_uid; false where the source throws because the index is out of range. */
    method DelUid(idx: nat) returns (ok: bool)
      requires Valid()
      modifies this
      ensures Valid()
      ensures ok <==> idx < |old(uids)|
      ensures View() == if ok then L.DropUid(old(View()), idx) else old(View())
    {
      hide L.Good, L.Without, L.Ids;
      if idx >= |uids| {
        return false;
      }
      ghost var l := View();
      L.DropUidGood(l, idx);
      TakeOwned(idx, l);
      uids := uids[..idx] + uids[idx + 1..];
      if idx < |uids| {
        subs := map id | id in subs :: L.Shifted(subs[id], idx);
      }
      ShiftIs(l, idx, subs);
      return true;
    }

    /** The signatures on one userid leave the map and the order. */
    method TakeOwned(idx: nat, ghost l: L.Layout)
      requires L.Good(l) && View() == l && idx < |uids|
      modifies `subs, `sigs
      ensures sigs == L.Without(l.sigs, L.Ids(l.uids[idx].sigs))
      ensures subs == l.subs - L.Ids(l.uids[idx].sigs)
    {
      hide L.Good, L.Without, L.Ids, Doomed;
      ghost var gone := L.Ids(uids[idx].sigs);
      var newsigs := [];
      OwnedNone(sigs, subs);
      MinusNone(subs);
      NoneDoomed(sigs, gone);
      ghost var seen: set<SigId> := {};
      for i := 0 to |sigs|
        invariant sigs == l.sigs && newsigs == L.Without(sigs[..i], gone)
        invariant Doomed(seen, gone, sigs[..i]) && subs == l.subs - seen
      {
        var id := sigs[i];
        WithoutNext(sigs, i, gone);
        DoomedAre(l, idx, i, seen);
        MinusOne(l.subs, seen, id);
        if subs[id].uid == idx {
          subs := subs - {id};
          seen := seen + {id};
        } else {
          newsigs := newsigs + [id];
        }
      }
      assert sigs[..|sigs|] == sigs;
      DoomedAll(l, idx, seen);
      sigs := newsigs;
    }

    /** merge of a primary key */
    method Merge(src: KeyRecord)
      requires Valid() && src.Valid() && src != this && |uids| + |src.uids| <= UID_ANY
      modifies this
      ensures Valid() && View() == M.Merge(old(View()), src.View())
    {
      hide L.Good, L.AddNew, M.MergeUid, M.MergeUids;
      ghost var s := src.View();
      M.GoodIds(s);
      AddMissing(src, src.keysigs, UID_NONE);
      ghost var goal := M.MergeUids(View(), s, s.uids);
      assert s.uids[0..] == s.uids;
      for i := 0 to |src.uids|
        invariant src.View() == s && Valid() && |uids| + |src.uids| - i <= UID_ANY
        invariant forall u, id :: u in s.uids[i..] && id in u.sigs ==> id in s.subs
        invariant M.MergeUids(View(), s, s.uids[i..]) == goal
      {
        MergeUidsStep(View(), s, s.uids[i..]);
        assert s.uids[i..][0] == s.uids[i] && s.uids[i..][1..] == s.uids[i + 1..];
        MergeOneUid(src, i);
      }
      MergeUidsDone(View(), s);
    }

    method MergeOneUid(src: KeyRecord, i: nat)
      requires Valid() && src.Valid() && src != this && |uids| < UID_ANY && i < |src.uids|
      requires forall id :: id in src.uids[i].sigs ==> id in src.subs
      modifies this
      ensures Valid() && View() == M.MergeUid(old(View()), src.View(), src.uids[i])
    {
      hide L.Good, L.AddNew;
      var u := src.uids[i];
      var idx := GetUidIdx(u.pkt);
      L.AddUidGood(View(), u.pkt);
      if idx == |uids| {
        uids := uids + [L.Uid(u.pkt, [])];
      }
      AddMissing(src, u.sigs, idx);
    }

    /** get_uid_idx; the number of userids stands for PGP_UID_NONE. */
    method GetUidIdx(pkt: UidPkt) returns (i: nat)
      ensures i == M.UidIdx(uids, pkt)
    {
      i := 0;
      while i < |uids| && uids[i].pkt != pkt
        invariant i <= |uids|
        invariant forall j :: 0 <= j < i ==> uids[j].pkt != pkt
      {
        i := i + 1;
      }
    }

    /** The inner loops of merge: signatures of the source the key does not have yet. */
    method AddMissing(src: KeyRecord, ids: seq<SigId>, uid: nat)
      requires Valid() && src.Valid() && src != this && (uid == UID_NONE || uid < |uids|)
      requires forall id :: id in ids ==> id in src.subs
      modifies this
      ensures Valid() && View() == L.AddNew(old(View()), M.SigsOf(src.View(), ids), uid)
    {
      hide L.Good, L.AddSig;
      ghost var sigs := M.SigsOf(src.View(), ids);
      ghost var goal := L.AddNew(View(), sigs, uid);
      assert sigs[0..] == sigs;
      for i := 0 to |ids|
        invariant src.View() == old(src.View()) && Valid() && |uids| == |old(uids)|
        invariant L.AddNew(View(), sigs[i..], uid) == goal
      {
        var sig := src.subs[ids[i]].sig;
        assert sigs[i..][0] == sig && sigs[i..][1..] == sigs[i + 1..];
        IdMatches(src.View(), ids[i]);
        L.AddSigGood(View(), sig, uid, false);
        Orders(View());
        if ids[i] !in subs {
          AddSig(sig, uid, false);
        }
      }
    }

    /** write: the packets, in the order they are emitted. */
    method Write() returns (packets: seq<Packet>)
      requires Valid()
      ensures packets == Packets(View()) && |packets| == M.RawpktCount(View())
    {
      hide L.Good, SigPackets;
      packets := [KeyPacket];
      var own := SigPackets(keysigs);
      packets := packets + own;
      assert uids[..0] == [];
      for i := 0 to |uids|
        invariant packets == [KeyPacket] + SigPackets(keysigs) + UidPackets(uids[..i])
      {
        UidPacketsNext(uids, i);
        packets := packets + ([UidPacket(uids[i].pkt)] + SigPackets(uids[i].sigs));
      }
      assert uids[..|uids|] == uids;
      PacketCount(View());
    }

    /** uid.clear_sigs() for every userid */
    method ClearSigs()
      modifies `uids
      ensures |uids| == |old(uids)|
      ensures forall u :: 0 <= u < |uids| ==> uids[u] == L.Uid(old(uids)[u].pkt, [])
    {
      for i := 0 to |uids|
        invariant |uids| == |old(uids)|
        invariant forall u :: 0 <= u < i ==> uids[u] == L.Uid(old(uids)[u].pkt, [])
        invariant forall u :: i <= u < |uids| ==> uids[u] == old(uids)[u]
      {
        uids := uids[i := L.Uid(uids[i].pkt, [])];
      }
    }
  }

  /** add_uid on layouts. */
  ghost function AddUidWith(l: L.Layout, pkt: UidPkt, certs: seq<Sig>): L.Layout
    requires L.Good(l) && |l.uids| < UID_ANY
  {
    L.AddUidGood(l, pkt);
    L.AddSigs(L.AddUid(l, pkt), certs, |l.uids|)
  }

  lemma Orders(l: L.Layout)
    requires L.Good(l)
    ensures L.Ordered(l)
  {
  }

  lemma FlatNone(uids: seq<L.Uid>)
    ensures L.Flat(uids[..0]) == []
  {
  }

  lemma SetRenames(s: seq<SigId>, i: nat, id: SigId, n: SigId)
    requires L.NoDup(s) && i < |s| && s[i] == id
    ensures s[i := n] == L.Renamed(s, id, n)
  {
  }

  lemma EraseDrops(s: seq<SigId>, i: nat, id: SigId)
    requires L.NoDup(s) && i < |s| && s[i] == id
    ensures s[..i] + s[i + 1..] == L.Without(s, {id})
  {
    hide L.Without, L.NoDup;
    assert s == s[..i] + [id] + s[i + 1..];
    L.NoDupAppend(s[..i] + [id], s[i + 1..]);
    L.NoDupAppend(s[..i], [id]);
    L.WithoutAppend(s[..i] + [id], s[i + 1..], {id});
    L.WithoutAppend(s[..i], [id], {id});
    L.WithoutNone(s[..i], {id});
    L.WithoutAll([id], {id});
    L.WithoutNone(s[i + 1..], {id});
    assert s[..i] + [] + s[i + 1..] == s[..i] + s[i + 1..];
  }

  lemma InPart(s: seq<SigId>, p: seq<SigId>)
    requires p <= s && L.NoDup(s)
    ensures L.NoDup(p)
  {
  }

  /** A userid's own list has no repetition. */
  lemma InUid(l: L.Layout, u: nat)
    requires L.Good(l) && u < |l.uids|
    ensures L.NoDup(l.uids[u].sigs)
  {
    hide L.Flat, L.NoDup;
    L.FlatAt(l.uids, u);
    var a, own, b := l.keysigs + L.Flat(l.uids[..u]), l.uids[u].sigs, L.Flat(l.uids[u + 1..]);
    assert l.sigs == a + own + b;
    L.NoDupAppend(a + own, b);
    L.NoDupAppend(a, own);
  }

  lemma RenamedUidsAre(l: L.Layout, id: SigId, n: SigId, uid: nat, uids: seq<L.Uid>)
    requires L.Good(l) && id in l.subs && uid == l.subs[id].uid && |uids| == |l.uids|
    requires forall u :: 0 <= u < |uids| && u != uid ==> uids[u] == l.uids[u]
    requires uid < |uids| ==> uids[uid] == L.Uid(l.uids[uid].pkt, L.Renamed(l.uids[uid].sigs, id, n))
    ensures uids == L.RenamedUids(l.uids, id, n)
  {
    hide L.Renamed;
    forall u | 0 <= u < |uids| ensures uids[u] == L.RenamedUids(l.uids, id, n)[u] {
      if u != uid {
        L.RenamedAbsent(l.uids[u].sigs, id, n);
      }
    }
  }

  lemma DroppedUidsAre(l: L.Layout, id: SigId, uid: nat, uids: seq<L.Uid>)
    requires L.Good(l) && id in l.subs && uid == l.subs[id].uid && |uids| == |l.uids|
    requires forall u :: 0 <= u < |uids| && u != uid ==> uids[u] == l.uids[u]
    requires uid < |uids| ==> uids[uid] == L.Uid(l.uids[uid].pkt, L.Without(l.uids[uid].sigs, {id}))
    ensures uids == L.DropUids(l.uids, {id})
  {
    hide L.Without;
    forall u | 0 <= u < |uids| ensures uids[u] == L.DropUids(l.uids, {id})[u] {
      if u != uid {
        L.WithoutNone(l.uids[u].sigs, {id});
      }
    }
  }

  lemma IdsNone(ids: seq<SigId>)
    ensures L.Ids(ids[..0]) == {}
  {
  }

  lemma MinusNone(m: map<SigId, SubSig>)
    ensures m - {} == m
  {
  }

  lemma MinusOne(m: map<SigId, SubSig>, a: set<SigId>, x: SigId)
    ensures m - (a + {x}) == m - a - {x}
    ensures x !in m - a ==> m - a - {x} == m - a
  {
  }

  lemma EraseCounts(ids: seq<SigId>, i: nat, was: map<SigId, SubSig>)
    requires i < |ids|
    ensures var a, b := L.Ids(ids[..i]), L.Ids(ids[..i + 1]);
            && b == a + {ids[i]}
            && |b * was.Keys| == |a * was.Keys| + (if ids[i] in was - a then 1 else 0)
  {
    var a, b, x := L.Ids(ids[..i]), L.Ids(ids[..i + 1]), ids[i];
    assert ids[..i + 1] == ids[..i] + [x];
    assert b == a + {x};
    if x in was && x !in a {
      assert b * was.Keys == a * was.Keys + {x};
    } else {
      assert b * was.Keys == a * was.Keys;
    }
  }

  lemma OwnedNone(s: seq<SigId>, m: map<SigId, SubSig>)
    ensures forall gone :: L.Without(s[..0], gone) == []
    ensures forall u :: Owned(s[..0], m, u) == []
  {
  }

  lemma OwnedNext(s: seq<SigId>, i: nat, m: map<SigId, SubSig>, u: nat)
    requires i < |s|
    ensures Owned(s[..i + 1], m, u)
            == if s[i] in m && m[s[i]].uid == u then Owned(s[..i], m, u) + [s[i]] else Owned(s[..i], m, u)
  {
    assert s[..i + 1] == s[..i] + [s[i]];
    OwnedAppend(s[..i], [s[i]], m, u);
    assert [s[i]][1..] == [];
  }

  lemma WithoutNext(s: seq<SigId>, i: nat, gone: set<SigId>)
    requires i < |s|
    ensures L.Without(s[..i + 1], gone)
            == if s[i] in gone then L.Without(s[..i], gone) else L.Without(s[..i], gone) + [s[i]]
  {
    assert s[..i + 1] == s[..i] + [s[i]];
    L.WithoutAppend(s[..i], [s[i]], gone);
    assert [s[i]][1..] == [];
  }

  lemma OwnerOf(l: L.Layout, gone: set<SigId>, i: nat)
    requires L.Good(l) && i < |l.sigs|
    ensures |l.uids| <= UID_ANY
    ensures var m, id := l.subs - gone, l.sigs[i];
            && (id in m <==> id !in gone)
            && (id in m ==> m[id].uid == UID_NONE || m[id].uid < |l.uids|)
  {
    if l.sigs[i] !in l.keysigs {
      L.FlatHas(l.uids, l.sigs[i]);
    }
  }

  /** The signatures of `s` have gone to their owners' lists. */
  ghost predicate Placed(s: seq<SigId>, m: map<SigId, SubSig>, all: seq<L.Uid>, keysigs: seq<SigId>, uids: seq<L.Uid>) {
    && keysigs == Owned(s, m, UID_NONE) && |uids| == |all|
    && forall u :: 0 <= u < |uids| ==> uids[u] == L.Uid(all[u].pkt, Owned(s, m, u))
  }

  lemma NonePlaced(s: seq<SigId>, m: map<SigId, SubSig>, all: seq<L.Uid>, uids: seq<L.Uid>)
    requires |uids| == |all| && forall u :: 0 <= u < |uids| ==> uids[u] == L.Uid(all[u].pkt, [])
    ensures Placed(s[..0], m, all, [], uids)
  {
    hide Owned;
    OwnedNone(s, m);
  }

  lemma RebuiltIs(l: L.Layout, gone: set<SigId>, keysigs: seq<SigId>, uids: seq<L.Uid>)
    requires L.Good(l) && Placed(l.sigs, l.subs - gone, l.uids, keysigs, uids)
    ensures keysigs == L.Without(l.keysigs, gone)
    ensures uids == L.DropUids(l.uids, gone)
  {
    hide L.Good, Owned, L.Without;
    OwnedKeysigs(l, gone);
    forall u | 0 <= u < |uids| ensures uids[u] == L.DropUids(l.uids, gone)[u] {
      OwnedUid(l, gone, u);
    }
  }

  // ----- Packets -----

  function SigPackets(ids: seq<SigId>): (r: seq<Packet>)
    ensures |r| == |ids| && forall i :: 0 <= i < |ids| ==> r[i] == SigPacket(ids[i])
  {
    seq(|ids|, i requires 0 <= i < |ids| => SigPacket(ids[i]))
  }

  function UidPackets(uids: seq<L.Uid>): (r: seq<Packet>) {
    if uids == [] then []
    else [UidPacket(uids[0].pkt)] + SigPackets(uids[0].sigs) + UidPackets(uids[1..])
  }

  /** A key as a packet sequence: key, direct-key signatures, each userid with its signatures. */
  function Packets(l: L.Layout): (r: seq<Packet>) {
    [KeyPacket] + SigPackets(l.keysigs) + UidPackets(l.uids)
  }

  lemma {:induction false} UidPacketsAppend(a: seq<L.Uid>, b: seq<L.Uid>)
    ensures UidPackets(a + b) == UidPackets(a) + UidPackets(b)
  {
    if a == [] {
      assert a + b == b;
    } else {
      assert (a + b)[1..] == a[1..] + b;
      UidPacketsAppend(a[1..], b);
    }
  }

  lemma UidPacketsNext(uids: seq<L.Uid>, i: nat)
    requires i < |uids|
    ensures UidPackets(uids[..i + 1]) == UidPackets(uids[..i]) + ([UidPacket(uids[i].pkt)] + SigPackets(uids[i].sigs))
  {
    hide SigPackets;
    var one := [uids[i]];
    assert uids[..i + 1] == uids[..i] + one;
    UidPacketsAppend(uids[..i], one);
    assert one[1..] == [];
    assert UidPackets(one) == [UidPacket(uids[i].pkt)] + SigPackets(uids[i].sigs);
  }

  lemma {:induction false} UidPacketCount(uids: seq<L.Uid>)
    ensures |UidPackets(uids)| == |uids| + |L.Flat(uids)|
  {
    if uids != [] {
      UidPacketCount(uids[1..]);
    }
  }

  lemma PacketCount(l: L.Layout)
    requires L.Good(l)
    ensures |Packets(l)| == M.RawpktCount(l)
  {
    UidPacketCount(l.uids);
  }

  // ----- Steps of the loops -----

  lemma IdMatches(l: L.Layout, id: SigId)
    requires L.Good(l) && id in l.subs
    ensures l.subs[id].sig.id == id
  {
  }

  lemma MergeUidsStep(l: L.Layout, src: L.Layout, uids: seq<L.Uid>)
    requires L.Good(l) && L.Good(src) && |l.uids| + |uids| <= UID_ANY && uids != []
    requires forall u, id :: u in uids && id in u.sigs ==> id in src.subs
    ensures forall id :: id in uids[0].sigs ==> id in src.subs
    ensures |M.MergeUid(l, src, uids[0]).uids| + |uids[1..]| <= UID_ANY
    ensures M.MergeUids(l, src, uids) == M.MergeUids(M.MergeUid(l, src, uids[0]), src, uids[1..])
  {
    hide L.Good, M.MergeUid;
  }

  lemma MergeUidsDone(l: L.Layout, src: L.Layout)
    requires L.Good(l) && L.Good(src)
    ensures |l.uids| <= UID_ANY && M.MergeUids(l, src, []) == l
  {
  }

  /** While del_uid scans the order: `seen` are the ids of `gone` among `s`. */
  ghost predicate Doomed(seen: set<SigId>, gone: set<SigId>, s: seq<SigId>) {
    forall id :: id in seen <==> id in gone && id in s
  }

  lemma NoneDoomed(s: seq<SigId>, gone: set<SigId>)
    ensures Doomed({}, gone, s[..0])
  {
  }

  lemma DoomedAre(l: L.Layout, idx: nat, i: nat, seen: set<SigId>)
    requires L.Good(l) && idx < |l.uids| && i < |l.sigs|
    requires Doomed(seen, L.Ids(l.uids[idx].sigs), l.sigs[..i])
    ensures var id, gone := l.sigs[i], L.Ids(l.uids[idx].sigs);
            && id in l.subs && id !in seen
            && (l.subs[id].uid == idx <==> id in gone)
            && Doomed(if id in gone then seen + {id} else seen, gone, l.sigs[..i + 1])
  {
    hide L.Flat, L.NoDup;
    var id := l.sigs[i];
    if id !in l.keysigs {
      L.FlatHas(l.uids, id);
    }
    NotBefore(l.sigs, i);
    assert l.sigs[..i + 1] == l.sigs[..i] + [id];
  }

  lemma OwnerHas(l: L.Layout, id: SigId)
    requires L.Good(l) && id in l.subs
    ensures id in l.sigs && L.NoDup(l.sigs) && L.Ordered(l) && |l.uids| <= UID_ANY
    ensures var u := l.subs[id].uid;
            if u == UID_NONE then id in l.keysigs
            else u < |l.uids| && id in l.uids[u].sigs && id !in l.keysigs
  {
    hide L.Flat, L.NoDup;
    assert id in l.sigs;
    assert id in l.keysigs || id in L.Flat(l.uids);
    L.FlatHas(l.uids, id);
  }

  lemma NotBefore(s: seq<SigId>, i: nat)
    requires L.NoDup(s) && i < |s|
    ensures s[i] !in s[..i]
  {
  }

  lemma DoomedAll(l: L.Layout, idx: nat, seen: set<SigId>)
    requires L.Good(l) && idx < |l.uids| && Doomed(seen, L.Ids(l.uids[idx].sigs), l.sigs)
    ensures seen == L.Ids(l.uids[idx].sigs)
  {
    forall id | id in L.Ids(l.uids[idx].sigs) ensures id in seen {
      assert id in l.uids[idx].sigs;
    }
  }

  /** Without the userid, shifting the owners gives the specified map; with the last userid gone
      there is nothing to shift. */
  lemma ShiftIs(l: L.Layout, idx: nat, subs: map<SigId, SubSig>)
    requires L.Good(l) && idx < |l.uids|
    requires var m := l.subs - L.Ids(l.uids[idx].sigs);
             subs == if idx + 1 < |l.uids| then map id | id in m :: L.Shifted(m[id], idx) else m
    ensures subs == L.DropUid(l, idx).subs
  {
    hide L.Without, L.NoDup;
    var m := l.subs - L.Ids(l.uids[idx].sigs);
    if idx + 1 == |l.uids| {
      forall id | id in m ensures L.Shifted(m[id], idx) == m[id] {
        if id !in l.keysigs {
          L.FlatHas(l.uids, id);
        }
      }
    }
  }
}
