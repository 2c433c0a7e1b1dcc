/** The signature index of a key: one map and three kinds of order lists that must stay in step. */
module KeyLayout {
  import opened Signatures

  /** pgp_userid_t: its packet and the ids of the signatures on it. */
  datatype Uid = Uid(pkt: UidPkt, sigs: seq<SigId>)

  datatype Layout = Layout(subs: map<SigId, SubSig>, sigs: seq<SigId>, keysigs: seq<SigId>, uids: seq<Uid>)

  /** All userids' signature ids, userid by userid. */
  function Flat(uids: seq<Uid>): (r: seq<SigId>) {
    if uids == [] then [] else uids[0].sigs + Flat(uids[1..])
  }

  predicate NoDup(s: seq<SigId>) {
    forall i, j :: 0 <= i < j < |s| ==> s[i] != s[j]
  }

  /** The layout invariant: the global order is the direct-key signatures and then each userid's,
      without repetition; the map holds exactly these ids, and each entry names its owner. */
  ghost predicate Good(l: Layout) {
    && |l.uids| <= UID_ANY
    && Ordered(l)
    && NoDup(l.sigs)
    && (forall id :: id in l.subs <==> id in l.sigs)
    && (forall id :: id in l.subs ==> l.subs[id].sig.id == id)
    && (forall id :: id in l.keysigs ==> id in l.subs && l.subs[id].uid == UID_NONE)
    && (forall u, id :: 0 <= u < |l.uids| && id in l.uids[u].sigs ==> id in l.subs && l.subs[id].uid == u)
  }

  predicate Ordered(l: Layout) {
    l.sigs == l.keysigs + Flat(l.uids)
  }

  const EMPTY := Layout(map[], [], [], [])

  // ----- Sequences of ids -----

  /** `s` without the ids in `gone`. */
  function Without(s: seq<SigId>, gone: set<SigId>): (r: seq<SigId>)
    ensures forall id :: id in r <==> id in s && id !in gone
  {
    if s == [] then [] else (if s[0] in gone then [] else [s[0]]) + Without(s[1..], gone)
  }

  lemma {:induction false} WithoutAppend(s: seq<SigId>, t: seq<SigId>, gone: set<SigId>)
    ensures Without(s + t, gone) == Without(s, gone) + Without(t, gone)
  {
    if s == [] {
      assert s + t == t;
    } else {
      assert (s + t)[1..] == s[1..] + t;
      WithoutAppend(s[1..], t, gone);
    }
  }

  lemma {:induction false} WithoutTwice(s: seq<SigId>, a: set<SigId>, b: set<SigId>)
    ensures Without(Without(s, a), b) == Without(s, a + b)
  {
    if s != [] {
      WithoutTwice(s[1..], a, b);
      if s[0] !in a {
        assert ([s[0]] + Without(s[1..], a))[1..] == Without(s[1..], a);
      } else {
        assert [] + Without(s[1..], a) == Without(s[1..], a);
      }
    }
  }

  lemma {:induction false} WithoutNone(s: seq<SigId>, gone: set<SigId>)
    requires forall id :: id in s ==> id !in gone
    ensures Without(s, gone) == s
  {
    if s != [] {
      WithoutNone(s[1..], gone);
    }
  }

  lemma {:induction false} WithoutAll(s: seq<SigId>, gone: set<SigId>)
    requires forall id :: id in s ==> id in gone
    ensures Without(s, gone) == []
  {
    if s != [] {
      WithoutAll(s[1..], gone);
    }
  }

  lemma NoDupAppend(s: seq<SigId>, t: seq<SigId>)
    ensures NoDup(s + t) <==> NoDup(s) && NoDup(t) && forall id :: id in s ==> id !in t
  {
    var u := s + t;
    assert forall i :: 0 <= i < |s| ==> u[i] == s[i];
    assert forall j :: |s| <= j < |u| ==> u[j] == t[j - |s|];
    if NoDup(u) {
      assert NoDup(t) by {
        forall i, j | 0 <= i < j < |t| ensures t[i] != t[j] {
          assert u[|s| + i] != u[|s| + j];
        }
      }
      forall id | id in s ensures id !in t {
        var i :| 0 <= i < |s| && s[i] == id;
        forall j | 0 <= j < |t| ensures t[j] != id {
          assert u[i] != u[|s| + j];
        }
      }
    }
    if NoDup(s) && NoDup(t) && forall id :: id in s ==> id !in t {
      forall i, j | 0 <= i < j < |u| ensures u[i] != u[j] {
        if i < |s| <= j {
          assert s[i] in s && t[j - |s|] in t;
        }
      }
    }
  }

  lemma {:induction false} WithoutNoDup(s: seq<SigId>, gone: set<SigId>)
    requires NoDup(s)
    ensures NoDup(Without(s, gone))
  {
    if s != [] {
      assert s == [s[0]] + s[1..];
      NoDupAppend([s[0]], s[1..]);
      WithoutNoDup(s[1..], gone);
      NoDupAppend(if s[0] in gone then [] else [s[0]], Without(s[1..], gone));
    }
  }

  // ----- Userid lists -----

  lemma {:induction false} FlatAppend(a: seq<Uid>, b: seq<Uid>)
    ensures Flat(a + b) == Flat(a) + Flat(b)
  {
    if a == [] {
      assert a + b == b;
    } else {
      assert (a + b)[1..] == a[1..] + b;
      FlatAppend(a[1..], b);
    }
  }

  /** The list around one userid. */
  lemma FlatAt(uids: seq<Uid>, u: nat)
    requires u < |uids|
    ensures Flat(uids) == Flat(uids[..u]) + uids[u].sigs + Flat(uids[u + 1..])
    ensures Flat(uids[..u + 1]) == Flat(uids[..u]) + uids[u].sigs
  {
    assert uids == uids[..u] + uids[u..];
    FlatAppend(uids[..u], uids[u..]);
    assert uids[u..][1..] == uids[u + 1..];
    assert uids[..u + 1] == uids[..u] + [uids[u]];
    FlatAppend(uids[..u], [uids[u]]);
    assert Flat([uids[u]]) == uids[u].sigs + Flat([uids[u]][1..]);
  }

  /** An id is in the flat list exactly if some userid has it. */
  lemma {:induction false} FlatHas(uids: seq<Uid>, id: SigId)
    ensures id in Flat(uids) <==> exists u :: 0 <= u < |uids| && id in uids[u].sigs
  {
    if uids != [] {
      FlatHas(uids[1..], id);
      if id in Flat(uids[1..]) {
        var u :| 0 <= u < |uids[1..]| && id in uids[1..][u].sigs;
        assert id in uids[u + 1].sigs;
      }
      if u :| 0 < u < |uids| && id in uids[u].sigs {
        assert id in uids[1..][u - 1].sigs;
      }
    }
  }

  // ----- Adding one signature -----

  function Insert(s: seq<SigId>, i: nat, x: SigId): (r: seq<SigId>)
    requires i <= |s|
    ensures forall y :: y in r <==> y == x || y in s
  {
    s[..i] + [x] + s[i..]
  }

  lemma InsertNoDup(s: seq<SigId>, i: nat, x: SigId)
    requires i <= |s| && NoDup(s)
    ensures NoDup(Insert(s, i, x)) <==> x !in s
  {
    var r := Insert(s, i, x);
    assert s == s[..i] + s[i..];
    NoDupAppend(s[..i], s[i..]);
    NoDupAppend(s[..i] + [x], s[i..]);
    NoDupAppend(s[..i], [x]);
  }

  lemma InsertMid(a: seq<SigId>, own: seq<SigId>, b: seq<SigId>, i: nat, x: SigId)
    requires i <= |own|
    ensures Insert(a + own + b, |a| + i, x) == a + Insert(own, i, x) + b
  {
    var s := a + own + b;
    assert s[..|a| + i] == a + own[..i];
    assert s[|a| + i..] == own[i..] + b;
  }

  /** Where userid `uid` starts in the global order. */
  function Start(l: Layout, uid: nat): nat
    requires uid <= |l.uids|
  {
    |l.keysigs| + |Flat(l.uids[..uid])|
  }

  function AddKeySig(l: Layout, sig: Sig, begin: bool): (r: Layout)
    requires Ordered(l)
  {
    var i := if begin then 0 else |l.keysigs|;
    Layout(l.subs[sig.id := SubSig(sig, UID_NONE, NOT_VALIDATED)],
           Insert(l.sigs, i, sig.id), Insert(l.keysigs, i, sig.id), l.uids)
  }

  function AddUidSig(l: Layout, sig: Sig, uid: nat, begin: bool): (r: Layout)
    requires Ordered(l) && uid < |l.uids|
  {
    var own := l.uids[uid];
    var i := if begin then 0 else |own.sigs|;
    FlatAt(l.uids, uid);
    Layout(l.subs[sig.id := SubSig(sig, uid, NOT_VALIDATED)],
           Insert(l.sigs, Start(l, uid) + i, sig.id), l.keysigs,
           l.uids[uid := own.(sigs := Insert(own.sigs, i, sig.id))])
  }

  /** add_sig: at the front or the back of its owner's list, and at the matching place of `sigs`. */
  function AddSig(l: Layout, sig: Sig, uid: nat, begin: bool): (r: Layout)
    requires Ordered(l) && (uid == UID_NONE || uid < |l.uids|)
  {
    if uid == UID_NONE then AddKeySig(l, sig, begin) else AddUidSig(l, sig, uid, begin)
  }

  lemma AddKeySigOrder(l: Layout, sig: Sig, begin: bool)
    requires Ordered(l)
    ensures Ordered(AddKeySig(l, sig, begin))
  {
    hide Insert;
    assert [] + l.keysigs + Flat(l.uids) == l.sigs;
    var i := if begin then 0 else |l.keysigs|;
    InsertMid([], l.keysigs, Flat(l.uids), i, sig.id);
  }

  lemma {:induction false} AddUidSigOrder(l: Layout, sig: Sig, uid: nat, begin: bool)
    requires Ordered(l) && uid < |l.uids|
    ensures Ordered(AddUidSig(l, sig, uid, begin))
  {
    hide Insert, Flat;
    var r := AddUidSig(l, sig, uid, begin);
    var own := l.uids[uid].sigs;
    var i := if begin then 0 else |own|;
    FlatAt(l.uids, uid);
    FlatAt(r.uids, uid);
    assert r.uids[..uid] == l.uids[..uid] && r.uids[uid + 1..] == l.uids[uid + 1..];
    var before, after := l.keysigs + Flat(l.uids[..uid]), Flat(l.uids[uid + 1..]);
    Assoc(l.keysigs, Flat(l.uids[..uid]), own, after);
    InsertMid(before, own, after, i, sig.id);
    Assoc(l.keysigs, Flat(l.uids[..uid]), Insert(own, i, sig.id), after);
  }

  lemma Assoc(a: seq<SigId>, b: seq<SigId>, c: seq<SigId>, d: seq<SigId>)
    ensures a + (b + c + d) == a + b + c + d
  {
  }

  lemma {:induction false} AddKeySigGood(l: Layout, sig: Sig, begin: bool)
    requires Good(l)
    ensures Good(AddKeySig(l, sig, begin)) <==> sig.id !in l.subs
  {
    hide Insert, NoDup;
    AddKeySigOrder(l, sig, begin);
    InsertNoDup(l.sigs, if begin then 0 else |l.keysigs|, sig.id);
    if sig.id !in l.subs {
      OwnersKept(l, AddKeySig(l, sig, begin), sig.id, UID_NONE);
    }
  }

  lemma {:induction false} AddUidSigGood(l: Layout, sig: Sig, uid: nat, begin: bool)
    requires Good(l) && uid < |l.uids|
    ensures Good(AddUidSig(l, sig, uid, begin)) <==> sig.id !in l.subs
  {
    hide Insert, NoDup, Flat;
    AddUidSigOrder(l, sig, uid, begin);
    FlatAt(l.uids, uid);
    InsertNoDup(l.sigs, Start(l, uid) + if begin then 0 else |l.uids[uid].sigs|, sig.id);
    if sig.id !in l.subs {
      OwnersKept(l, AddUidSig(l, sig, uid, begin), sig.id, uid);
    }
  }

  /** Adding keeps the invariant exactly when the id is new. */
  lemma {:induction false} AddSigGood(l: Layout, sig: Sig, uid: nat, begin: bool)
    requires Good(l) && (uid == UID_NONE || uid < |l.uids|)
    ensures Good(AddSig(l, sig, uid, begin)) <==> sig.id !in l.subs
    ensures AddSig(l, sig, uid, begin).subs.Keys == l.subs.Keys + {sig.id}
  {
    hide Good, Insert;
    if uid == UID_NONE {
      AddKeySigGood(l, sig, begin);
    } else {
      AddUidSigGood(l, sig, uid, begin);
    }
  }

  /** A new id listed with one owner leaves the other owners' entries right. */
  lemma OwnersKept(l: Layout, r: Layout, x: SigId, uid: nat)
    requires Good(l) && x !in l.subs && |r.uids| == |l.uids|
    requires forall id :: id in r.subs <==> id == x || id in l.subs
    requires r.subs[x].uid == uid
    requires forall id :: id in l.subs ==> r.subs[id] == l.subs[id]
    requires forall id :: id in r.keysigs ==> id in l.keysigs || (id == x && uid == UID_NONE)
    requires forall u, id :: 0 <= u < |r.uids| && id in r.uids[u].sigs ==> id in l.uids[u].sigs || (id == x && u == uid)
    ensures forall id :: id in r.keysigs ==> id in r.subs && r.subs[id].uid == UID_NONE
    ensures forall u, id :: 0 <= u < |r.uids| && id in r.uids[u].sigs ==> id in r.subs && r.subs[id].uid == u
  {
  }

  // ----- Deleting signatures -----

  function DropUids(uids: seq<Uid>, gone: set<SigId>): (r: seq<Uid>)
    ensures |r| == |uids|
    ensures forall u :: 0 <= u < |r| ==> r[u] == Uid(uids[u].pkt, Without(uids[u].sigs, gone))
  {
    if uids == [] then [] else [Uid(uids[0].pkt, Without(uids[0].sigs, gone))] + DropUids(uids[1..], gone)
  }

  /** The layout without the signatures in `gone`, wherever they are listed. */
  function Drop(l: Layout, gone: set<SigId>): (r: Layout) {
    Layout(l.subs - gone, Without(l.sigs, gone), Without(l.keysigs, gone), DropUids(l.uids, gone))
  }

  lemma {:induction false} FlatDrop(uids: seq<Uid>, gone: set<SigId>)
    ensures Flat(DropUids(uids, gone)) == Without(Flat(uids), gone)
  {
    if uids != [] {
      FlatDrop(uids[1..], gone);
      WithoutAppend(uids[0].sigs, Flat(uids[1..]), gone);
      assert DropUids(uids, gone)[1..] == DropUids(uids[1..], gone);
    }
  }

  lemma DropGood(l: Layout, gone: set<SigId>)
    requires Good(l)
    ensures Good(Drop(l, gone))
  {
    hide Without, NoDup, Flat, DropUids;
    FlatDrop(l.uids, gone);
    WithoutAppend(l.keysigs, Flat(l.uids), gone);
    WithoutNoDup(l.sigs, gone);
  }

  /** Deleting in two steps is deleting at once; the order of deletions does not matter. */
  lemma DropTwice(l: Layout, a: set<SigId>, b: set<SigId>)
    ensures Drop(Drop(l, a), b) == Drop(l, a + b)
  {
    WithoutTwice(l.sigs, a, b);
    WithoutTwice(l.keysigs, a, b);
    var x, y := Drop(Drop(l, a), b).uids, Drop(l, a + b).uids;
    forall u | 0 <= u < |x| ensures x[u] == y[u] {
      WithoutTwice(l.uids[u].sigs, a, b);
    }
    assert l.subs - a - b == l.subs - (a + b);
  }

  lemma DropNothing(l: Layout, gone: set<SigId>)
    requires Good(l) && gone !! l.subs.Keys
    ensures Drop(l, gone) == l
  {
    hide Without, NoDup, Flat, DropUids;
    WithoutNone(l.sigs, gone);
    WithoutNone(l.keysigs, gone);
    forall u | 0 <= u < |l.uids| ensures DropUids(l.uids, gone)[u] == l.uids[u] {
      WithoutNone(l.uids[u].sigs, gone);
    }
    assert DropUids(l.uids, gone) == l.uids;
    assert l.subs - gone == l.subs;
  }

  /** del_sig on each id in turn. */
  function DropEach(l: Layout, ids: seq<SigId>): (r: Layout)
    decreases |ids|
  {
    if ids == [] then l else DropEach(Drop(l, {ids[0]}), ids[1..])
  }

  function Ids(s: seq<SigId>): set<SigId> {
    set id | id in s
  }

  /** Bulk deletion is deletion of each. */
  lemma {:induction false} DropEachIsDrop(l: Layout, ids: seq<SigId>)
    requires Good(l)
    ensures DropEach(l, ids) == Drop(l, Ids(ids))
    decreases |ids|
  {
    hide Good, Drop;
    if ids == [] {
      assert Ids(ids) == {};
      DropNothing(l, {});
    } else {
      DropGood(l, {ids[0]});
      DropEachIsDrop(Drop(l, {ids[0]}), ids[1..]);
      DropTwice(l, {ids[0]}, Ids(ids[1..]));
      assert {ids[0]} + Ids(ids[1..]) == Ids(ids);
    }
  }

  // ----- Replacing a signature -----

  function Renamed(s: seq<SigId>, id: SigId, n: SigId): (r: seq<SigId>)
    ensures |r| == |s| && forall i :: 0 <= i < |s| ==> r[i] == if s[i] == id then n else s[i]
  {
    seq(|s|, i requires 0 <= i < |s| => if s[i] == id then n else s[i])
  }

  function RenamedUids(uids: seq<Uid>, id: SigId, n: SigId): (r: seq<Uid>)
    ensures |r| == |uids|
    ensures forall u :: 0 <= u < |r| ==> r[u] == Uid(uids[u].pkt, Renamed(uids[u].sigs, id, n))
  {
    if uids == [] then [] else [Uid(uids[0].pkt, Renamed(uids[0].sigs, id, n))] + RenamedUids(uids[1..], id, n)
  }

  /** The map after replace_sig: an entry that already has the new id is kept and only re-owned. */
  function ReplacedSubs(subs: map<SigId, SubSig>, id: SigId, newsig: Sig): (r: map<SigId, SubSig>)
    requires id in subs
  {
    var rest := subs - {id};
    rest[newsig.id := if newsig.id in rest then rest[newsig.id].(uid := subs[id].uid)
                      else SubSig(newsig, subs[id].uid, NOT_VALIDATED)]
  }

  /** The new id takes the place of the old one in every list. */
  function ReplaceSig(l: Layout, id: SigId, newsig: Sig): (r: Layout)
    requires id in l.subs
  {
    var n := newsig.id;
    Layout(ReplacedSubs(l.subs, id, newsig), Renamed(l.sigs, id, n), Renamed(l.keysigs, id, n),
           RenamedUids(l.uids, id, n))
  }

  lemma {:induction false} FlatRenamed(uids: seq<Uid>, id: SigId, n: SigId)
    ensures Flat(RenamedUids(uids, id, n)) == Renamed(Flat(uids), id, n)
  {
    if uids != [] {
      FlatRenamed(uids[1..], id, n);
      assert RenamedUids(uids, id, n)[1..] == RenamedUids(uids[1..], id, n);
    }
  }

  lemma RenamedMembers(s: seq<SigId>, id: SigId, n: SigId)
    requires id in s
    ensures forall y :: y in Renamed(s, id, n) <==> y == n || (y in s && y != id)
  {
    var r := Renamed(s, id, n);
    forall y | y in s && y != id ensures y in r {
      var i :| 0 <= i < |s| && s[i] == y;
      assert r[i] == y;
    }
    var i :| 0 <= i < |s| && s[i] == id;
    assert r[i] == n;
  }

  lemma RenamedNoDup(s: seq<SigId>, id: SigId, n: SigId)
    requires id in s && NoDup(s)
    ensures NoDup(Renamed(s, id, n)) <==> n == id || n !in s
  {
    var r := Renamed(s, id, n);
    var i :| 0 <= i < |s| && s[i] == id;
    if n != id && n in s {
      var j :| 0 <= j < |s| && s[j] == n;
      assert r[i] == r[j];
    }
  }

  lemma RenamedAbsent(s: seq<SigId>, id: SigId, n: SigId)
    requires id !in s
    ensures Renamed(s, id, n) == s
  {
  }

  /** Replacing keeps the invariant exactly when the new id is fresh or the old one. */
  lemma ReplaceSigGood(l: Layout, id: SigId, newsig: Sig)
    requires Good(l) && id in l.subs
    ensures Good(ReplaceSig(l, id, newsig)) <==> newsig.id == id || newsig.id !in l.subs
  {
    hide Renamed, RenamedUids, Flat, NoDup;
    var n, r := newsig.id, ReplaceSig(l, id, newsig);
    FlatRenamed(l.uids, id, n);
    RenamedConcat(l.keysigs, Flat(l.uids), id, n);
    RenamedNoDup(l.sigs, id, n);
    if n == id || n !in l.subs {
      RenamedMembers(l.sigs, id, n);
      assert forall y :: y in r.subs <==> y in r.sigs;
      ReplaceOwners(l, id, newsig);
    }
  }

  lemma RenamedConcat(s: seq<SigId>, t: seq<SigId>, id: SigId, n: SigId)
    ensures Renamed(s + t, id, n) == Renamed(s, id, n) + Renamed(t, id, n)
  {
  }

  lemma ReplaceOwners(l: Layout, id: SigId, newsig: Sig)
    requires Good(l) && id in l.subs && (newsig.id == id || newsig.id !in l.subs)
    ensures var r := ReplaceSig(l, id, newsig);
            && (forall y :: y in r.keysigs ==> y in r.subs && r.subs[y].uid == UID_NONE)
            && (forall u, y :: 0 <= u < |r.uids| && y in r.uids[u].sigs ==> y in r.subs && r.subs[y].uid == u)
  {
    hide Renamed, RenamedUids, Flat, NoDup;
    var n, r := newsig.id, ReplaceSig(l, id, newsig);
    if id in l.keysigs {
      RenamedMembers(l.keysigs, id, n);
    } else {
      RenamedAbsent(l.keysigs, id, n);
    }
    forall u, y | 0 <= u < |r.uids| && y in r.uids[u].sigs ensures y in r.subs && r.subs[y].uid == u {
      if id in l.uids[u].sigs {
        RenamedMembers(l.uids[u].sigs, id, n);
      } else {
        RenamedAbsent(l.uids[u].sigs, id, n);
      }
    }
  }

  // ----- Deleting a userid -----

  /** Owner index after userid `idx` is gone. */
  function Shifted(sub: SubSig, idx: nat): (r: SubSig) {
    if sub.uid == UID_NONE || sub.uid <= idx then sub else sub.(uid := sub.uid - 1)
  }

  /** del_uid: the userid and its signatures go; later userids move down by one. */
  function DropUid(l: Layout, idx: nat): (r: Layout)
    requires idx < |l.uids|
  {
    var gone := Ids(l.uids[idx].sigs);
    Layout(map id | id in l.subs && id !in gone :: Shifted(l.subs[id], idx),
           Without(l.sigs, gone), l.keysigs, l.uids[..idx] + l.uids[idx + 1..])
  }

  lemma DropUidOrder(l: Layout, idx: nat)
    requires Good(l) && idx < |l.uids|
    ensures Ordered(DropUid(l, idx))
  {
    hide Flat, Without, Ids;
    var own := l.uids[idx].sigs;
    var gone := Ids(own);
    assert forall id :: id in own <==> id in gone by { IdsAre(own); }
    var a, b := l.keysigs + Flat(l.uids[..idx]), Flat(l.uids[idx + 1..]);
    FlatAt(l.uids, idx);
    FlatAppend(l.uids[..idx], l.uids[idx + 1..]);
    assert l.sigs == a + own + b;
    NoDupAppend(a + own, b);
    NoDupAppend(a, own);
    WithoutAppend(a + own, b, gone);
    WithoutAppend(a, own, gone);
    WithoutNone(a, gone);
    WithoutAll(own, gone);
    WithoutNone(b, gone);
    assert a + [] + b == l.keysigs + (Flat(l.uids[..idx]) + b);
  }

  lemma IdsAre(s: seq<SigId>)
    ensures forall id :: id in s <==> id in Ids(s)
  {
  }

  lemma DropUidGood(l: Layout, idx: nat)
    requires Good(l) && idx < |l.uids|
    ensures Good(DropUid(l, idx))
    ensures DropUid(l, idx).subs.Keys == l.subs.Keys - Ids(l.uids[idx].sigs)
  {
    hide Flat, Without, NoDup;
    var r := DropUid(l, idx);
    DropUidOrder(l, idx);
    WithoutNoDup(l.sigs, Ids(l.uids[idx].sigs));
    forall u, id | 0 <= u < |r.uids| && id in r.uids[u].sigs ensures id in r.subs && r.subs[id].uid == u {
      var v := if u < idx then u else u + 1;
      assert r.uids[u] == l.uids[v] && l.subs[id].uid == v;
      assert id !in l.uids[idx].sigs;
    }
  }

  // ----- Adding a userid -----

  /** One signature, unless the key already has it. */
  function AddIfNew(l: Layout, sig: Sig, uid: nat): (r: Layout)
    requires Good(l) && (uid == UID_NONE || uid < |l.uids|)
    ensures Good(r) && |r.uids| == |l.uids|
  {
    AddSigGood(l, sig, uid, false);
    if sig.id in l.subs then l else AddSig(l, sig, uid, false)
  }

  /** Several signatures on one owner, skipping those the key already has. */
  function AddNew(l: Layout, sigs: seq<Sig>, uid: nat): (r: Layout)
    requires Good(l) && (uid == UID_NONE || uid < |l.uids|)
    ensures Good(r) && |r.uids| == |l.uids|
    decreases |sigs|
  {
    if sigs == [] then l else AddNew(AddIfNew(l, sigs[0], uid), sigs[1..], uid)
  }

  function AddUid(l: Layout, pkt: UidPkt): (r: Layout) {
    l.(uids := l.uids + [Uid(pkt, [])])
  }

  lemma AddUidGood(l: Layout, pkt: UidPkt)
    requires Good(l) && |l.uids| < UID_ANY
    ensures Good(AddUid(l, pkt))
  {
    FlatAppend(l.uids, [Uid(pkt, [])]);
    assert Flat([Uid(pkt, [])]) == [];
  }

  lemma AddSigOrder(l: Layout, sig: Sig, uid: nat, begin: bool)
    requires Ordered(l) && (uid == UID_NONE || uid < |l.uids|)
    ensures Ordered(AddSig(l, sig, uid, begin)) && |AddSig(l, sig, uid, begin).uids| == |l.uids|
  {
    if uid == UID_NONE {
      AddKeySigOrder(l, sig, begin);
    } else {
      AddUidSigOrder(l, sig, uid, begin);
    }
  }

  /** Signatures added one after the other at the end of one owner's list, no questions asked. */
  function AddSigs(l: Layout, sigs: seq<Sig>, uid: nat): (r: Layout)
    requires Ordered(l) && (uid == UID_NONE || uid < |l.uids|)
    ensures Ordered(r) && |r.uids| == |l.uids|
    decreases |sigs|
  {
    if sigs == [] then l
    else
      AddSigOrder(l, sigs[0], uid, false);
      AddSigs(AddSig(l, sigs[0], uid, false), sigs[1..], uid)
  }

  /** None of the signatures is in the key and none comes twice. */
  predicate AllNew(l: Layout, sigs: seq<Sig>) {
    && (forall i :: 0 <= i < |sigs| ==> sigs[i].id !in l.subs)
    && (forall i, j :: 0 <= i < j < |sigs| ==> sigs[i].id != sigs[j].id)
  }

  lemma {:induction false} AddSigsGood(l: Layout, sigs: seq<Sig>, uid: nat)
    requires Good(l) && (uid == UID_NONE || uid < |l.uids|)
    ensures Good(AddSigs(l, sigs, uid)) <==> AllNew(l, sigs)
    decreases |sigs|
  {
    hide AddSig;
    if sigs != [] {
      var m := AddSig(l, sigs[0], uid, false);
      AddSigOrder(l, sigs[0], uid, false);
      AddSigGood(l, sigs[0], uid, false);
      AllNewStep(l, m, sigs);
      if Good(m) {
        AddSigsGood(m, sigs[1..], uid);
      } else {
        AddSigDup(l, sigs[0], uid, false);
        AddSigsDup(m, sigs[1..], uid);
      }
    }
  }

  lemma AllNewStep(l: Layout, m: Layout, sigs: seq<Sig>)
    requires sigs != [] && m.subs.Keys == l.subs.Keys + {sigs[0].id}
    ensures AllNew(l, sigs) <==> sigs[0].id !in l.subs && AllNew(m, sigs[1..])
  {
    var t := sigs[1..];
    assert forall i :: 0 < i < |sigs| ==> sigs[i] == t[i - 1];
    if sigs[0].id !in l.subs && AllNew(m, t) {
      forall i, j | 0 <= i < j < |sigs| ensures sigs[i].id != sigs[j].id {
        assert t[j - 1].id !in m.subs;
      }
    }
    if AllNew(l, sigs) {
      forall i | 0 <= i < |t| ensures t[i].id !in m.subs {
        assert sigs[0].id != sigs[i + 1].id;
      }
    }
  }

  lemma AddSigDup(l: Layout, sig: Sig, uid: nat, begin: bool)
    requires Ordered(l) && (uid == UID_NONE || uid < |l.uids|)
    requires !NoDup(l.sigs) || sig.id in l.sigs
    ensures !NoDup(AddSig(l, sig, uid, begin).sigs)
  {
    hide Flat;
    if uid != UID_NONE {
      FlatAt(l.uids, uid);
    }
    var i := if uid == UID_NONE then (if begin then 0 else |l.keysigs|)
             else Start(l, uid) + if begin then 0 else |l.uids[uid].sigs|;
    InsertDup(l.sigs, i, sig.id);
  }

  lemma InsertDup(s: seq<SigId>, i: nat, x: SigId)
    requires i <= |s| && (!NoDup(s) || x in s)
    ensures !NoDup(Insert(s, i, x))
  {
    assert s == s[..i] + s[i..];
    NoDupAppend(s[..i], s[i..]);
    NoDupAppend(s[..i] + [x], s[i..]);
    NoDupAppend(s[..i], [x]);
  }

  lemma {:induction false} AddSigsDup(l: Layout, sigs: seq<Sig>, uid: nat)
    requires Ordered(l) && (uid == UID_NONE || uid < |l.uids|) && !NoDup(l.sigs)
    ensures !NoDup(AddSigs(l, sigs, uid).sigs)
    decreases |sigs|
  {
    hide AddSig, NoDup;
    if sigs != [] {
      AddSigOrder(l, sigs[0], uid, false);
      AddSigDup(l, sigs[0], uid, false);
      AddSigsDup(AddSig(l, sigs[0], uid, false), sigs[1..], uid);
    }
  }
}
