/** Runs of operations on one key's signatures. */
module KeyRun {
  import opened Signatures
  import L = KeyLayout
  import M = KeyMerge
  import R = KeyRecord

  datatype Op =
    | AddSig(sig: Sig, uid: nat, begin: bool)
    | ReplaceSig(id: SigId, newsig: Sig)
    | DelSig(id: SigId)
    | DelSigs(ids: seq<SigId>)
    | AddUid(pkt: UidPkt, certs: seq<Sig>)
    | DelUid(idx: nat)
    | Merge(src: L.Layout)

  /** The userid exists, and there is room for more. */
  ghost predicate InRange(l: L.Layout, op: Op) {
    match op
    case AddSig(_, uid, _) => uid == UID_NONE || uid < |l.uids|
    case AddUid(_, _) => |l.uids| < UID_ANY
    case Merge(src) => L.Good(src) && |l.uids| + |src.uids| <= UID_ANY
    case _ => true
  }

  /** No signature is added under an id that is in use. */
  ghost predicate Fresh(l: L.Layout, op: Op) {
    match op
    case AddSig(sig, _, _) => sig.id !in l.subs
    case ReplaceSig(id, newsig) => id in l.subs ==> newsig.id == id || newsig.id !in l.subs
    case AddUid(_, certs) => L.AllNew(l, certs)
    case _ => true
  }

  ghost function After(l: L.Layout, op: Op): (r: L.Layout)
    requires L.Good(l) && InRange(l, op)
  {
    match op
    case AddSig(sig, uid, begin) => L.AddSig(l, sig, uid, begin)
    case ReplaceSig(id, newsig) => if id in l.subs then L.ReplaceSig(l, id, newsig) else l
    case DelSig(id) => L.Drop(l, {id})
    case DelSigs(ids) => L.Drop(l, L.Ids(ids))
    case AddUid(pkt, certs) => R.AddUidWith(l, pkt, certs)
    case DelUid(idx) => if idx < |l.uids| then L.DropUid(l, idx) else l
    case Merge(src) => M.Merge(l, src)
  }

  /** One operation keeps the layout in order exactly when its ids are fresh. */
  lemma AfterGood(l: L.Layout, op: Op)
    requires L.Good(l) && InRange(l, op)
    ensures L.Good(After(l, op)) <==> Fresh(l, op)
  {
    hide L.Good, L.AddSig, L.ReplaceSig, L.Drop, L.DropUid, L.AddSigs, L.Ids, M.Merge;
    match op {
      case AddSig(sig, uid, begin) => L.AddSigGood(l, sig, uid, begin);
      case ReplaceSig(id, newsig) =>
        if id in l.subs {
          L.ReplaceSigGood(l, id, newsig);
        }
      case DelSig(id) => L.DropGood(l, {id});
      case DelSigs(ids) => L.DropGood(l, L.Ids(ids));
      case AddUid(pkt, certs) =>
        L.AddUidGood(l, pkt);
        L.AddSigsGood(L.AddUid(l, pkt), certs, |l.uids|);
      case DelUid(idx) =>
        if idx < |l.uids| {
          L.DropUidGood(l, idx);
        }
      case Merge(src) =>
    }
  }

  ghost predicate FreshRun(l: L.Layout, ops: seq<Op>)
    requires L.Good(l)
    decreases |ops|
  {
    ops == [] ||
    (InRange(l, ops[0]) && Fresh(l, ops[0]) && (AfterGood(l, ops[0]); FreshRun(After(l, ops[0]), ops[1..])))
  }

  ghost function Final(l: L.Layout, ops: seq<Op>): (r: L.Layout)
    requires L.Good(l) && FreshRun(l, ops)
    decreases |ops|
  {
    if ops == [] then l else (AfterGood(l, ops[0]); Final(After(l, ops[0]), ops[1..]))
  }

  /** Every run with fresh ids, from an empty key or any other in order, keeps the layout in order;
      so what is written always has as many packets as are counted. */
  lemma {:induction false} RunGood(l: L.Layout, ops: seq<Op>)
    requires L.Good(l) && FreshRun(l, ops)
    ensures L.Good(Final(l, ops)) && |R.Packets(Final(l, ops))| == M.RawpktCount(Final(l, ops))
    decreases |ops|
  {
    hide L.Good, After, Fresh, InRange, M.RawpktCount;
    if ops == [] {
      R.PacketCount(l);
    } else {
      AfterGood(l, ops[0]);
      RunGood(After(l, ops[0]), ops[1..]);
    }
  }
}
