/** Validity, expiration and valid-till of a key, derived from its signatures. The signatures are
    taken in the order of `sigs_`. Whether one is cryptographically good is given. */
module KeyValidity {
  import opened Options
  import opened Signatures

  /** What the rules look at in a version 4 or later key besides its signatures. */
  datatype Info = Info(primary: bool, creation: nat, fp: Fp, keyid: KeyId)

  /** UINT64_MAX */
  const FOREVER: nat := 0xffff_ffff_ffff_ffff

  // ----- Kinds of signatures -----

  predicate IsSigner(k: Info, s: SubSig) {
    if s.sig.keyfp.Some? then s.sig.keyfp.value == k.fp else s.sig.keyid == Some(k.keyid)
  }

  predicate IsSelfCert(k: Info, s: SubSig) {
    k.primary && s.sig.kind == Cert && IsSigner(k, s)
  }

  predicate IsDirectSelf(k: Info, s: SubSig) {
    k.primary && s.sig.kind == Direct && IsSigner(k, s)
  }

  predicate IsRevocation(k: Info, s: SubSig) {
    s.sig.kind == if k.primary then RevKey else RevSubkey
  }

  predicate IsBinding(k: Info, s: SubSig) {
    !k.primary && s.sig.kind == SubkeyBinding
  }

  predicate ExpiredWith(k: Info, expiration: nat, at: nat) {
    expiration != 0 && expiration + k.creation < at
  }

  // ----- The latest signature of a kind -----

  datatype Select = SelfSig(uid: nat) | Binding(validated: bool)

  /** The signatures latest_selfsig and latest_binding do not skip. */
  predicate Wanted(k: Info, s: SubSig, sel: Select) {
    match sel
    case SelfSig(uid) =>
      s.Valid()
      && (if uid == UID_NONE then s.uid == UID_NONE && IsDirectSelf(k, s)
          else if uid == UID_PRIMARY then IsSelfCert(k, s) && s.sig.primary && s.uid != UID_NONE
          else if uid == UID_ANY then IsSelfCert(k, s) && s.uid != UID_NONE
          else s.uid == uid && IsSelfCert(k, s))
    case Binding(validated) =>
      (validated ==> s.Valid()) && IsBinding(k, s)
  }

  /** What is wanted, field by field. A self-signature names the primary key as its issuer, by fingerprint if it
      gives one, else by key id; it is a direct-key signature on the key, or a certification on a userid: one that
      claims to be primary, any, or one of a given userid. */
  lemma WantedExactly(k: Info, s: SubSig, uid: nat, validated: bool)
    ensures var good := s.validity == Validity(true, true, false);
            var own := k.primary
                       && (s.sig.keyfp == Some(k.fp) || (s.sig.keyfp == None && s.sig.keyid == Some(k.keyid)));
            && (Wanted(k, s, SelfSig(UID_NONE)) <==> good && own && s.sig.kind == Direct && s.uid == UID_NONE)
            && (Wanted(k, s, SelfSig(UID_PRIMARY)) <==>
                  good && own && s.sig.kind == Cert && s.uid != UID_NONE && s.sig.primary)
            && (Wanted(k, s, SelfSig(UID_ANY)) <==> good && own && s.sig.kind == Cert && s.uid != UID_NONE)
            && (uid < UID_ANY ==> (Wanted(k, s, SelfSig(uid)) <==> good && own && s.sig.kind == Cert && s.uid == uid))
            && (Wanted(k, s, Binding(validated)) <==>
                  (validated ==> good) && !k.primary && s.sig.kind == SubkeyBinding)
  {
  }

  /** `r` is the last of the newest wanted signatures. */
  predicate IsLatest(k: Info, sigs: seq<SubSig>, sel: Select, r: Option<nat>) {
    match r
    case None => forall i :: 0 <= i < |sigs| ==> !Wanted(k, sigs[i], sel)
    case Some(j) =>
      && j < |sigs| && Wanted(k, sigs[j], sel)
      && forall i :: 0 <= i < |sigs| && Wanted(k, sigs[i], sel) ==>
           sigs[i].sig.creation <= sigs[j].sig.creation && (j < i ==> sigs[i].sig.creation < sigs[j].sig.creation)
  }

  lemma LatestUnique(k: Info, sigs: seq<SubSig>, sel: Select, r: Option<nat>, q: Option<nat>)
    requires IsLatest(k, sigs, sel, r) && IsLatest(k, sigs, sel, q)
    ensures r == q
  {
  }

  /** The scan of latest_selfsig and latest_binding. */
  method ScanLatest(k: Info, sigs: seq<SubSig>, sel: Select) returns (r: Option<nat>)
    ensures IsLatest(k, sigs, sel, r)
    ensures r == Latest(k, sigs, sel)
  {
    hide Wanted, Latest;
    var latest := 0;
    r := None;
    for i := 0 to |sigs|
      invariant IsLatest(k, sigs[..i], sel, r)
      invariant r.Some? ==> latest == sigs[r.value].sig.creation
      invariant r.None? ==> latest == 0
    {
      if Wanted(k, sigs[i], sel) && sigs[i].sig.creation >= latest {
        latest := sigs[i].sig.creation;
        r := Some(i);
      }
    }
    assert sigs[..|sigs|] == sigs;
    LatestIs(k, sigs, sel);
    LatestUnique(k, sigs, sel, r, Latest(k, sigs, sel));
  }

  /** The same as a function. */
  function Latest(k: Info, sigs: seq<SubSig>, sel: Select): (r: Option<nat>)
    ensures r.Some? ==> r.value < |sigs|
  {
    if sigs == [] then None
    else
      var n := |sigs| - 1;
      var r := Latest(k, sigs[..n], sel);
      if Wanted(k, sigs[n], sel) && (r.None? || sigs[r.value].sig.creation <= sigs[n].sig.creation) then Some(n) else r
  }

  lemma {:induction false} LatestIs(k: Info, sigs: seq<SubSig>, sel: Select)
    ensures IsLatest(k, sigs, sel, Latest(k, sigs, sel))
  {
    hide Wanted;
    if sigs != [] {
      var n := |sigs| - 1;
      LatestIs(k, sigs[..n], sel);
    }
  }

  /** Each signature is on the key or on a userid. */
  predicate RealUids(sigs: seq<SubSig>) {
    forall i :: 0 <= i < |sigs| ==> sigs[i].uid == UID_NONE || sigs[i].uid < UID_ANY
  }

  /** latest_selfsig: a primary-userid signature gives way to a newer certification of the same
      userid. */
  function LatestSelfsig(k: Info, sigs: seq<SubSig>, uid: nat): (r: Option<nat>)
    ensures r.Some? ==> r.value < |sigs|
  {
    var r := Latest(k, sigs, SelfSig(uid));
    if uid == UID_PRIMARY && r.Some? then
      var over := Latest(k, sigs, SelfSig(sigs[r.value].uid));
      if over.Some? && sigs[over.value].sig.creation > sigs[r.value].sig.creation then None else r
    else r
  }

  /** The method calls itself once, for the userid found. */
  method FindSelfsig(k: Info, sigs: seq<SubSig>, uid: nat) returns (r: Option<nat>)
    requires RealUids(sigs)
    ensures r == LatestSelfsig(k, sigs, uid)
    decreases uid == UID_PRIMARY
  {
    hide Latest;
    r := ScanLatest(k, sigs, SelfSig(uid));
    if uid == UID_PRIMARY && r.Some? {
      var over := FindSelfsig(k, sigs, sigs[r.value].uid);
      if over.Some? && sigs[over.value].sig.creation > sigs[r.value].sig.creation {
        r := None;
      }
    }
  }

  /** A primary userid is only reported if no valid self-certification of it is newer, and if one
      is reported it is the newest of all that claim to be primary. */
  lemma PrimaryUidNotOverridden(k: Info, sigs: seq<SubSig>)
    requires RealUids(sigs)
    ensures var r := LatestSelfsig(k, sigs, UID_PRIMARY);
            && (r.Some? ==>
                  && IsLatest(k, sigs, SelfSig(UID_PRIMARY), r)
                  && forall i :: 0 <= i < |sigs| && Wanted(k, sigs[i], SelfSig(sigs[r.value].uid)) ==>
                       sigs[i].sig.creation <= sigs[r.value].sig.creation)
            && (r.None? ==>
                  forall j: nat :: IsLatest(k, sigs, SelfSig(UID_PRIMARY), Some(j)) ==>
                    exists i :: 0 <= i < |sigs| && Wanted(k, sigs[i], SelfSig(sigs[j].uid))
                                && sigs[i].sig.creation > sigs[j].sig.creation)
  {
    hide Latest, Wanted;
    var r := Latest(k, sigs, SelfSig(UID_PRIMARY));
    LatestIs(k, sigs, SelfSig(UID_PRIMARY));
    forall j: nat | IsLatest(k, sigs, SelfSig(UID_PRIMARY), Some(j)) ensures r == Some(j) {
      LatestUnique(k, sigs, SelfSig(UID_PRIMARY), r, Some(j));
    }
    if r.Some? {
      LatestIs(k, sigs, SelfSig(sigs[r.value].uid));
    }
  }

  // ----- The rules for a primary key -----

  /** The self-signatures that decide how long a primary key is valid: the latest direct-key
      signature and the latest primary-userid certification; failing both, the latest
      certification. */
  function Deciding(k: Info, sigs: seq<SubSig>): (r: seq<SubSig>) {
    var dir, pri, any := LatestSelfsig(k, sigs, UID_NONE), LatestSelfsig(k, sigs, UID_PRIMARY),
                         LatestSelfsig(k, sigs, UID_ANY);
    var both := (if dir.Some? then [sigs[dir.value]] else []) + (if pri.Some? then [sigs[pri.value]] else []);
    if both != [] then both else if any.Some? then [sigs[any.value]] else []
  }

  /** Is there a valid revocation of the key? */
  predicate Revoked(k: Info, sigs: seq<SubSig>) {
    exists i :: 0 <= i < |sigs| && sigs[i].Valid() && IsRevocation(k, sigs[i])
  }

  /** Some deciding signature says the key has expired. */
  predicate SomeExpired(k: Info, ds: seq<SubSig>, now: nat) {
    exists i :: 0 <= i < |ds| && ExpiredWith(k, ds[i].sig.keyExpiration, now)
  }

  /** The validity a primary key should have; `bound` is whether a subkey vouches for it. */
  function PrimaryValidity(k: Info, sigs: seq<SubSig>, now: nat, bound: bool): (v: Validity) {
    var ds := Deciding(k, sigs);
    if Revoked(k, sigs) then Validity(true, false, false)
    else if ds == [] then Validity(true, bound, false)
    else if SomeExpired(k, ds, now) then Validity(true, false, true)
    else Validity(true, true, false)
  }

  /** The least non-zero expiration. */
  function LeastExpiration(ds: seq<SubSig>): (e: nat)
    ensures e == 0 <==> forall i :: 0 <= i < |ds| ==> ds[i].sig.keyExpiration == 0
    ensures e != 0 ==> exists i :: 0 <= i < |ds| && ds[i].sig.keyExpiration == e
    ensures forall i :: 0 <= i < |ds| && ds[i].sig.keyExpiration != 0 ==> e <= ds[i].sig.keyExpiration
  {
    if ds == [] then 0
    else
      var a, b := ds[0].sig.keyExpiration, LeastExpiration(ds[1..]);
      assert forall i :: 0 < i < |ds| ==> ds[i] == ds[1..][i - 1];
      assert b != 0 ==> exists i :: 0 < i < |ds| && ds[i].sig.keyExpiration == b by {
        if b != 0 {
          var i :| 0 <= i < |ds[1..]| && ds[1..][i].sig.keyExpiration == b;
          assert ds[i + 1].sig.keyExpiration == b;
        }
      }
      if b == 0 || (a != 0 && a < b) then a else b
  }

  /** expiration() after refresh_data. */
  function PrimaryExpiration(k: Info, sigs: seq<SubSig>): nat {
    LeastExpiration(Deciding(k, sigs))
  }

  /** valid_till_common */
  function ValidTill(k: Info, v: Validity, expiration: nat, revocation: Option<Sig>, expiry: bool): (t: nat)
    requires k.creation + expiration <= FOREVER
    ensures t <= FOREVER
  {
    var till := if expiration != 0 then k.creation + expiration else FOREVER;
    if !v.validated then 0
    else if v.valid && !v.expired then till
    else if revocation.Some? then
      if revocation.value.compromised || revocation.value.creation <= k.creation then 0
      else if revocation.value.creation < till then revocation.value.creation
      else till
    else if expiry then till
    else 0
  }

  /** Validity and expiration are computed by different functions that pick signatures on their
      own; for a key with a self-signature and no revocation they agree at any time. */
  lemma ExpiryAgreement(k: Info, sigs: seq<SubSig>, now: nat, bound: bool)
    requires !Revoked(k, sigs) && Deciding(k, sigs) != [] && now <= FOREVER
    requires k.creation + PrimaryExpiration(k, sigs) <= FOREVER
    ensures var v, e := PrimaryValidity(k, sigs, now, bound), PrimaryExpiration(k, sigs);
            var till := ValidTill(k, v, e, None, v.expired);
            && v.validated && v.valid != v.expired
            && (v.valid <==> e == 0 || k.creation + e >= now)
            && (v.valid ==> now <= till)
            && (v.expired ==> till < now)
            && till == EndOfLife(k, e)
  {
    hide Deciding, Revoked;
  }

  /** When a key with this expiration ends, revocations aside. */
  function EndOfLife(k: Info, expiration: nat): nat {
    if expiration == 0 then FOREVER else k.creation + expiration
  }

  /** A key that nothing vouches for was never valid. */
  lemma UnboundTill(k: Info, sigs: seq<SubSig>, now: nat)
    requires !Revoked(k, sigs) && Deciding(k, sigs) == []
    requires k.creation + PrimaryExpiration(k, sigs) <= FOREVER
    ensures var v := PrimaryValidity(k, sigs, now, false);
            !v.valid && !v.expired && ValidTill(k, v, PrimaryExpiration(k, sigs), None, v.expired) == 0
  {
    hide Deciding, Revoked;
  }

  /** There is a deciding signature exactly if there is a valid direct-key or userid
      self-signature. */
  lemma DecidingExists(k: Info, sigs: seq<SubSig>)
    requires RealUids(sigs)
    ensures Deciding(k, sigs) != [] <==>
            exists i :: 0 <= i < |sigs|
                        && (Wanted(k, sigs[i], SelfSig(UID_NONE)) || Wanted(k, sigs[i], SelfSig(UID_ANY)))
  {
    hide Latest, LatestSelfsig;
    var dir, pri, any := LatestSelfsig(k, sigs, UID_NONE), LatestSelfsig(k, sigs, UID_PRIMARY),
                         LatestSelfsig(k, sigs, UID_ANY);
    SelfsigWanted(k, sigs, UID_NONE);
    SelfsigWanted(k, sigs, UID_PRIMARY);
    SelfsigWanted(k, sigs, UID_ANY);
    if pri.Some? {
      assert Wanted(k, sigs[pri.value], SelfSig(UID_ANY));
    }
  }

  /** Which signatures decide, with the latest of each kind picked by what latest means: the direct-key
      signature; the one that claims a primary userid, unless a newer self-certification of that userid
      overrides it; and only without both, the latest certification of any userid. */
  lemma DecidingExact(k: Info, sigs: seq<SubSig>, dir: Option<nat>, top: Option<nat>, any: Option<nat>, s: SubSig)
    requires RealUids(sigs)
    requires IsLatest(k, sigs, SelfSig(UID_NONE), dir) && IsLatest(k, sigs, SelfSig(UID_ANY), any)
    requires IsLatest(k, sigs, SelfSig(UID_PRIMARY), top)
    ensures var pri := top.Some? && !Overridden(k, sigs, top.value);
            s in Deciding(k, sigs) <==>
            || (dir.Some? && s == sigs[dir.value])
            || (pri && s == sigs[top.value])
            || (dir.None? && !pri && any.Some? && s == sigs[any.value])
  {
    hide Latest, Wanted, IsLatest, Overridden;
    LatestIsIt(k, sigs, SelfSig(UID_NONE), dir);
    LatestIsIt(k, sigs, SelfSig(UID_ANY), any);
    LatestIsIt(k, sigs, SelfSig(UID_PRIMARY), top);
    if top.Some? {
      OverriddenIs(k, sigs, top.value);
    }
  }

  /** A newer self-certification of the same userid. */
  predicate Overridden(k: Info, sigs: seq<SubSig>, j: nat)
    requires j < |sigs|
  {
    exists i :: 0 <= i < |sigs| && Wanted(k, sigs[i], SelfSig(sigs[j].uid))
                && sigs[i].sig.creation > sigs[j].sig.creation
  }

  lemma LatestIsIt(k: Info, sigs: seq<SubSig>, sel: Select, r: Option<nat>)
    requires IsLatest(k, sigs, sel, r)
    ensures r == Latest(k, sigs, sel)
  {
    LatestIs(k, sigs, sel);
    LatestUnique(k, sigs, sel, r, Latest(k, sigs, sel));
  }

  lemma OverriddenIs(k: Info, sigs: seq<SubSig>, j: nat)
    requires j < |sigs|
    ensures var over := Latest(k, sigs, SelfSig(sigs[j].uid));
            Overridden(k, sigs, j) <==> over.Some? && sigs[over.value].sig.creation > sigs[j].sig.creation
  {
    hide Latest, Wanted;
    LatestIs(k, sigs, SelfSig(sigs[j].uid));
  }

  /** A primary key is valid exactly if it is not revoked and either some signature decides and none of those
      that do expires it, or none decides and a subkey vouches for it. It is expired exactly if it is not
      revoked and a deciding signature expires it. */
  lemma PrimaryValidExactly(k: Info, sigs: seq<SubSig>, now: nat, bound: bool)
    ensures var v, ds := PrimaryValidity(k, sigs, now, bound), Deciding(k, sigs);
            var revoked := exists s :: s in sigs && s.Valid() && IsRevocation(k, s);
            var late := exists s :: s in ds && ExpiredWith(k, s.sig.keyExpiration, now);
            && v.validated
            && (v.valid <==> !revoked && !late && (ds != [] || bound))
            && (v.expired <==> !revoked && late)
  {
    hide Deciding, ExpiredWith;
    RevokedMembers(k, sigs);
  }

  lemma SelfsigWanted(k: Info, sigs: seq<SubSig>, uid: nat)
    ensures var r := LatestSelfsig(k, sigs, uid);
            && (r.Some? ==> Wanted(k, sigs[r.value], SelfSig(uid)))
            && (r.None? && uid != UID_PRIMARY ==> forall i :: 0 <= i < |sigs| ==> !Wanted(k, sigs[i], SelfSig(uid)))
  {
    hide Latest, Wanted;
    LatestIs(k, sigs, SelfSig(uid));
  }

  /** A revoked key is never valid. It is trusted up to the revocation or its expiration, whichever comes
      first; a compromised key, or one revoked no later than it was made, is not trusted at all. */
  lemma RevokedTill(k: Info, sigs: seq<SubSig>, now: nat, bound: bool, r: Sig, expiry: bool)
    requires Revoked(k, sigs) && k.creation + PrimaryExpiration(k, sigs) <= FOREVER
    ensures var v := PrimaryValidity(k, sigs, now, bound);
            var till := ValidTill(k, v, PrimaryExpiration(k, sigs), Some(r), expiry);
            var end := EndOfLife(k, PrimaryExpiration(k, sigs));
            && !v.valid && !v.expired
            && (till == 0 <==> r.compromised || r.creation <= k.creation)
            && (till != 0 ==> till == if r.creation <= end then r.creation else end)
  {
    hide Deciding;
  }

  // ----- The rules for a subkey -----

  /** A valid binding under which the subkey has not expired, and one under which it has. */
  predicate GoodBinding(k: Info, s: SubSig, now: nat) {
    s.Valid() && IsBinding(k, s) && !ExpiredWith(k, s.sig.keyExpiration, now)
  }

  predicate PastBinding(k: Info, s: SubSig, now: nat) {
    s.Valid() && IsBinding(k, s) && ExpiredWith(k, s.sig.keyExpiration, now)
  }

  predicate Bound(k: Info, sigs: seq<SubSig>, now: nat) {
    exists i :: 0 <= i < |sigs| && GoodBinding(k, sigs[i], now)
  }

  /** An expired binding comes before every good one. */
  predicate PastFirst(k: Info, sigs: seq<SubSig>, now: nat) {
    exists i :: 0 <= i < |sigs| && PastBinding(k, sigs[i], now)
                && forall j :: 0 <= j < i ==> !GoodBinding(k, sigs[j], now)
  }

  /** What validate_subkey decides. */
  function SubkeyValidity(k: Info, sigs: seq<SubSig>, now: nat, primary: Validity): (v: Validity) {
    var ok := primary.validated && primary.valid && !primary.expired;
    if (!ok && !primary.expired) || Revoked(k, sigs) then Validity(true, false, false)
    else
      var valid := ok && Bound(k, sigs, now);
      Validity(true, valid, !valid && PastFirst(k, sigs, now))
  }

  /** Valid means: primary valid, some unexpired binding, no revocation. */
  lemma SubkeyValidExactly(k: Info, sigs: seq<SubSig>, now: nat, primary: Validity)
    ensures var v := SubkeyValidity(k, sigs, now, primary);
            v.valid <==> primary.validated && primary.valid && !primary.expired
                         && Bound(k, sigs, now) && !Revoked(k, sigs)
  {
  }

  /** The mark `expired`: not revoked, not valid under a primary key that is valid or expired, and an expired
      binding comes before every unexpired one. */
  lemma SubkeyExpiredExactly(k: Info, sigs: seq<SubSig>, now: nat, primary: Validity)
    ensures var v := SubkeyValidity(k, sigs, now, primary);
            v.expired <==>
            && (primary.expired || (primary.validated && primary.valid)) && !Revoked(k, sigs) && !v.valid
            && exists i :: 0 <= i < |sigs| && PastBinding(k, sigs[i], now)
                           && forall j :: 0 <= j < i ==> !GoodBinding(k, sigs[j], now)
  {
    hide PastBinding, GoodBinding, Revoked;
  }

  /** The order of the signatures does not matter for `valid`; for `expired` it does not matter
      under a valid primary key. */
  lemma SubkeyOrderFree(k: Info, a: seq<SubSig>, b: seq<SubSig>, now: nat, primary: Validity)
    requires multiset(a) == multiset(b)
    ensures var v, w := SubkeyValidity(k, a, now, primary), SubkeyValidity(k, b, now, primary);
            v.valid == w.valid && (primary.validated && primary.valid && !primary.expired ==> v == w)
  {
    SameMembers(a, b);
    BoundMembers(k, a, now);
    BoundMembers(k, b, now);
    RevokedMembers(k, a);
    RevokedMembers(k, b);
    PastMembers(k, a, now);
    PastMembers(k, b, now);
  }

  lemma SameMembers(a: seq<SubSig>, b: seq<SubSig>)
    requires multiset(a) == multiset(b)
    ensures forall s :: s in a <==> s in b
  {
    forall s ensures s in a <==> s in b {
      assert s in a <==> s in multiset(a);
      assert s in b <==> s in multiset(b);
    }
  }

  lemma BoundMembers(k: Info, sigs: seq<SubSig>, now: nat)
    ensures Bound(k, sigs, now) <==> exists s :: s in sigs && GoodBinding(k, s, now)
  {
  }

  lemma RevokedMembers(k: Info, sigs: seq<SubSig>)
    ensures Revoked(k, sigs) <==> exists s :: s in sigs && s.Valid() && IsRevocation(k, s)
  {
  }

  lemma PastMembers(k: Info, sigs: seq<SubSig>, now: nat)
    ensures !Bound(k, sigs, now) ==> (PastFirst(k, sigs, now) <==> exists s :: s in sigs && PastBinding(k, s, now))
  {
  }

  /** Under an expired primary key the `expired` mark does depend on the order: two bindings, one
      past and one good. */
  lemma ExpiredMarkNeedsOrder()
    ensures exists k: Info, x: SubSig, y: SubSig, now: nat, p: Validity ::
      SubkeyValidity(k, [x, y], now, p).expired && !SubkeyValidity(k, [y, x], now, p).expired
  {
    var k := Info(false, 0, 1, 1);
    var ok := Validity(true, true, false);
    var past := SubSig(Sig(1, SubkeyBinding, 1, 5, false, None, None, false), UID_NONE, ok);
    var good := SubSig(Sig(2, SubkeyBinding, 2, 0, false, None, None, false), UID_NONE, ok);
    var p := Validity(true, false, true);
    assert PastBinding(k, past, 10) && GoodBinding(k, good, 10);
    assert [past, good][0] == past && [good, past][0] == good;
    assert SubkeyValidity(k, [past, good], 10, p).expired;
    assert !SubkeyValidity(k, [good, past], 10, p).expired;
  }

  predicate SomePast(k: Info, sigs: seq<SubSig>, now: nat) {
    exists i :: 0 <= i < |sigs| && PastBinding(k, sigs[i], now)
  }

  /** Exactly when the order of the signatures does not matter: not under a primary key that is
      expired, with no revocation, and with both an expired and an unexpired valid binding. */
  lemma SubkeyOrderExact(k: Info, a: seq<SubSig>, now: nat, primary: Validity)
    ensures (forall b :: multiset(b) == multiset(a) ==>
               SubkeyValidity(k, b, now, primary) == SubkeyValidity(k, a, now, primary))
            <==> !primary.expired || Revoked(k, a) || !Bound(k, a, now) || !SomePast(k, a, now)
  {
    hide SubkeyValidity;
    if primary.expired && !Revoked(k, a) && Bound(k, a, now) && SomePast(k, a, now) {
      var i :| 0 <= i < |a| && PastBinding(k, a[i], now);
      var j :| 0 <= j < |a| && GoodBinding(k, a[j], now);
      FrontDecides(k, a, i, now, primary);
      FrontDecides(k, a, j, now, primary);
      Fronted(a, i);
      Fronted(a, j);
    } else {
      forall b | multiset(b) == multiset(a)
        ensures SubkeyValidity(k, b, now, primary) == SubkeyValidity(k, a, now, primary)
      {
        OrderFree(k, a, b, now, primary);
      }
    }
  }

  lemma OrderFree(k: Info, a: seq<SubSig>, b: seq<SubSig>, now: nat, primary: Validity)
    requires multiset(a) == multiset(b)
    requires !primary.expired || Revoked(k, a) || !Bound(k, a, now) || !SomePast(k, a, now)
    ensures SubkeyValidity(k, a, now, primary) == SubkeyValidity(k, b, now, primary)
  {
    hide Bound, Revoked, PastFirst, SomePast;
    SameMembers(a, b);
    BoundMembers(k, a, now);
    BoundMembers(k, b, now);
    RevokedMembers(k, a);
    RevokedMembers(k, b);
    PastMembers(k, a, now);
    PastMembers(k, b, now);
    SomePastMembers(k, a, now);
    SomePastMembers(k, b, now);
  }

  lemma SomePastMembers(k: Info, sigs: seq<SubSig>, now: nat)
    ensures SomePast(k, sigs, now) <==> exists s :: s in sigs && PastBinding(k, s, now)
    ensures !SomePast(k, sigs, now) ==> !PastFirst(k, sigs, now)
  {
  }

  function Front(a: seq<SubSig>, i: nat): (b: seq<SubSig>)
    requires i < |a|
  {
    [a[i]] + (a[..i] + a[i + 1..])
  }

  lemma Fronted(a: seq<SubSig>, i: nat)
    requires i < |a|
    ensures multiset(Front(a, i)) == multiset(a)
  {
    assert a == a[..i] + [a[i]] + a[i + 1..];
  }

  /** The binding put first decides about the mark. */
  lemma FrontDecides(k: Info, a: seq<SubSig>, i: nat, now: nat, primary: Validity)
    requires i < |a| && primary.expired && !Revoked(k, a)
    ensures PastBinding(k, a[i], now) ==> SubkeyValidity(k, Front(a, i), now, primary).expired
    ensures GoodBinding(k, a[i], now) ==> !SubkeyValidity(k, Front(a, i), now, primary).expired
  {
    hide PastBinding, GoodBinding, Revoked;
    var b := Front(a, i);
    Fronted(a, i);
    SameMembers(a, b);
    RevokedMembers(k, a);
    RevokedMembers(k, b);
    assert b[0] == a[i];
    BothBindings(k, a[i], now);
  }

  lemma BothBindings(k: Info, s: SubSig, now: nat)
    ensures !(PastBinding(k, s, now) && GoodBinding(k, s, now))
  {
  }

  /** expiration() of a subkey: that of the latest binding. */
  function SubkeyExpiration(k: Info, sigs: seq<SubSig>, hasPrimary: bool): nat {
    var r := Latest(k, sigs, Binding(hasPrimary));
    if r.Some? then sigs[r.value].sig.keyExpiration else 0
  }

  lemma SubkeyExpirationIs(k: Info, sigs: seq<SubSig>, hasPrimary: bool, r: Option<nat>)
    requires IsLatest(k, sigs, Binding(hasPrimary), r)
    ensures SubkeyExpiration(k, sigs, hasPrimary) == if r.Some? then sigs[r.value].sig.keyExpiration else 0
  {
    LatestIsIt(k, sigs, Binding(hasPrimary), r);
  }

  /** valid_till of a subkey under a primary key. */
  function SubkeyTill(k: Info, v: Validity, expiration: nat, revocation: Option<Sig>,
                      primaryTill: nat, primaryExpired: bool): (t: nat)
    requires k.creation + expiration <= FOREVER
    ensures t <= primaryTill
    ensures var own := ValidTill(k, v, expiration, revocation, v.expired || primaryExpired);
            t <= own && (t == own || t == primaryTill)
  {
    var own := ValidTill(k, v, expiration, revocation, v.expired || primaryExpired);
    if primaryTill < own then primaryTill else own
  }

  /** Validity asks for any unexpired binding, expiration looks at the latest one. So a valid subkey
      of a key valid now can have a valid-till in the past; it does not exactly if the latest
      valid binding has not expired either. */
  lemma SubkeyTillExact(k: Info, sigs: seq<SubSig>, now: nat, primary: Validity, primaryTill: nat)
    requires k.creation + SubkeyExpiration(k, sigs, true) <= FOREVER && now <= primaryTill && now <= FOREVER
    requires SubkeyValidity(k, sigs, now, primary).valid
    ensures var v, e := SubkeyValidity(k, sigs, now, primary), SubkeyExpiration(k, sigs, true);
            var r := Latest(k, sigs, Binding(true));
            r.Some? && (now <= SubkeyTill(k, v, e, None, primaryTill, primary.expired)
                        <==> GoodBinding(k, sigs[r.value], now))
  {
    LatestIs(k, sigs, Binding(true));
    var i :| 0 <= i < |sigs| && GoodBinding(k, sigs[i], now);
    assert Wanted(k, sigs[i], Binding(true));
  }

  /** The disagreement does happen: an old binding without expiration and a newer one long past. */
  lemma ValidSubkeyPastTill()
    ensures exists k: Info, sigs: seq<SubSig>, now: nat, p: Validity ::
      && p == Validity(true, true, false) && k.creation + SubkeyExpiration(k, sigs, true) < now
      && SubkeyExpiration(k, sigs, true) != 0 && SubkeyValidity(k, sigs, now, p).valid
  {
    var k := Info(false, 0, 1, 1);
    var ok := Validity(true, true, false);
    var old1 := SubSig(Sig(1, SubkeyBinding, 1, 0, false, None, None, false), UID_NONE, ok);
    var new2 := SubSig(Sig(2, SubkeyBinding, 2, 5, false, None, None, false), UID_NONE, ok);
    var sigs := [old1, new2];
    assert sigs[..1] == [old1] && [old1][..0] == [];
    assert Latest(k, [old1], Binding(true)) == Some(0);
    assert Latest(k, sigs, Binding(true)) == Some(1);
    assert GoodBinding(k, sigs[0], 10);
    assert Bound(k, sigs, 10) && !Revoked(k, sigs);
    assert SubkeyValidity(k, sigs, 10, ok).valid;
    assert SubkeyExpiration(k, sigs, true) == 5;
  }
}
