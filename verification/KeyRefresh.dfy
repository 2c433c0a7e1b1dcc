/** The methods of pgp_key_t that validate a key and refresh its derived fields, in place. */
module KeyRefresh {
  import opened Options
  import opened Signatures
  import opened KeyValidity

  /** Result of checking a signature, for a fixed time and key material. */
  type Check = (Sig, nat) -> Validity

  /** Signatures that validate_self_signatures checks: own ones of a primary key, bindings and
      revocations of a subkey, unless already validated. */
  predicate ToCheck(k: Info, s: SubSig) {
    && !s.validity.validated
    && (if k.primary then IsSigner(k, s) && s.sig.kind in {Direct, Cert, RevCert, RevKey}
        else s.sig.kind in {SubkeyBinding, RevSubkey})
  }

  function CheckedOne(k: Info, s: SubSig, check: Check): (r: SubSig)
    ensures r.uid == s.uid && r.sig == s.sig
  {
    if ToCheck(k, s) then s.(validity := check(s.sig, s.uid)) else s
  }

  function Checked(k: Info, sigs: seq<SubSig>, check: Check): (r: seq<SubSig>)
    ensures |r| == |sigs| && forall i :: 0 <= i < |sigs| ==> r[i] == CheckedOne(k, sigs[i], check)
  {
    seq(|sigs|, i requires 0 <= i < |sigs| => CheckedOne(k, sigs[i], check))
  }

  /** Checking again changes nothing, also for signatures the check could not validate. */
  lemma CheckedTwice(k: Info, sigs: seq<SubSig>, check: Check)
    ensures Checked(k, Checked(k, sigs, check), check) == Checked(k, sigs, check)
  {
  }

  /** Every signature after validate_self_signatures, kind by kind: a verdict that was there stays; a direct-key
      signature, certification, revocation of a certification or revocation of the key that names a primary key
      as its issuer gets the verdict of the check; so does a binding or a revocation of a subkey, whoever made
      it; any other signature stays as it was. */
  ghost predicate Verdicts(k: Info, was: seq<SubSig>, done: seq<SubSig>, check: Check) {
    && |done| == |was|
    && forall i :: 0 <= i < |was| ==>
         var s := was[i].sig;
         var own := s.keyfp == Some(k.fp) || (s.keyfp == None && s.keyid == Some(k.keyid));
         && done[i].sig == s && done[i].uid == was[i].uid
         && done[i].validity ==
            if was[i].validity.validated then was[i].validity
            else match s.kind
                 case Direct => if k.primary && own then check(s, was[i].uid) else was[i].validity
                 case Cert => if k.primary && own then check(s, was[i].uid) else was[i].validity
                 case RevCert => if k.primary && own then check(s, was[i].uid) else was[i].validity
                 case RevKey => if k.primary && own then check(s, was[i].uid) else was[i].validity
                 case SubkeyBinding => if k.primary then was[i].validity else check(s, was[i].uid)
                 case RevSubkey => if k.primary then was[i].validity else check(s, was[i].uid)
                 case Other => was[i].validity
  }

  lemma CheckedVerdicts(k: Info, sigs: seq<SubSig>, check: Check)
    ensures Verdicts(k, sigs, Checked(k, sigs, check), check)
  {
  }

  /** The first valid revocation. */
  function FirstRevocation(k: Info, sigs: seq<SubSig>): (r: Option<Sig>)
    ensures r.Some? <==> Revoked(k, sigs)
  {
    if sigs == [] then None
    else
      assert forall i :: 0 < i < |sigs| ==> sigs[i] == sigs[1..][i - 1];
      assert Revoked(k, sigs[1..]) ==> Revoked(k, sigs) by {
        if Revoked(k, sigs[1..]) {
          var i :| 0 <= i < |sigs[1..]| && sigs[1..][i].Valid() && IsRevocation(k, sigs[1..][i]);
          assert sigs[i + 1] == sigs[1..][i];
        }
      }
      if sigs[0].Valid() && IsRevocation(k, sigs[0]) then Some(sigs[0].sig) else FirstRevocation(k, sigs[1..])
  }

  lemma {:induction false} FirstRevocationIs(k: Info, sigs: seq<SubSig>, j: nat)
    requires j < |sigs| && sigs[j].Valid() && IsRevocation(k, sigs[j])
    requires forall i :: 0 <= i < j ==> !(sigs[i].Valid() && IsRevocation(k, sigs[i]))
    ensures FirstRevocation(k, sigs) == Some(sigs[j].sig)
  {
    if j > 0 {
      FirstRevocationIs(k, sigs[1..], j - 1);
    }
  }

  /** Does the latest valid binding of a subkey not expire it? */
  predicate LatestBindingGood(k: Info, sigs: seq<SubSig>, now: nat) {
    var r := Latest(k, sigs, Binding(true));
    r.Some? && !ExpiredWith(k, sigs[r.value].sig.keyExpiration, now)
  }

  /** `r` is the first valid revocation, or none if there is none. */
  ghost predicate RevokedBy(k: Info, sigs: seq<SubSig>, r: Option<Sig>) {
    match r
    case None =>
      forall i :: 0 <= i < |sigs| && sigs[i].sig.kind == (if k.primary then RevKey else RevSubkey) ==> !sigs[i].Valid()
    case Some(sig) =>
      exists j :: 0 <= j < |sigs| && sigs[j].Valid() && IsRevocation(k, sigs[j]) && sigs[j].sig == sig
                  && forall i :: 0 <= i < j ==> !(sigs[i].Valid() && IsRevocation(k, sigs[i]))
  }

  class Key {
    const info: Info
    var sigs: seq<SubSig>
    var validity: Validity
    var expiration: nat
    /** revocation_, if revoked_ */
    var revocation: Option<Sig>
    var validTill: nat

    predicate Usable()
      reads this
    {
      validity.validated && validity.valid && !validity.expired
    }

    ghost predicate Sane()
      reads this
    {
      && RealUids(sigs) && info.creation <= FOREVER
      && forall i :: 0 <= i < |sigs| ==> info.creation + sigs[i].sig.keyExpiration <= FOREVER
    }

    constructor (info: Info, sigs: seq<SubSig>)
      ensures this.info == info && this.sigs == sigs && validity == NOT_VALIDATED
    {
      this.info, this.sigs := info, sigs;
      validity, expiration, revocation, validTill := NOT_VALIDATED, 0, None, 0;
    }

    /** validate_self_signatures */
    method CheckSigs(check: Check)
      modifies `sigs
      ensures sigs == Checked(info, old(sigs), check)
      ensures Verdicts(info, old(sigs), sigs, check)
      ensures old(Sane()) ==> Sane()
    {
      hide Verdicts;
      for i := 0 to |sigs|
        invariant |sigs| == |old(sigs)|
        invariant forall j :: 0 <= j < i ==> sigs[j] == CheckedOne(info, old(sigs)[j], check)
        invariant forall j :: i <= j < |sigs| ==> sigs[j] == old(sigs)[j]
      {
        if ToCheck(info, sigs[i]) {
          sigs := sigs[i := sigs[i].(validity := check(sigs[i].sig, sigs[i].uid))];
        }
      }
      CheckedVerdicts(info, old(sigs), check);
    }

    /** Is there a valid revocation? */
    method HasRevocation() returns (r: bool)
      ensures r <==> Revoked(info, sigs)
    {
      for i := 0 to |sigs|
        invariant forall j :: 0 <= j < i ==> !(sigs[j].Valid() && IsRevocation(info, sigs[j]))
      {
        if sigs[i].Valid() && IsRevocation(info, sigs[i]) {
          return true;
        }
      }
      return false;
    }

    /** The decision of validate_primary, once the key is known not to be revoked. */
    method DecideByOwnSigs(now: nat) returns (hasCert: bool, hasExpired: bool)
      requires RealUids(sigs)
      ensures var ds := Deciding(info, sigs);
              && (hasExpired <==> SomeExpired(info, ds, now))
              && (hasCert <==> ds != [] && !SomeExpired(info, ds, now))
    {
      hide LatestSelfsig;
      hasCert, hasExpired := false, false;
      var dirsig := FindSelfsig(info, sigs, UID_NONE);
      if dirsig.Some? {
        hasExpired := ExpiredWith(info, sigs[dirsig.value].sig.keyExpiration, now);
        hasCert := !hasExpired;
      }
      ghost var ds := Deciding(info, sigs);
      var prisig := None;
      if !hasExpired {
        prisig := FindSelfsig(info, sigs, UID_PRIMARY);
        if prisig.Some? {
          hasExpired := ExpiredWith(info, sigs[prisig.value].sig.keyExpiration, now);
          hasCert := !hasExpired;
        }
      }
      if dirsig.None? && prisig.None? {
        var latest := FindSelfsig(info, sigs, UID_ANY);
        if latest.Some? {
          hasExpired := ExpiredWith(info, sigs[latest.value].sig.keyExpiration, now);
          hasCert := !hasExpired;
        }
      }
      if dirsig.Some? {
        assert ds[0] == sigs[dirsig.value];
        assert prisig.Some? ==> ds[1] == sigs[prisig.value];
      } else if prisig.Some? {
        assert ds == [sigs[prisig.value]] && ds[0] == sigs[prisig.value];
      } else if ds != [] {
        assert |ds| == 1 && ds[0] in ds;
      }
    }

    /** validate_primary; `subkeys` are the key's subkeys that are in the key store. */
    method ValidatePrimary(check: Check, now: nat, subkeys: seq<Key>)
      requires info.primary && Sane() && Subkeys(this, subkeys)
      modifies `sigs, `validity, subkeys`sigs
      ensures sigs == Checked(info, old(sigs), check) && Sane()
      ensures forall i :: 0 <= i < |subkeys| ==>
        subkeys[i].sigs in {old(subkeys[i].sigs), Checked(subkeys[i].info, old(subkeys[i].sigs), check)}
      ensures validity == PrimaryValidity(info, sigs, now,
        exists i :: 0 <= i < |subkeys| &&
          LatestBindingGood(subkeys[i].info, Checked(subkeys[i].info, old(subkeys[i].sigs), check), now))
    {
      hide Deciding, Revoked, Checked, LatestBindingGood, SomeExpired, Verdicts;
      CheckSigs(check);
      validity := Validity(true, false, false);
      var revoked := HasRevocation();
      if revoked {
        return;
      }
      var hasCert, hasExpired := DecideByOwnSigs(now);
      if hasCert {
        validity := validity.(valid := true);
        return;
      }
      if hasExpired {
        validity := validity.(expired := true);
        NoneExpired(info, Deciding(info, sigs), now);
        return;
      }
      var vouched := AskSubkeys(check, now, subkeys);
      if vouched {
        validity := validity.(valid := true);
      }
    }

    /** The fallback of validate_primary: a subkey whose latest binding is good. */
    method AskSubkeys(check: Check, now: nat, subkeys: seq<Key>) returns (vouched: bool)
      requires Subkeys(this, subkeys)
      modifies subkeys`sigs
      ensures forall i :: 0 <= i < |subkeys| ==>
        subkeys[i].sigs in {old(subkeys[i].sigs), Checked(subkeys[i].info, old(subkeys[i].sigs), check)}
      ensures vouched <==>
        exists i :: 0 <= i < |subkeys| &&
          LatestBindingGood(subkeys[i].info, Checked(subkeys[i].info, old(subkeys[i].sigs), check), now)
    {
      hide Checked, Latest, Verdicts;
      for i := 0 to |subkeys|
        invariant forall j :: i <= j < |subkeys| ==> subkeys[j].sigs == old(subkeys[j].sigs)
        invariant forall j :: 0 <= j < i ==>
          subkeys[j].sigs == Checked(subkeys[j].info, old(subkeys[j].sigs), check)
        invariant forall j :: 0 <= j < i ==>
          !LatestBindingGood(subkeys[j].info, Checked(subkeys[j].info, old(subkeys[j].sigs), check), now)
      {
        var sub := subkeys[i];
        sub.CheckSigs(check);
        var r := ScanLatest(sub.info, sub.sigs, Binding(true));
        if r.Some? && !ExpiredWith(sub.info, sub.sigs[r.value].sig.keyExpiration, now) {
          return true;
        }
      }
      return false;
    }

    /** refresh_data of a primary key */
    method RefreshPrimary(check: Check)
      requires info.primary && Sane()
      modifies `sigs, `expiration, `revocation, `validTill
      ensures sigs == Checked(info, old(sigs), check) && Sane()
      ensures expiration == PrimaryExpiration(info, sigs) && info.creation + expiration <= FOREVER
      ensures revocation == FirstRevocation(info, sigs) && RevokedBy(info, sigs, revocation)
      ensures validTill == ValidTill(info, validity, expiration, revocation, validity.expired)
    {
      hide Deciding, Revoked, Checked, FirstRevocation, ValidTill, RevokedBy, Verdicts;
      CheckSigs(check);
      RefreshExpiration();
      RefreshRevocation();
      validTill := ValidTill(info, validity, expiration, revocation, validity.expired);
    }

    method RefreshExpiration()
      requires Sane()
      modifies `expiration
      ensures expiration == PrimaryExpiration(info, sigs) && info.creation + expiration <= FOREVER
    {
      hide LatestSelfsig;
      ghost var ds := Deciding(info, sigs);
      expiration := 0;
      var dirsig := FindSelfsig(info, sigs, UID_NONE);
      if dirsig.Some? {
        expiration := sigs[dirsig.value].sig.keyExpiration;
      }
      var prisig := FindSelfsig(info, sigs, UID_PRIMARY);
      if prisig.Some? && sigs[prisig.value].sig.keyExpiration != 0
         && (expiration == 0 || sigs[prisig.value].sig.keyExpiration < expiration) {
        expiration := sigs[prisig.value].sig.keyExpiration;
      }
      var latest := FindSelfsig(info, sigs, UID_ANY);
      if dirsig.None? && prisig.None? && latest.Some? {
        expiration := sigs[latest.value].sig.keyExpiration;
      }
      LeastOfTwo(ds);
    }

    /** The first valid revocation, as refresh_revocations and refresh_data keep it. */
    method RefreshRevocation()
      modifies `revocation
      ensures revocation == FirstRevocation(info, sigs)
      ensures RevokedBy(info, sigs, revocation)
    {
      hide Revoked;
      revocation := None;
      assert sigs[0..] == sigs;
      for i := 0 to |sigs|
        invariant revocation.None? && FirstRevocation(info, sigs[i..]) == FirstRevocation(info, sigs)
        invariant forall j :: 0 <= j < i ==> !(sigs[j].Valid() && IsRevocation(info, sigs[j]))
      {
        assert sigs[i..][1..] == sigs[i + 1..];
        if sigs[i].Valid() && IsRevocation(info, sigs[i]) {
          revocation := Some(sigs[i].sig);
          return;
        }
      }
    }

    /** validate_subkey */
    method ValidateSubkey(primary: Key?, check: Check, now: nat)
      requires !info.primary && Sane()
      modifies `sigs, `validity
      ensures Sane() && sigs in {old(sigs), Checked(info, old(sigs), check)}
      ensures primary == null ==> validity == Validity(true, false, false)
      ensures primary != null && primary != this ==>
        && validity == SubkeyValidity(info, sigs, now, primary.validity)
        && (primary.Usable() || primary.validity.expired ==> sigs == Checked(info, old(sigs), check))
    {
      hide Checked, PastFirst, Revoked, Verdicts;
      validity := Validity(true, false, false);
      if primary == null || (!primary.Usable() && !primary.validity.expired) {
        return;
      }
      CheckSigs(check);
      var revoked, hasBinding, hasExpired := ScanBindings(now);
      if !revoked {
        var ok := hasBinding && primary.Usable();
        validity := Validity(true, ok, !ok && hasExpired);
      }
    }

    /** The loop over the signatures of a subkey; a revocation ends it. */
    method ScanBindings(now: nat) returns (revoked: bool, hasBinding: bool, hasExpired: bool)
      ensures revoked <==> Revoked(info, sigs)
      ensures !revoked ==> (hasBinding <==> exists i :: 0 <= i < |sigs| && GoodBinding(info, sigs[i], now))
      ensures !revoked ==> (hasExpired <==> PastFirst(info, sigs, now))
    {
      hasBinding, hasExpired := false, false;
      for i := 0 to |sigs|
        invariant hasBinding <==> exists j :: 0 <= j < i && GoodBinding(info, sigs[j], now)
        invariant hasExpired <==> PastFirst(info, sigs[..i], now)
        invariant forall j :: 0 <= j < i ==> !(sigs[j].Valid() && IsRevocation(info, sigs[j]))
      {
        var s := sigs[i];
        PastFirstNext(info, sigs, i, now);
        if s.Valid() {
          if IsBinding(info, s) && !hasBinding {
            if ExpiredWith(info, s.sig.keyExpiration, now) {
              hasExpired := true;
            } else {
              hasBinding := true;
            }
          } else if IsRevocation(info, s) {
            return true, hasBinding, hasExpired;
          }
        }
      }
      assert sigs[..|sigs|] == sigs;
      revoked := false;
    }

    /** refresh_data of a subkey */
    method RefreshSubkey(primary: Key?, check: Check)
      requires !info.primary && Sane() && primary != this
      modifies `sigs, `expiration, `revocation, `validTill
      ensures Sane() && sigs == if primary != null then Checked(info, old(sigs), check) else old(sigs)
      ensures expiration == SubkeyExpiration(info, sigs, primary != null) && info.creation + expiration <= FOREVER
      ensures revocation == FirstRevocation(info, sigs) && RevokedBy(info, sigs, revocation)
      ensures primary != null ==>
        validTill == SubkeyTill(info, validity, expiration, revocation, primary.validTill, primary.validity.expired)
        && validTill <= primary.validTill
      ensures primary == null ==> validTill == ValidTill(info, validity, expiration, revocation, validity.expired)
    {
      hide Checked, Latest, FirstRevocation, ValidTill, RevokedBy, Verdicts;
      if primary != null {
        CheckSigs(check);
      }
      var r := ScanLatest(info, sigs, Binding(primary != null));
      expiration := if r.Some? then sigs[r.value].sig.keyExpiration else 0;
      RefreshRevocation();
      if primary != null {
        var own := ValidTill(info, validity, expiration, revocation, validity.expired || primary.validity.expired);
        validTill := if primary.validTill < own then primary.validTill else own;
      } else {
        validTill := ValidTill(info, validity, expiration, revocation, validity.expired);
      }
    }
  }

  /** revalidate, for a primary key: it and then all its stored subkeys. */
  method Revalidate(key: Key, check: Check, now: nat, subkeys: seq<Key>)
    requires key.info.primary && key.Sane() && Subkeys(key, subkeys) && now <= FOREVER
    requires forall i :: 0 <= i < |subkeys| ==> subkeys[i].Sane()
    modifies key, subkeys
    ensures key.sigs == Checked(key.info, old(key.sigs), check)
    ensures Verdicts(key.info, old(key.sigs), key.sigs, check)
    ensures key.expiration == PrimaryExpiration(key.info, key.sigs)
    ensures !Revoked(key.info, key.sigs) && Deciding(key.info, key.sigs) != [] ==>
      && (key.Usable() <==> key.expiration == 0 || key.info.creation + key.expiration >= now)
      && (key.Usable() ==> now <= key.validTill)
      && (key.validity.expired ==> key.validTill < now)
      && key.validTill == EndOfLife(key.info, key.expiration)
    ensures Revoked(key.info, key.sigs) ==> !key.Usable() && key.revocation.Some?
    ensures RevokedBy(key.info, key.sigs, key.revocation)
    ensures key.revocation.Some? ==>
      key.validTill == RevokedEnd(key.info, key.expiration, key.revocation.value)
    ensures (exists i :: 0 <= i < |old(key.sigs)| && FoundRevoking(key.info, old(key.sigs)[i], check)) ==>
      !key.Usable() && key.revocation.Some?
    ensures forall i :: 0 <= i < |subkeys| ==> SubkeySettled(subkeys[i], key, now)
    ensures forall i :: 0 <= i < |subkeys| ==>
      Verdicts(subkeys[i].info, old(subkeys[i].sigs), subkeys[i].sigs, check)
  {
    hide Deciding, Revoked, Checked, PrimaryValidity, ValidTill, FirstRevocation, LatestBindingGood;
    hide Verdicts, RevokedBy, FoundRevoking, SubkeySettled;
    ghost var all := SigsOf(subkeys);
    key.ValidatePrimary(check, now, subkeys);
    CheckedTwice(key.info, old(key.sigs), check);
    ghost var bound :=
      (exists i :: 0 <= i < |subkeys| &&
         LatestBindingGood(subkeys[i].info, Checked(subkeys[i].info, old(subkeys[i].sigs), check), now));
    key.RefreshPrimary(check);
    PrimarySettled(key.info, key.sigs, now, bound);
    CheckedVerdicts(key.info, old(key.sigs), check);
    FoundRevokes(key.info, old(key.sigs), check);
    SettleSubkeys(subkeys, key, check, now, all);
  }

  /** An own revocation of the key that was not validated and that the check finds valid. */
  predicate FoundRevoking(k: Info, s: SubSig, check: Check) {
    && s.sig.kind == RevKey && !s.validity.validated
    && (s.sig.keyfp == Some(k.fp) || (s.sig.keyfp == None && s.sig.keyid == Some(k.keyid)))
    && check(s.sig, s.uid) == Validity(true, true, false)
  }

  lemma FoundRevokes(k: Info, sigs: seq<SubSig>, check: Check)
    requires k.primary
    ensures (exists i :: 0 <= i < |sigs| && FoundRevoking(k, sigs[i], check)) ==> Revoked(k, Checked(k, sigs, check))
  {
    if i :| 0 <= i < |sigs| && FoundRevoking(k, sigs[i], check) {
      var s := Checked(k, sigs, check)[i];
      assert s == CheckedOne(k, sigs[i], check);
      assert s.Valid() && IsRevocation(k, s);
    }
  }

  ghost function SigsOf(keys: seq<Key>): (r: seq<seq<SubSig>>)
    reads keys
    ensures |r| == |keys| && forall i :: 0 <= i < |keys| ==> r[i] == keys[i].sigs
  {
    if keys == [] then [] else [keys[0].sigs] + SigsOf(keys[1..])
  }

  method SettleSubkeys(subkeys: seq<Key>, key: Key, check: Check, now: nat, ghost all: seq<seq<SubSig>>)
    requires Subkeys(key, subkeys) && |all| == |subkeys|
    requires forall i :: 0 <= i < |subkeys| ==>
      && subkeys[i].Sane()
      && subkeys[i].sigs in {all[i], Checked(subkeys[i].info, all[i], check)}
    modifies subkeys
    ensures forall i :: 0 <= i < |subkeys| ==> SubkeySettled(subkeys[i], key, now)
    ensures forall i :: 0 <= i < |subkeys| ==> Verdicts(subkeys[i].info, all[i], subkeys[i].sigs, check)
  {
    hide SubkeySettled, Verdicts, Checked;
    for i := 0 to |subkeys|
      invariant forall j :: i <= j < |subkeys| ==>
        && subkeys[j].Sane()
        && subkeys[j].sigs in {all[j], Checked(subkeys[j].info, all[j], check)}
      invariant forall j :: 0 <= j < i ==> SubkeySettled(subkeys[j], key, now)
      invariant forall j :: 0 <= j < i ==> Verdicts(subkeys[j].info, all[j], subkeys[j].sigs, check)
    {
      SettleSubkey(subkeys[i], key, check, now, all[i]);
    }
  }

  method SettleSubkey(sub: Key, key: Key, check: Check, now: nat, ghost orig: seq<SubSig>)
    requires !sub.info.primary && sub.Sane() && sub != key
    requires sub.sigs in {orig, Checked(sub.info, orig, check)}
    modifies sub
    ensures sub.Sane() && SubkeySettled(sub, key, now) && Verdicts(sub.info, orig, sub.sigs, check)
  {
    hide Revoked, Checked, FirstRevocation, ValidTill, Bound, PastFirst, Verdicts, RevokedBy;
    sub.ValidateSubkey(key, check, now);
    CheckedTwice(sub.info, orig, check);
    SubkeyValidExactly(sub.info, sub.sigs, now, key.validity);
    sub.RefreshSubkey(key, check);
    CheckedVerdicts(sub.info, orig, check);
  }

  /** How long a revoked key is trusted: up to the revocation or the expiration, whichever comes first; not at
      all if it was compromised, or revoked no later than it was made. */
  function RevokedEnd(k: Info, expiration: nat, r: Sig): nat {
    var end := EndOfLife(k, expiration);
    if r.compromised || r.creation <= k.creation then 0 else if r.creation <= end then r.creation else end
  }

  /** What the two functions of the primary key come to. */
  lemma PrimarySettled(k: Info, sigs: seq<SubSig>, now: nat, bound: bool)
    requires k.creation + PrimaryExpiration(k, sigs) <= FOREVER && now <= FOREVER
    ensures var v, e := PrimaryValidity(k, sigs, now, bound), PrimaryExpiration(k, sigs);
            var till := ValidTill(k, v, e, FirstRevocation(k, sigs), v.expired);
            && (Revoked(k, sigs) ==> !v.valid)
            && (FirstRevocation(k, sigs).Some? ==> till == RevokedEnd(k, e, FirstRevocation(k, sigs).value))
            && (!Revoked(k, sigs) && Deciding(k, sigs) != [] ==>
                  && v.validated && (v.valid ==> !v.expired)
                  && (v.valid <==> e == 0 || k.creation + e >= now)
                  && (v.valid ==> now <= till)
                  && (v.expired ==> till < now)
                  && till == EndOfLife(k, e))
  {
    hide Deciding, ValidTill;
    if !Revoked(k, sigs) {
      assert FirstRevocation(k, sigs) == None;
      if Deciding(k, sigs) != [] {
        ExpiryAgreement(k, sigs, now, bound);
      }
    } else {
      var v := PrimaryValidity(k, sigs, now, bound);
      RevokedTill(k, sigs, now, bound, FirstRevocation(k, sigs).value, v.expired);
    }
  }

  /** A subkey after the primary key's revalidate. */
  ghost predicate SubkeySettled(sub: Key, key: Key, now: nat)
    reads sub, key
  {
    && sub.validTill <= key.validTill
    && RevokedBy(sub.info, sub.sigs, sub.revocation)
    && (sub.Usable() <==> key.Usable() && Bound(sub.info, sub.sigs, now) && !Revoked(sub.info, sub.sigs))
  }

  ghost predicate Subkeys(k: Key, subkeys: seq<Key>) {
    && k !in subkeys
    && (forall i :: 0 <= i < |subkeys| ==> !subkeys[i].info.primary)
    && (forall i, j :: 0 <= i < j < |subkeys| ==> subkeys[i] != subkeys[j])
  }

  lemma NoneExpired(k: Info, ds: seq<SubSig>, now: nat)
    requires SomeExpired(k, ds, now)
    ensures ds != []
  {
  }

  lemma LeastOfTwo(ds: seq<SubSig>)
    requires |ds| <= 2
    ensures |ds| == 0 ==> LeastExpiration(ds) == 0
    ensures |ds| == 1 ==> LeastExpiration(ds) == ds[0].sig.keyExpiration
    ensures |ds| == 2 ==> var a, b := ds[0].sig.keyExpiration, ds[1].sig.keyExpiration;
                          LeastExpiration(ds) == if b != 0 && (a == 0 || b < a) then b else a
  {
    hide LeastExpiration;
  }

  lemma PastFirstNext(k: Info, sigs: seq<SubSig>, i: nat, now: nat)
    requires i < |sigs|
    ensures PastFirst(k, sigs[..i + 1], now) <==>
            PastFirst(k, sigs[..i], now)
            || (PastBinding(k, sigs[i], now) && !exists j :: 0 <= j < i && GoodBinding(k, sigs[j], now))
  {
    hide GoodBinding, PastBinding;
    var a, b := sigs[..i], sigs[..i + 1];
    assert forall j :: 0 <= j < i ==> a[j] == sigs[j] && b[j] == sigs[j];
    assert b[i] == sigs[i];
    if PastFirst(k, a, now) {
      var j :| 0 <= j < |a| && PastBinding(k, a[j], now) && forall q :: 0 <= q < j ==> !GoodBinding(k, a[q], now);
      assert PastBinding(k, b[j], now) && forall q :: 0 <= q < j ==> !GoodBinding(k, b[q], now);
    }
    if PastFirst(k, b, now) {
      var j :| 0 <= j < |b| && PastBinding(k, b[j], now) && forall q :: 0 <= q < j ==> !GoodBinding(k, b[q], now);
      if j < i {
        assert PastBinding(k, a[j], now) && forall q :: 0 <= q < j ==> !GoodBinding(k, a[q], now);
      } else {
        assert forall q :: 0 <= q < i ==> !GoodBinding(k, sigs[q], now);
      }
    }
  }
}
