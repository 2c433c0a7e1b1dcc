/** The key store: a list of keys, an index by fingerprint, and links between primary keys and
    subkeys in both directions. */
module KeyStore {
  import opened Options
  import opened Signatures
  import L = KeyLayout
  import M = KeyMerge

  /** A key to be added; the store keeps a copy. */
  datatype Source = Source(fp: Fp, keyid: KeyId, grip: nat, primary: bool, secret: bool, layout: L.Layout,
                           primaryFp: Option<Fp>, subkeyFps: seq<Fp>)

  datatype ImportStatus = New | Updated | Unchanged

  datatype Search = ByFp(fp: Fp) | ByKeyId(keyid: KeyId) | ByGrip(grip: nat)

  class StoredKey {
    const fp: Fp
    const keyid: KeyId
    const grip: nat
    const primary: bool
    var secret: bool
    var layout: L.Layout
    var primaryFp: Option<Fp>
    var subkeyFps: seq<Fp>

    constructor (s: Source)
      ensures fp == s.fp && keyid == s.keyid && grip == s.grip && primary == s.primary
      ensures secret == s.secret && layout == s.layout && primaryFp == s.primaryFp && subkeyFps == s.subkeyFps
    {
      fp, keyid, grip, primary := s.fp, s.keyid, s.grip, s.primary;
      secret, layout, primaryFp, subkeyFps := s.secret, s.layout, s.primaryFp, s.subkeyFps;
    }

    /** The key's present state, as a value. */
    function Get(): Source
      reads this
    {
      Source(fp, keyid, grip, primary, secret, layout, primaryFp, subkeyFps)
    }

    /** add_subkey_fp */
    method AddSubkeyFp(f: Fp)
      modifies `subkeyFps
      ensures subkeyFps == Listed(old(subkeyFps), f)
    {
      if f !in subkeyFps {
        subkeyFps := subkeyFps + [f];
      }
    }

    /** remove_subkey_fp */
    method RemoveSubkeyFp(f: Fp)
      modifies `subkeyFps
      ensures subkeyFps == Unlisted(old(subkeyFps), f)
    {
      var i := 0;
      ghost var was := subkeyFps;
      while i < |subkeyFps| && subkeyFps[i] != f
        invariant i <= |subkeyFps| && subkeyFps == was && Unlisted(was, f) == was[..i] + Unlisted(was[i..], f)
      {
        assert was[i..][1..] == was[i + 1..];
        assert was[..i] + ([was[i]] + Unlisted(was[i + 1..], f)) == was[..i + 1] + Unlisted(was[i + 1..], f);
        i := i + 1;
      }
      assert was[i..] == [] || was[i..][1..] == was[i + 1..];
      if i < |subkeyFps| {
        subkeyFps := subkeyFps[..i] + subkeyFps[i + 1..];
      }
    }

    /** link_subkey_fp */
    method LinkSubkey(sub: StoredKey)
      requires primary && !sub.primary
      modifies `subkeyFps, sub`primaryFp
      ensures sub.primaryFp == Some(fp)
      ensures subkeyFps == Listed(old(subkeyFps), sub.fp)
    {
      sub.primaryFp := Some(fp);
      AddSubkeyFp(sub.fp);
    }
  }

  ghost function Snaps(keys: seq<StoredKey>): (r: seq<Source>)
    reads keys
    ensures |r| == |keys| && forall i :: 0 <= i < |keys| ==> r[i] == keys[i].Get()
  {
    if keys == [] then [] else [keys[0].Get()] + Snaps(keys[1..])
  }

  function Listed(s: seq<Fp>, f: Fp): (r: seq<Fp>)
    ensures s <= r && forall g :: g in r <==> g in s || g == f
  {
    if f in s then s else s + [f]
  }

  function FpSet(s: seq<Fp>): set<Fp> {
    set f | f in s
  }

  function ListedAll(s: seq<Fp>, fs: seq<Fp>): (r: seq<Fp>)
    ensures s <= r && forall g :: g in r <==> g in s || g in fs
    decreases |fs|
  {
    if fs == [] then s else ListedAll(Listed(s, fs[0]), fs[1..])
  }

  /** Without the first occurrence of `f`. */
  function Unlisted(s: seq<Fp>, f: Fp): (r: seq<Fp>)
    ensures forall g :: g in r ==> g in s
    ensures forall g :: g in s && g != f ==> g in r
  {
    if s == [] then [] else if s[0] == f then s[1..] else [s[0]] + Unlisted(s[1..], f)
  }

  lemma {:induction false} UnlistedIs(s: seq<Fp>, f: Fp, i: nat)
    requires i <= |s| && (forall j :: 0 <= j < i ==> s[j] != f) && (i < |s| ==> s[i] == f)
    ensures Unlisted(s, f) == if i < |s| then s[..i] + s[i + 1..] else s
  {
    if i > 0 {
      var t := s[1..];
      UnlistedIs(t, f, i - 1);
      assert s == [s[0]] + t;
      if i < |s| {
        assert [s[0]] + (t[..i - 1] + t[i..]) == s[..i] + s[i + 1..];
      }
    }
  }

  predicate Matches(k: StoredKey, s: Search) {
    match s
    case ByFp(fp) => k.fp == fp
    case ByKeyId(keyid) => k.keyid == keyid || keyid == 0
    case ByGrip(grip) => k.grip == grip
  }

  /** Position of the first key from `from` on that matches, or the number of keys. */
  ghost function FirstMatch(keys: seq<StoredKey>, s: Search, from: nat): (i: nat)
    requires from <= |keys|
    ensures from <= i <= |keys| && (i < |keys| ==> Matches(keys[i], s))
    ensures forall j :: from <= j < i ==> !Matches(keys[j], s)
    decreases |keys| - from
  {
    if from == |keys| || Matches(keys[from], s) then from else FirstMatch(keys, s, from + 1)
  }

  /** What is found has what was asked for, and nothing before it has; the zero key id asks for any key. */
  lemma FirstMatchHas(keys: seq<StoredKey>, s: Search, from: nat)
    requires from <= |keys|
    ensures var i := FirstMatch(keys, s, from);
            match s
            case ByFp(fp) => (i < |keys| ==> keys[i].fp == fp) && forall j :: from <= j < i ==> keys[j].fp != fp
            case ByKeyId(id) =>
              && (i < |keys| ==> id == 0 || keys[i].keyid == id)
              && (from < i ==> id != 0) && forall j :: from <= j < i ==> keys[j].keyid != id
            case ByGrip(grip) =>
              (i < |keys| ==> keys[i].grip == grip) && forall j :: from <= j < i ==> keys[j].grip != grip
  {
    hide FirstMatch;
    assert from < FirstMatch(keys, s, from) ==> !Matches(keys[from], s);
  }

  /** The matching keys, in list order. */
  ghost function MatchesFrom(keys: seq<StoredKey>, s: Search, from: nat): (r: seq<StoredKey>)
    requires from <= |keys|
    decreases |keys| - from
  {
    if from == |keys| then []
    else (if Matches(keys[from], s) then [keys[from]] else []) + MatchesFrom(keys, s, from + 1)
  }

  lemma {:induction false} MatchesFromFirst(keys: seq<StoredKey>, s: Search, from: nat)
    requires from <= |keys|
    ensures MatchesFrom(keys, s, from) == MatchesFrom(keys, s, FirstMatch(keys, s, from))
    decreases |keys| - from
  {
    hide Matches;
    if from < |keys| && !Matches(keys[from], s) {
      MatchesFromFirst(keys, s, from + 1);
    }
  }

  lemma {:induction false} MatchesFromHere(keys: seq<StoredKey>, s: Search, from: nat)
    requires from < |keys| && Matches(keys[from], s)
    ensures MatchesFrom(keys, s, from) == [keys[from]] + MatchesFrom(keys, s, from + 1)
  {
    hide Matches;
  }

  lemma MatchesFromEnd(keys: seq<StoredKey>, s: Search)
    ensures MatchesFrom(keys, s, |keys|) == []
  {
  }

  /** The keys whose fingerprints are not in `gone`, in list order. */
  function Survivors(keys: seq<StoredKey>, gone: set<Fp>): (r: seq<StoredKey>)
    ensures forall q :: q in r ==> q in keys && q.fp !in gone
    ensures forall q :: q in keys && q.fp !in gone ==> q in r
  {
    if keys == [] then []
    else if keys[0].fp in gone then Survivors(keys[1..], gone)
    else [keys[0]] + Survivors(keys[1..], gone)
  }

  lemma {:induction false} SurvivorsTwice(keys: seq<StoredKey>, a: set<Fp>, b: set<Fp>)
    ensures Survivors(Survivors(keys, a), b) == Survivors(keys, a + b)
  {
    if keys != [] {
      SurvivorsTwice(keys[1..], a, b);
      var rest := Survivors(keys[1..], a);
      assert ([keys[0]] + rest)[1..] == rest;
    }
  }

  lemma {:induction false} SurvivorsAll(keys: seq<StoredKey>, gone: set<Fp>)
    requires forall q :: q in keys ==> q.fp !in gone
    ensures Survivors(keys, gone) == keys
  {
    if keys != [] {
      assert keys[0] in keys;
      assert forall q :: q in keys[1..] ==> q in keys;
      SurvivorsAll(keys[1..], gone);
    }
  }

  lemma {:induction false} SurvivorsAppend(a: seq<StoredKey>, b: seq<StoredKey>, gone: set<Fp>)
    ensures Survivors(a + b, gone) == Survivors(a, gone) + Survivors(b, gone)
  {
    if a == [] {
      assert a + b == b;
    } else {
      assert (a + b)[1..] == a[1..] + b;
      SurvivorsAppend(a[1..], b, gone);
    }
  }

  /** Erasing one key of a list with distinct fingerprints. */
  lemma {:induction false} SurvivorsErase(keys: seq<StoredKey>, i: nat)
    requires Distinct(keys) && i < |keys|
    ensures Survivors(keys, {keys[i].fp}) == keys[..i] + keys[i + 1..]
  {
    hide Survivors, Distinct;
    var a, k, b := keys[..i], keys[i], keys[i + 1..];
    OthersDiffer(keys, i);
    SurvivorsNone(k);
    assert keys == a + [k] + b;
    SurvivorsAppend(a + [k], b, {k.fp});
    SurvivorsAppend(a, [k], {k.fp});
    SurvivorsAll(a, {k.fp});
    SurvivorsAll(b, {k.fp});
  }

  lemma OthersDiffer(keys: seq<StoredKey>, i: nat)
    requires Distinct(keys) && i < |keys|
    ensures forall q :: q in keys[..i] || q in keys[i + 1..] ==> q.fp != keys[i].fp
  {
  }

  lemma SurvivorsNone(k: StoredKey)
    ensures Survivors([k], {k.fp}) == []
  {
    assert [k][1..] == [];
  }

  predicate Distinct(keys: seq<StoredKey>) {
    forall i, j :: 0 <= i < j < |keys| ==> keys[i].fp != keys[j].fp
  }

  lemma DistinctAnd(keys: seq<StoredKey>, k: StoredKey)
    requires Distinct(keys) && forall q :: q in keys ==> q.fp != k.fp
    ensures Distinct(keys + [k])
  {
    forall i | 0 <= i < |keys|
      ensures keys[i].fp != k.fp
    {
      assert keys[i] in keys;
    }
  }

  ghost function At(keys: seq<StoredKey>, i: nat): (k: StoredKey?) {
    if i < |keys| then keys[i] else null
  }

  /** get_signer in the store: by issuer fingerprint if there is one, else by issuer key id. */
  ghost function Signer(keys: seq<StoredKey>, sig: Sig): (k: StoredKey?)
    ensures k != null ==> k in keys
  {
    if sig.keyfp.Some? then At(keys, FirstMatch(keys, ByFp(sig.keyfp.value), 0))
    else if sig.keyid.Some? then At(keys, FirstMatch(keys, ByKeyId(sig.keyid.value), 0))
    else null
  }

  /** The primary key that signed one of the bindings from position `i` on, first found. */
  ghost function BindingSigner(keys: seq<StoredKey>, l: L.Layout, i: nat): (k: StoredKey?)
    requires i <= |l.sigs|
    ensures k != null ==> k in keys && k.primary
    decreases |l.sigs| - i
  {
    if i == |l.sigs| then null
    else if l.sigs[i] !in l.subs then BindingSigner(keys, l, i + 1)
    else
      var sig := l.subs[l.sigs[i]].sig;
      var k := Signer(keys, sig);
      if sig.kind == SubkeyBinding && k != null && k.primary then k else BindingSigner(keys, l, i + 1)
  }

  // ----- Who made a binding -----

  /** The signature names this key as its issuer: by fingerprint if it gives one, else by key id. The zero key
      id names every key. */
  predicate IssuedBy(k: StoredKey, sig: Sig) {
    if sig.keyfp.Some? then sig.keyfp.value == k.fp else sig.keyid == Some(k.keyid) || sig.keyid == Some(0)
  }

  predicate FirstIssuer(keys: seq<StoredKey>, p: nat, sig: Sig)
    requires p < |keys|
  {
    IssuedBy(keys[p], sig) && forall q :: 0 <= q < p ==> !IssuedBy(keys[q], sig)
  }

  /** Signature `i` is a binding, and the first key of the list that it names is the primary key at `p`. */
  predicate BindsAt(keys: seq<StoredKey>, l: L.Layout, i: nat, p: nat)
    requires i < |l.sigs| && p < |keys|
  {
    && l.sigs[i] in l.subs && l.subs[l.sigs[i]].sig.kind == SubkeyBinding
    && keys[p].primary && FirstIssuer(keys, p, l.subs[l.sigs[i]].sig)
  }

  /** `k` is the primary key that the first such binding leads to; null if no binding leads to one. */
  ghost predicate FirstBinder(keys: seq<StoredKey>, l: L.Layout, from: nat, k: StoredKey?) {
    if k == null then forall i, p :: from <= i < |l.sigs| && 0 <= p < |keys| ==> !BindsAt(keys, l, i, p)
    else exists i, p ::
      && from <= i < |l.sigs| && 0 <= p < |keys| && keys[p] == k && BindsAt(keys, l, i, p)
      && forall j, q :: from <= j < i && 0 <= q < |keys| ==> !BindsAt(keys, l, j, q)
  }

  ghost predicate FoundPrimary(keys: seq<StoredKey>, primaryFp: Option<Fp>, l: L.Layout, k: StoredKey?) {
    && (primaryFp.None? ==> FirstBinder(keys, l, 0, k))
    && (primaryFp.Some? ==>
          && (k == null <==> forall q :: q in keys && q.primary ==> q.fp != primaryFp.value)
          && (k != null ==> k in keys && k.primary && k.fp == primaryFp.value))
  }

  lemma FirstBinderUnique(keys: seq<StoredKey>, l: L.Layout, a: StoredKey?, b: StoredKey?)
    requires FirstBinder(keys, l, 0, a) && FirstBinder(keys, l, 0, b)
    ensures a == b
  {
    hide IssuedBy;
  }

  /** The signer found is the first key of the list that the signature names. */
  lemma SignerIs(keys: seq<StoredKey>, sig: Sig)
    ensures var k := Signer(keys, sig);
            && (k == null <==> forall p :: 0 <= p < |keys| ==> !IssuedBy(keys[p], sig))
            && (k != null ==> exists p :: 0 <= p < |keys| && keys[p] == k && FirstIssuer(keys, p, sig))
  {
    hide FirstMatch;
    var k := Signer(keys, sig);
    if sig.keyfp.Some? || sig.keyid.Some? {
      var s := if sig.keyfp.Some? then ByFp(sig.keyfp.value) else ByKeyId(sig.keyid.value);
      var p := FirstMatch(keys, s, 0);
      assert forall q :: 0 <= q < |keys| ==> (Matches(keys[q], s) <==> IssuedBy(keys[q], sig));
      assert k == At(keys, p);
      if p < |keys| {
        assert FirstIssuer(keys, p, sig);
      }
    }
  }

  lemma {:induction false} BinderFrom(keys: seq<StoredKey>, l: L.Layout, from: nat)
    requires from <= |l.sigs|
    ensures FirstBinder(keys, l, from, BindingSigner(keys, l, from))
    decreases |l.sigs| - from
  {
    hide IssuedBy, FirstBinder, Signer;
    if from == |l.sigs| {
      NoBinders(keys, l);
    } else {
      BinderFrom(keys, l, from + 1);
      if l.sigs[from] in l.subs {
        SignerIs(keys, l.subs[l.sigs[from]].sig);
      }
      BinderHere(keys, l, from, BindingSigner(keys, l, from), BindingSigner(keys, l, from + 1));
    }
  }

  lemma NoBinders(keys: seq<StoredKey>, l: L.Layout)
    ensures FirstBinder(keys, l, |l.sigs|, null)
  {
  }

  lemma BinderHere(keys: seq<StoredKey>, l: L.Layout, i: nat, k: StoredKey?, next: StoredKey?)
    requires i < |l.sigs| && FirstBinder(keys, l, i + 1, next)
    requires (exists p :: 0 <= p < |keys| && keys[p] == k && BindsAt(keys, l, i, p))
             || (k == next && forall p :: 0 <= p < |keys| ==> !BindsAt(keys, l, i, p))
    ensures FirstBinder(keys, l, i, k)
  {
    hide BindsAt;
    if p :| 0 <= p < |keys| && keys[p] == k && BindsAt(keys, l, i, p) {
    } else if k != null {
      var j, p :| i + 1 <= j < |l.sigs| && 0 <= p < |keys| && keys[p] == k && BindsAt(keys, l, j, p)
                  && forall h, q :: i + 1 <= h < j && 0 <= q < |keys| ==> !BindsAt(keys, l, h, q);
      assert forall h, q :: i <= h < j && 0 <= q < |keys| ==> !BindsAt(keys, l, h, q);
    }
  }

  class KeyStore {
    var keys: seq<StoredKey>
    var keybyfp: map<Fp, StoredKey>
    /** Which fingerprints belong to primary keys: none is used for both kinds. */
    ghost const kind: Fp -> bool

    // ----- Invariant -----

    /** The index is a bijection with the list. */
    ghost predicate Indexed()
      reads this
    {
      && Distinct(keys)
      && (forall k :: k in keys ==> k.fp in keybyfp && keybyfp[k.fp] == k)
      && (forall f :: f in keybyfp ==> keybyfp[f] in keys && keybyfp[f].fp == f)
    }

    ghost predicate Typed()
      reads this, keys
    {
      forall k :: k in keys ==> TypedKey(k)
    }

    ghost predicate TypedKey(k: StoredKey)
      reads k
    {
      && k.primary == kind(k.fp)
      && (forall f :: f in k.subkeyFps ==> !kind(f))
      && (k.primaryFp.Some? ==> kind(k.primaryFp.value))
      && L.Good(k.layout)
    }

    /** Every stored subkey that records a primary key has it in the store, and is listed there. */
    ghost predicate Linked()
      reads this, keys
    {
      LinkedBut(null)
    }

    ghost predicate LinkedBut(x: StoredKey?)
      reads this, keys
    {
      forall k :: k in keys && k != x ==> LinkedKey(k)
    }

    ghost predicate LinkedKey(k: StoredKey)
      reads this, keys, k
    {
      !k.primary && k.primaryFp.Some? ==>
        && k.primaryFp.value in keybyfp
        && var primary := keybyfp[k.primaryFp.value];
           primary in keys && k.fp in primary.subkeyFps
    }

    ghost predicate Valid()
      reads this, keys
    {
      Indexed() && Typed() && Linked()
    }

    constructor (ghost kind: Fp -> bool)
      ensures Valid() && keys == [] && this.kind == kind
    {
      keys, keybyfp, this.kind := [], map[], kind;
    }

    /** clear */
    method Clear()
      modifies `keys, `keybyfp
      ensures Valid() && keys == []
    {
      keys, keybyfp := [], map[];
    }

    /** get_key */
    method GetKey(fp: Fp) returns (k: StoredKey?)
      requires Indexed()
      ensures k == null <==> forall q :: q in keys ==> q.fp != fp
      ensures k != null ==> k in keys && k.fp == fp && fp in keybyfp && keybyfp[fp] == k
      ensures k == null ==> fp !in keybyfp
    {
      k := if fp in keybyfp then keybyfp[fp] else null;
    }

    // ----- Searching -----

    /** search */
    method FindKey(s: Search, after: StoredKey?) returns (k: StoredKey?)
      requires Indexed()
      ensures after == null ==> k == At(keys, FirstMatch(keys, s, 0))
      ensures after != null && after !in keys ==> k == null
      ensures after != null && !s.ByFp? ==>
        forall j {:trigger keys[j]} :: 0 <= j < |keys| && keys[j] == after ==> k == At(keys, FirstMatch(keys, s, j + 1))
      ensures after != null && s.ByFp? ==> k == null
    {
      hide FirstMatch, Matches;
      if s.ByFp? {
        var key := GetKey(s.fp);
        if after != null {
          return null;
        }
        FpMatch(s);
        return key;
      }
      hide Indexed;
      var i := 0;
      if after != null {
        while i < |keys| && keys[i] != after
          invariant i <= |keys| && after !in keys[..i]
        {
          i := i + 1;
        }
        if i == |keys| {
          return null;
        }
        i := i + 1;
      }
      k := FindFrom(s, i);
    }

    method FindFrom(s: Search, from: nat) returns (k: StoredKey?)
      requires from <= |keys|
      ensures k == At(keys, FirstMatch(keys, s, from))
    {
      hide Matches;
      var i := from;
      while i < |keys| && !Matches(keys[i], s)
        invariant from <= i <= |keys|
        invariant FirstMatch(keys, s, i) == FirstMatch(keys, s, from)
      {
        i := i + 1;
      }
      k := if i < |keys| then keys[i] else null;
    }

    /** Searching on from a match gives the next one; for a fingerprint there is none. */
    method FindNext(s: Search, k: StoredKey, ghost pos: nat) returns (next: StoredKey?)
      requires Indexed() && pos < |keys| && keys[pos] == k && Matches(k, s)
      ensures next == At(keys, FirstMatch(keys, s, pos + 1))
    {
      hide FirstMatch;
      next := FindKey(s, k);
      if s.ByFp? {
        OnlyOne(keys, s, pos);
      }
    }

    /** The index finds what a scan for a fingerprint finds. */
    lemma FpMatch(s: Search)
      requires Indexed() && s.ByFp?
      ensures At(keys, FirstMatch(keys, s, 0)) == if s.fp in keybyfp then keybyfp[s.fp] else null
    {
      hide Distinct;
      var i := FirstMatch(keys, s, 0);
      if i < |keys| {
        assert keys[i] in keys;
      }
    }

    /** All matches, by searching on from each result, as callers of search do. */
    method Enumerate(s: Search) returns (r: seq<StoredKey>)
      requires Indexed()
      ensures r == MatchesFrom(keys, s, 0)
    {
      hide FirstMatch, MatchesFrom, Matches, Indexed;
      r := [];
      var k := FindKey(s, null);
      ghost var pos := FirstMatch(keys, s, 0);
      MatchesFromFirst(keys, s, 0);
      assert [] + MatchesFrom(keys, s, pos) == MatchesFrom(keys, s, pos);
      while k != null
        invariant pos <= |keys| && k == At(keys, pos)
        invariant r + MatchesFrom(keys, s, pos) == MatchesFrom(keys, s, 0)
        invariant pos < |keys| ==> Matches(keys[pos], s)
        decreases |keys| - pos
      {
        MatchesFromHere(keys, s, pos);
        MatchesFromFirst(keys, s, pos + 1);
        assert r + ([k] + MatchesFrom(keys, s, pos + 1)) == r + [k] + MatchesFrom(keys, s, pos + 1);
        r := r + [k];
        k := FindNext(s, k, pos);
        pos := FirstMatch(keys, s, pos + 1);
      }
      MatchesFromEnd(keys, s);
      assert r + [] == r;
    }

    /** rnp_key_provider_store: the first match of the wanted secrecy. */
    method Provide(s: Search, secret: bool) returns (k: StoredKey?)
      requires Indexed()
      ensures k != null ==> k in keys && Matches(k, s) && k.secret == secret
      ensures k == null ==> forall q :: q in keys && Matches(q, s) ==> q.secret != secret
      ensures k != null ==>
        forall i, j :: 0 <= i < j < |keys| && keys[j] == k && Matches(keys[i], s) ==> keys[i].secret != secret
    {
      hide FirstMatch, Matches;
      k := FindKey(s, null);
      ghost var pos := FirstMatch(keys, s, 0);
      while k != null
        invariant pos <= |keys| && k == At(keys, pos)
        invariant pos < |keys| ==> Matches(keys[pos], s)
        invariant forall i :: 0 <= i < pos && Matches(keys[i], s) ==> keys[i].secret != secret
        decreases |keys| - pos
      {
        if k.secret == secret {
          return;
        }
        k := FindNext(s, k, pos);
        pos := FirstMatch(keys, s, pos + 1);
      }
    }

    /** get_signer */
    method GetSigner(sig: Sig) returns (k: StoredKey?)
      requires Indexed()
      ensures k == Signer(keys, sig)
      ensures k == null <==> forall p :: 0 <= p < |keys| ==> !IssuedBy(keys[p], sig)
      ensures k != null ==> exists p :: 0 <= p < |keys| && keys[p] == k && FirstIssuer(keys, p, sig)
    {
      hide FirstMatch, FirstIssuer, IssuedBy;
      SignerIs(keys, sig);
      if sig.keyfp.Some? {
        k := FindKey(ByFp(sig.keyfp.value), null);
      } else if sig.keyid.Some? {
        k := FindKey(ByKeyId(sig.keyid.value), null);
      } else {
        k := null;
      }
    }

    /** The stored primary key of a subkey that records `primaryFp` and holds the signatures `l`. */
    ghost function PrimaryOf(primaryFp: Option<Fp>, l: L.Layout): (k: StoredKey?)
      reads this
      ensures Indexed() && k != null ==> k in keys && k.primary
    {
      if primaryFp.None? then BindingSigner(keys, l, 0)
      else if primaryFp.value in keybyfp && keybyfp[primaryFp.value].primary then keybyfp[primaryFp.value]
      else null
    }

    /** What it finds: with a recorded fingerprint, the stored primary key that has it; without one, the primary
        key that the first binding with a stored primary issuer leads to. Null only if there is none. */
    lemma PrimaryOfIs(primaryFp: Option<Fp>, l: L.Layout)
      requires Indexed()
      ensures FoundPrimary(keys, primaryFp, l, PrimaryOf(primaryFp, l))
    {
      hide Distinct, FirstBinder, BindingSigner;
      BinderFrom(keys, l, 0);
    }

    /** primary_key */
    method PrimaryKey(primaryFp: Option<Fp>, l: L.Layout) returns (k: StoredKey?)
      requires Indexed() && L.Good(l)
      ensures k == PrimaryOf(primaryFp, l)
      ensures FoundPrimary(keys, primaryFp, l, k)
    {
      hide Signer, L.NoDup, L.Flat, FoundPrimary, FirstIssuer, IssuedBy;
      PrimaryOfIs(primaryFp, l);
      if primaryFp.Some? {
        k := GetKey(primaryFp.value);
        if k != null && !k.primary {
          k := null;
        }
        return;
      }
      for i := 0 to |l.sigs|
        invariant BindingSigner(keys, l, i) == BindingSigner(keys, l, 0)
      {
        var sig := l.subs[l.sigs[i]].sig;
        if sig.kind == SubkeyBinding {
          k := GetSigner(sig);
          if k != null && k.primary {
            return;
          }
        }
      }
      k := null;
    }

    // ----- Adding -----

    /** A subkey without a recorded primary key has a binding that names `key`. */
    method NamesKey(l: L.Layout, key: StoredKey) returns (r: bool)
      requires L.Good(l)
      ensures r <==> Names(l, key.fp, key.keyid)
    {
      hide L.NoDup, L.Flat;
      for i := 0 to |l.sigs|
        invariant forall j :: 0 <= j < i ==> !NamesAt(l, j, key.fp, key.keyid)
      {
        if NamesAt(l, i, key.fp, key.keyid) {
          return true;
        }
      }
      return false;
    }

    /** The first `i` keys have been offered a new primary key. */
    ghost predicate Offered(was: seq<Source>, i: nat, fp: Fp, keyid: KeyId)
      reads this, keys
    {
      && |was| == |keys|
      && (forall j :: 0 <= j < |keys| ==>
            keys[j].primaryFp == if j < i then Adopted(keys[j].primary, keys[j].layout, was[j].primaryFp, fp, keyid)
                                 else was[j].primaryFp)
    }

    /** refresh_subkey_grips: orphan subkeys that name the new primary key are linked to it. */
    method RefreshSubkeyGrips(key: StoredKey)
      requires Valid() && key in keys && key.primary
      modifies keys`primaryFp, key`subkeyFps
      ensures Valid() && Offered(old(Snaps(keys)), |keys|, key.fp, key.keyid)
      ensures key.subkeyFps == Adopting(old(key.subkeyFps), old(Snaps(keys)), key.fp, key.keyid)
    {
      hide *;
      ghost var was, first := Snaps(keys), key.subkeyFps;
      ghost var fp, keyid := key.fp, key.keyid;
      NotOffered(fp, keyid);
      assert was[0..] == was;
      for i := 0 to |keys|
        invariant Valid() && Offered(was, i, fp, keyid)
        invariant Adopting(key.subkeyFps, was[i..], fp, keyid) == Adopting(first, was, fp, keyid)
      {
        assert was[i..][1..] == was[i + 1..];
        AdoptingNext(key.subkeyFps, was[i..], fp, keyid);
        Offer(key, keys[i], i, was);
      }
      AdoptingNone(key.subkeyFps, fp, keyid);
      assert was[|keys|..] == [];
    }

    lemma OnlyAt(i: nat)
      requires Valid() && i < |keys|
      ensures keys[i] in keys && forall j :: 0 <= j < |keys| && j != i ==> keys[j] != keys[i]
    {
    }

    lemma NotOffered(fp: Fp, keyid: KeyId)
      ensures Offered(Snaps(keys), 0, fp, keyid)
      ensures forall j :: 0 <= j < |keys| ==>
        var k := Snaps(keys)[j];
        k.layout == keys[j].layout && k.primary == keys[j].primary && k.fp == keys[j].fp
    {
    }

    method Offer(key: StoredKey, skey: StoredKey, ghost i: nat, ghost was: seq<Source>)
      requires Valid() && key in keys && key.primary && i < |keys| && keys[i] == skey
      requires Offered(was, i, key.fp, key.keyid)
      requires was[i].layout == skey.layout && was[i].primary == skey.primary && was[i].fp == skey.fp
      modifies skey`primaryFp, key`subkeyFps
      ensures Valid() && Offered(was, i + 1, key.fp, key.keyid)
      ensures key.subkeyFps == Step(old(key.subkeyFps), was[i], key.fp, key.keyid)
    {
      hide Valid, Adopted, IsOrphan, Listed;
      OnlyAt(i);
      Adopt(key, skey);
    }

    method Adopt(key: StoredKey, skey: StoredKey)
      requires Valid() && key in keys && skey in keys && key.primary
      modifies key`subkeyFps, skey`primaryFp
      ensures Valid()
      ensures key.subkeyFps == Step(old(key.subkeyFps), old(skey.Get()), key.fp, key.keyid)
      ensures skey.primaryFp == Adopted(skey.primary, skey.layout, old(skey.primaryFp), key.fp, key.keyid)
    {
      hide Names, Indexed, Typed, Listed, LinkedKey, L.Good;
      GoodLayout(skey);
      if !skey.primary && skey.primaryFp.None? {
        var found := NamesKey(skey.layout, key);
        if found {
          Link(key, skey);
        }
      }
    }

    lemma GoodLayout(k: StoredKey)
      requires Valid() && k in keys
      ensures L.Good(k.layout)
    {
      hide L.Good;
      assert TypedKey(k);
    }

    /** Linking a stored subkey to a stored primary key puts it in order. */
    method Link(key: StoredKey, skey: StoredKey)
      requires Indexed() && Typed() && LinkedBut(skey)
      requires key in keys && skey in keys && key.primary && !skey.primary
      modifies key`subkeyFps, skey`primaryFp
      ensures Valid() && skey.primaryFp == Some(key.fp) && key.subkeyFps == Listed(old(key.subkeyFps), skey.fp)
    {
      hide L.Good, Distinct;
      key.LinkSubkey(skey);
    }

    /** What a key given to add_key must satisfy: fingerprints of the right kind. */
    ghost predicate Fits(src: Source)
      reads this, keys
    {
      && src.primary == kind(src.fp)
      && (forall f :: f in src.subkeyFps ==> !kind(f))
      && (src.primaryFp.Some? ==> kind(src.primaryFp.value))
      && L.Good(src.layout)
      && (src.primary && src.fp in keybyfp && keybyfp[src.fp] in keys ==>
            |keybyfp[src.fp].layout.uids| + |src.layout.uids| <= UID_ANY)
    }

    /** The key is no new subkey that records a primary key which is not stored. */
    ghost predicate Anchored(src: Source)
      reads this
    {
      src.primary || src.fp in keybyfp || src.primaryFp.None? || src.primaryFp.value in keybyfp
    }

    /** Appends a copy of a key whose fingerprint is new. */
    method Append(src: Source) returns (k: StoredKey)
      requires Valid() && Fits(src) && src.fp !in keybyfp
      modifies `keys, `keybyfp
      ensures fresh(k) && keys == old(keys) + [k] && keybyfp == old(keybyfp)[src.fp := k]
      ensures k.fp == src.fp && k.keyid == src.keyid && k.primary == src.primary && k.layout == src.layout
      ensures k.primaryFp == src.primaryFp && k.subkeyFps == src.subkeyFps && k.secret == src.secret
      ensures Indexed() && Typed()
      ensures LinkedBut(k) && (k.primary || k.primaryFp.None? ==> Valid())
      ensures !k.primary && k.primaryFp.Some? ==> k.primaryFp.value != k.fp
    {
      hide L.Good, Distinct, Typed, LinkedBut;
      k := new StoredKey(src);
      keys := keys + [k];
      keybyfp := keybyfp[src.fp := k];
      assert forall q :: q in keys <==> q in old(keys) || q == k;
      DistinctAnd(old(keys), k);
      assert Indexed();
      AppendTyped(k);
      hide Indexed, Fits;
      AppendLinked(k, src.fp);
    }

    twostate lemma AppendTyped(new k: StoredKey)
      requires old(Typed()) && TypedKey(k) && keys == old(keys) + [k]
      requires forall q :: q in old(keys) ==> unchanged(q)
      ensures Typed()
    {
      hide L.Good;
      forall q | q in keys ensures TypedKey(q) {
        assert q == k || (q in old(keys) && old(TypedKey(q)));
      }
    }

    twostate lemma AppendLinked(new k: StoredKey, fp: Fp)
      requires old(Linked()) && keys == old(keys) + [k] && keybyfp == old(keybyfp)[fp := k] && fp !in old(keybyfp)
      requires forall q :: q in old(keys) ==> unchanged(q)
      ensures LinkedBut(k) && (k.primary || k.primaryFp.None? ==> Linked())
    {
      forall q | q in keys && q != k ensures LinkedKey(q) {
        assert q in old(keys) && old(LinkedKey(q));
      }
    }

    /** The primary key a merged subkey ends up with. */
    ghost function Target(src: Source, k: StoredKey): (t: StoredKey?)
      reads this, k
    {
      var primary := PrimaryOf(k.primaryFp, k.layout);
      if primary != null then primary else PrimaryOf(src.primaryFp, src.layout)
    }

    /** The key that a stored subkey records, if it is stored. */
    ghost function RecordedKey(k: StoredKey): (p: StoredKey?)
      reads this, k
    {
      if k.primaryFp.Some? && k.primaryFp.value in keybyfp then keybyfp[k.primaryFp.value] else null
    }

    /** What a subkey new to the keys `was` records: the primary key that its recorded fingerprint or its
        bindings lead to, which lists it; what it recorded itself if they lead to none. */
    ghost predicate LinkedTo(k: StoredKey, was: seq<StoredKey>, primaryFp: Option<Fp>, l: L.Layout)
      reads this, k, keys
    {
      var p := RecordedKey(k);
      && FoundPrimary(was, primaryFp, l, p)
      && (p == null ==> k.primaryFp == primaryFp)
      && (p != null ==> p in was && p in keys && p.primary && k.fp in p.subkeyFps)
    }

    /** The key that a merged subkey ends up with: the one it records, or else the one its own bindings lead to,
        or else the one that the source's fingerprint or bindings lead to. */
    lemma TargetIs(src: Source, k: StoredKey)
      requires Valid() && k in keys && !k.primary
      ensures var t := Target(src, k);
              && (k.primaryFp.Some? ==> t != null && k.primaryFp == Some(t.fp))
              && (k.primaryFp.None? && FirstBinder(keys, k.layout, 0, null) ==>
                    FoundPrimary(keys, src.primaryFp, src.layout, t))
              && (k.primaryFp.None? && !FirstBinder(keys, k.layout, 0, null) ==>
                    FirstBinder(keys, k.layout, 0, t))
    {
      hide L.Good, Distinct, FirstBinder, BindingSigner;
      assert TypedKey(k) && LinkedKey(k);
      if k.primaryFp.Some? {
        assert TypedKey(keybyfp[k.primaryFp.value]);
      } else {
        BinderFrom(keys, k.layout, 0);
        PrimaryOfIs(src.primaryFp, src.layout);
        if FirstBinder(keys, k.layout, 0, null) {
          FirstBinderUnique(keys, k.layout, null, BindingSigner(keys, k.layout, 0));
        }
      }
    }

    /** add_subkey for a subkey that is not stored yet */
    method AddNewSubkey(src: Source) returns (k: StoredKey)
      requires Valid() && Fits(src) && !src.primary && src.fp !in keybyfp
      modifies `keys, `keybyfp, keys`subkeyFps
      ensures Indexed() && Typed() && LinkedBut(k) && (Linked() <==> old(Anchored(src)))
      ensures fresh(k) && keys == old(keys) + [k] && keybyfp == old(keybyfp)[src.fp := k]
      ensures k.fp == src.fp && !k.primary && k.layout == src.layout && k.secret == src.secret
      ensures var primary := old(PrimaryOf(src.primaryFp, src.layout));
              && k.primaryFp == (if primary == null then src.primaryFp else Some(primary.fp))
              && k.subkeyFps == src.subkeyFps
              && (forall q :: q in old(keys) ==>
                    q.subkeyFps == if q == primary then Listed(old(q.subkeyFps), k.fp) else old(q.subkeyFps))
      ensures LinkedTo(k, old(keys), src.primaryFp, src.layout)
    {
      hide L.Good, Distinct, BindingSigner, LinkedBut, FoundPrimary;
      var primary := PrimaryKey(src.primaryFp, src.layout);
      if src.primaryFp.Some? && src.primaryFp.value in keybyfp {
        assert TypedKey(keybyfp[src.primaryFp.value]);
      }
      k := AppendSubkey(src, primary);
      assert TypedKey(k);
    }

    method AppendSubkey(src: Source, primary: StoredKey?) returns (k: StoredKey)
      requires Valid() && Fits(src) && !src.primary && src.fp !in keybyfp
      requires primary != null ==> primary in keys && primary.primary
      requires primary == null && src.primaryFp.Some? ==> src.primaryFp.value !in keybyfp
      modifies `keys, `keybyfp, keys`subkeyFps
      ensures Indexed() && Typed() && LinkedBut(k) && (Linked() <==> primary != null || src.primaryFp.None?)
      ensures fresh(k) && keys == old(keys) + [k] && keybyfp == old(keybyfp)[src.fp := k]
      ensures k.fp == src.fp && !k.primary && k.layout == src.layout && k.secret == src.secret
      ensures k.primaryFp == if primary == null then src.primaryFp else Some(primary.fp)
      ensures k.subkeyFps == src.subkeyFps
      ensures forall q :: q in old(keys) ==>
        q.subkeyFps == if q == primary then Listed(old(q.subkeyFps), k.fp) else old(q.subkeyFps)
    {
      hide L.Good, Distinct, Listed;
      k := Append(src);
      if primary != null {
        Link(primary, k);
      } else if src.primaryFp.Some? {
        assert !LinkedKey(k);
      }
    }

    /** add_subkey for a subkey that is already stored: merged into it. */
    method MergeIntoSubkey(src: Source, k: StoredKey)
      requires Valid() && Fits(src) && !src.primary && k in keys && k.fp == src.fp
      modifies keys`subkeyFps, k`primaryFp, k`layout, k`secret
      ensures Valid() && L.Good(src.layout) && k.layout == M.MergeSubkey(old(k.layout), src.layout)
      ensures k.secret == (old(k.secret) || src.secret)
      ensures var target := old(Target(src, k));
              && k.primaryFp == (if target == null then old(k.primaryFp) else Some(target.fp))
              && (forall q :: q in keys ==>
                    q.subkeyFps == if q == target then Listed(old(q.subkeyFps), k.fp)
                                   else if old(k.primaryFp).Some? && src.primaryFp == Some(q.fp) != old(k.primaryFp)
                                   then Unlisted(old(q.subkeyFps), k.fp)
                                   else old(q.subkeyFps))
    {
      hide L.Good, Distinct, M.MergeSubkey, Listed, Unlisted, BindingSigner, FoundPrimary;
      assert TypedKey(k);
      var primary := PrimaryKey(k.primaryFp, k.layout);
      if primary == null {
        primary := PrimaryKey(src.primaryFp, src.layout);
      }
      assert primary == old(Target(src, k));
      MergeSigs(src, k);
      hide TypedKey, LinkedKey, Fits;
      MoveSubkey(src.primaryFp, k, primary);
    }

    /** merge of a subkey: its signatures and secret part */
    method MergeSigs(src: Source, k: StoredKey)
      requires Valid() && L.Good(src.layout) && k in keys && L.Good(k.layout)
      modifies k`layout, k`secret
      ensures Valid() && k.layout == M.MergeSubkey(old(k.layout), src.layout)
      ensures k.secret == (old(k.secret) || src.secret)
    {
      hide L.Good, Distinct, M.MergeSubkey;
      assert TypedKey(k);
      k.secret := k.secret || src.secret;
      k.layout := M.MergeSubkey(k.layout, src.layout);
      assert TypedKey(k);
      hide TypedKey;
    }

    /** The links of a merged subkey, whose source records `srcFp`. */
    method MoveSubkey(srcFp: Option<Fp>, k: StoredKey, primary: StoredKey?)
      requires Valid() && k in keys && !k.primary && (primary != null ==> primary in keys && primary.primary)
      requires primary == null && k.primaryFp.Some? ==> srcFp.None? || srcFp.value !in keybyfp
      modifies keys`subkeyFps, k`primaryFp
      ensures Valid() && k.primaryFp == if primary == null then old(k.primaryFp) else Some(primary.fp)
      ensures forall q :: q in keys ==>
        q.subkeyFps == if q == primary then Listed(old(q.subkeyFps), k.fp)
                       else if old(k.primaryFp).Some? && srcFp == Some(q.fp) != old(k.primaryFp)
                       then Unlisted(old(q.subkeyFps), k.fp)
                       else old(q.subkeyFps)
    {
      hide L.Good, Distinct, Listed, Unlisted, TypedKey, LinkedKey;
      if srcFp.Some? && k.primaryFp.Some? && srcFp != k.primaryFp {
        Unlist(srcFp.value, k, primary);
      }
      if primary != null {
        Link(primary, k);
      }
    }

    /** The weird case of two different primary keys: the other one no longer lists the subkey. */
    method Unlist(fp: Fp, k: StoredKey, primary: StoredKey?)
      requires Valid() && k in keys && !k.primary
      modifies keys`subkeyFps
      ensures Indexed() && Typed() && LinkedBut(k)
      ensures forall q :: q in keys ==>
        q.subkeyFps == if q.fp == fp && q != primary then Unlisted(old(q.subkeyFps), k.fp) else old(q.subkeyFps)
    {
      hide L.Good, Distinct;
      var other := GetKey(fp);
      if other != null && other != primary {
        other.RemoveSubkeyFp(k.fp);
      }
    }

    /** add_key for a primary key that is not stored yet */
    method AddNewPrimary(src: Source) returns (k: StoredKey)
      requires Valid() && Fits(src) && src.primary && src.fp !in keybyfp
      modifies `keys, `keybyfp, keys`primaryFp
      ensures Valid()
      ensures fresh(k) && keys == old(keys) + [k] && keybyfp == old(keybyfp)[src.fp := k]
      ensures k.fp == src.fp && k.primary && k.layout == src.layout
      ensures k.secret == src.secret && k.primaryFp == src.primaryFp
      ensures k.subkeyFps == Adopting(src.subkeyFps, old(Snaps(keys)), src.fp, src.keyid)
      ensures forall j :: 0 <= j < |old(keys)| ==>
        keys[j].primaryFp == Adopted(keys[j].primary, keys[j].layout, old(keys[j].primaryFp), src.fp, src.keyid)
    {
      hide Valid, Fits, Indexed, Typed, LinkedBut, Adopting, Names, Snaps;
      k := Append(src);
      SnapsAnd(k);
      AdoptingAnd(src.subkeyFps, old(Snaps(keys)), k.Get(), src.fp, src.keyid);
      RefreshSubkeyGrips(k);
    }

    twostate lemma SnapsAnd(new k: StoredKey)
      requires keys == old(keys) + [k] && forall q :: q in old(keys) ==> unchanged(q)
      ensures Snaps(keys) == old(Snaps(keys)) + [k.Get()]
    {
      var was := old(keys);
      forall i | 0 <= i < |was| ensures Snaps(keys)[i] == old(Snaps(keys))[i] {
        var q := was[i];
        assert q in was && unchanged(q) && keys[i] == q;
        assert old(Snaps(keys))[i] == old(q.Get());
      }
    }

    lemma SameKind(src: Source, k: StoredKey)
      requires Valid() && Fits(src) && k in keys && k.fp == src.fp
      ensures k.primary == src.primary
    {
      assert TypedKey(k);
    }

    /** add_key */
    method AddKey(src: Source) returns (k: StoredKey)
      requires Valid() && Fits(src)
      modifies this, keys
      ensures k in keys && k.fp == src.fp && k.primary == src.primary
      ensures Indexed() && Typed() && (Linked() <==> old(Anchored(src)))
      ensures if src.fp in old(keybyfp) then
                var was := old(keybyfp)[src.fp];
                && k == was && keys == old(keys)
                && k.layout == (if src.primary then M.Merge(old(was.layout), src.layout)
                                else M.MergeSubkey(old(was.layout), src.layout))
              else fresh(k) && keys == old(keys) + [k] && k.layout == src.layout
      ensures keybyfp == old(keybyfp)[src.fp := k]
      ensures k.secret == (src.secret || (src.fp in old(keybyfp) && old(keybyfp[src.fp].secret)))
      // a new subkey is linked to its primary key, which lists it
      ensures src.fp !in old(keybyfp) && !src.primary ==>
        var primary := old(PrimaryOf(src.primaryFp, src.layout));
        && k.primaryFp == (if primary == null then src.primaryFp else Some(primary.fp))
        && k.subkeyFps == src.subkeyFps
        && (forall q :: q in old(keys) ==>
              && q.primaryFp == old(q.primaryFp)
              && q.subkeyFps == if q == primary then Listed(old(q.subkeyFps), k.fp) else old(q.subkeyFps))
      ensures src.fp !in old(keybyfp) && !src.primary ==> LinkedTo(k, old(keys), src.primaryFp, src.layout)
      // a new primary key adopts the orphans that name it
      ensures src.fp !in old(keybyfp) && src.primary ==>
        && k.primaryFp == src.primaryFp
        && k.subkeyFps == Adopting(src.subkeyFps, old(Snaps(keys)), src.fp, src.keyid)
        && (forall q :: q in old(keys) ==>
              && q.primaryFp == Adopted(q.primary, q.layout, old(q.primaryFp), src.fp, src.keyid)
              && q.subkeyFps == old(q.subkeyFps))
      // a merged subkey is linked to its target, and off the list of another recorded primary key
      ensures src.fp in old(keybyfp) && !src.primary ==>
        var target := old(Target(src, keybyfp[src.fp]));
        && k.primaryFp == (if target == null then old(keybyfp[src.fp].primaryFp) else Some(target.fp))
        && (forall q :: q in keys ==>
              && (q != k ==> q.primaryFp == old(q.primaryFp))
              && q.subkeyFps == if q == target then Listed(old(q.subkeyFps), k.fp)
                                else if old(keybyfp[src.fp].primaryFp).Some?
                                        && src.primaryFp == Some(q.fp) != old(keybyfp[src.fp].primaryFp)
                                then Unlisted(old(q.subkeyFps), k.fp)
                                else old(q.subkeyFps))
      // a merged primary key lists the source's subkeys too
      ensures src.fp in old(keybyfp) && src.primary ==>
        && k.subkeyFps == ListedAll(old(keybyfp[src.fp].subkeyFps), src.subkeyFps)
        && (forall q :: q in keys ==> q.primaryFp == old(q.primaryFp) && (q != k ==> q.subkeyFps == old(q.subkeyFps)))
    {
      hide L.Good, M.Merge, M.MergeSubkey, Indexed, Typed, TypedKey, LinkedBut, LinkedKey, Fits, PrimaryOf, Target;
      hide Listed, Unlisted, ListedAll, Adopting, Adopted, BindingSigner, Snaps, LinkedTo, FoundPrimary;
      var added := GetKey(src.fp);
      if added != null {
        SameKind(src, added);
      }
      if !src.primary {
        if added != null {
          MergeIntoSubkey(src, added);
          k := added;
        } else {
          k := AddNewSubkey(src);
        }
        return;
      }
      if added != null {
        MergeIntoPrimary(src, added);
        k := added;
      } else {
        k := AddNewPrimary(src);
      }
    }

    /** merge of a primary key, with the lists of subkeys */
    method MergeIntoPrimary(src: Source, k: StoredKey)
      requires Valid() && Fits(src) && src.primary && k in keys && k.fp == src.fp
      modifies k`subkeyFps, k`layout, k`secret
      ensures Valid() && k.layout == M.Merge(old(k.layout), src.layout)
      ensures k.secret == (old(k.secret) || src.secret) && k.subkeyFps == ListedAll(old(k.subkeyFps), src.subkeyFps)
    {
      hide L.Good, Distinct, M.Merge;
      assert TypedKey(k);
      k.secret := k.secret || src.secret;
      k.layout := M.Merge(k.layout, src.layout);
      assert TypedKey(k);
      hide TypedKey;
      assert Valid();
      AddFps(k, src.subkeyFps);
    }

    method AddFps(k: StoredKey, fps: seq<Fp>)
      requires Valid() && k in keys && forall f :: f in fps ==> !kind(f)
      modifies k`subkeyFps
      ensures Valid() && k.subkeyFps == ListedAll(old(k.subkeyFps), fps)
    {
      hide Indexed, Typed, LinkedBut, Listed;
      for i := 0 to |fps|
        invariant Valid() && ListedAll(k.subkeyFps, fps[i..]) == ListedAll(old(k.subkeyFps), fps)
      {
        assert fps[i..][1..] == fps[i + 1..];
        ListOne(k, fps[i]);
      }
    }

    method ListOne(k: StoredKey, f: Fp)
      requires Valid() && k in keys && !kind(f)
      modifies k`subkeyFps
      ensures Valid() && k.subkeyFps == Listed(old(k.subkeyFps), f)
    {
      hide L.Good, Distinct;
      assert TypedKey(k);
      k.AddSubkeyFp(f);
    }

    // ----- Removing -----

    /** Takes one key out of the list and the index. */
    method Erase(k: StoredKey)
      requires Indexed() && Typed() && LinkedBut(k) && k in keys
      modifies `keys, `keybyfp
      ensures Indexed() && Typed() && (Linked() <==> Unnamed(k.fp))
      ensures keys == Survivors(old(keys), {k.fp})
      ensures forall q :: q in keys <==> q in old(keys) && q != k
      ensures keybyfp == old(keybyfp) - {k.fp}
    {
      hide L.Good, TypedKey, Survivors;
      var i := Position(k);
      ghost var was := keys;
      SurvivorsErase(keys, i);
      keys := keys[..i] + keys[i + 1..];
      keybyfp := keybyfp - {k.fp};
      ErasedMembers(was, i);
      hide Distinct;
      forall q | q in keys
        ensures LinkedKey(q) <==> q.primary || q.primaryFp != Some(k.fp)
      {
        assert q in was && old(LinkedKey(q));
      }
    }

    /** No subkey records this primary key. */
    ghost predicate Unnamed(fp: Fp)
      reads this, keys
    {
      forall q :: q in keys && !q.primary ==> q.primaryFp != Some(fp)
    }

    /** The subkeys that record a primary key are on the list of its copy `src`. */
    ghost predicate Covers(src: Source)
      reads this, keys
    {
      forall q :: q in keys && !q.primary && q.primaryFp == Some(src.fp) ==> q.fp in src.subkeyFps
    }

    /** A copy of a key: its fingerprints are of the right kinds and its signature lists in step. */
    ghost predicate Proper(src: Source) {
      && L.Good(src.layout)
      && src.primary == kind(src.fp)
      && (forall f :: f in src.subkeyFps ==> !kind(f))
      && (src.primaryFp.Some? ==> kind(src.primaryFp.value))
    }

    /** A stored key itself is such a copy. */
    lemma OwnCovers(k: StoredKey)
      requires Valid() && k in keys
      ensures Proper(k.Get()) && Covers(k.Get())
    {
      hide L.Good, Distinct;
      assert TypedKey(k);
      forall q | q in keys && !q.primary && q.primaryFp == Some(k.fp)
        ensures q.fp in k.subkeyFps
      {
        assert LinkedKey(q);
      }
    }

    method Position(k: StoredKey) returns (i: nat)
      requires k in keys
      ensures i < |keys| && keys[i] == k
    {
      i := 0;
      while i < |keys| && keys[i] != k
        invariant i <= |keys| && k !in keys[..i]
      {
        i := i + 1;
      }
    }

    /** No key records a subkey as its primary key. */
    lemma NobodysPrimary(k: StoredKey)
      requires Typed() && k in keys && !k.primary
      ensures forall q :: q in keys ==> q.primaryFp != Some(k.fp)
    {
      assert TypedKey(k);
      forall q | q in keys ensures q.primaryFp != Some(k.fp) {
        assert TypedKey(q);
      }
    }

    /** The fingerprints that go with a key. */
    ghost function Doomed(src: Source, subkeys: bool): set<Fp> {
      {src.fp} + if src.primary && subkeys then FpSet(src.subkeyFps) else {}
    }

    /** remove_key, given a stored key or any copy of one. The links stay in order exactly if the copy of a
        primary key lists every stored subkey that records it, as a stored key itself does. */
    method RemoveKey(src: Source, subkeys: bool) returns (ok: bool)
      requires Valid() && Proper(src)
      modifies this, keys`primaryFp, keys`subkeyFps
      ensures ok <==> src.fp in old(keybyfp)
      ensures Indexed() && Typed() && (Linked() <==> !ok || !src.primary || old(Covers(src)))
      ensures src.fp !in keybyfp && keys == Survivors(old(keys), if ok then Doomed(src, subkeys) else {})
      ensures forall j :: 0 <= j < |keys| ==> keys[j] in old(keys)
      ensures forall q :: q in keys ==>
        && q.primaryFp == (if ok && src.primary && !subkeys && q.fp in src.subkeyFps then None
                           else old(q.primaryFp))
        && q.subkeyFps == (if ok && !src.primary && src.primaryFp == Some(q.fp)
                           then Unlisted(old(q.subkeyFps), src.fp)
                           else old(q.subkeyFps))
    {
      hide L.Good, Distinct, TypedKey, LinkedKey, Survivors, Unlisted, Linked, Covers, Typed, Indexed, LinkedBut;
      hide Proper;
      if src.fp !in keybyfp {
        Empty(src.fp);
        return false;
      }
      var key := keybyfp[src.fp];
      ghost var was := keys;
      Found(src);
      Unlink(key, src, subkeys);
      NotItsOwn(key);
      ghost var gone := Doomed(src, subkeys) - {src.fp};
      SurvivorsTwice(was, gone, {src.fp});
      assert gone + {src.fp} == Doomed(src, subkeys);
      Erase(key);
      ok := true;
    }

    lemma Empty(fp: Fp)
      requires Valid() && fp !in keybyfp
      ensures Indexed() && Typed() && Linked() && Survivors(keys, {}) == keys
    {
      hide L.Good, Distinct, TypedKey, LinkedKey, Survivors;
      SurvivorsAll(keys, {});
    }

    lemma Found(src: Source)
      requires Valid() && src.fp in keybyfp
      ensures keybyfp[src.fp] in keys && keybyfp[src.fp].fp == src.fp
    {
      hide L.Good, Distinct, TypedKey, LinkedKey;
    }

    lemma NotItsOwn(k: StoredKey)
      requires Typed() && k in keys
      ensures k.primary || k.primaryFp != Some(k.fp)
    {
      hide L.Good;
      assert TypedKey(k);
    }

    /** What remove_key does to the other keys. */
    method Unlink(key: StoredKey, src: Source, subkeys: bool)
      requires Valid() && Proper(src) && key in keys && key.fp == src.fp
      modifies this, keys`primaryFp, keys`subkeyFps
      ensures Indexed() && Typed() && LinkedBut(key) && key in keys
      ensures Unnamed(src.fp) <==> !src.primary || old(Covers(src))
      ensures keys == Survivors(old(keys), Doomed(src, subkeys) - {src.fp})
      ensures forall q :: q in keys ==>
        && q.primaryFp == (if src.primary && !subkeys && q.fp in src.subkeyFps then None else old(q.primaryFp))
        && q.subkeyFps == (if !src.primary && src.primaryFp == Some(q.fp) then Unlisted(old(q.subkeyFps), src.fp)
                           else old(q.subkeyFps))
    {
      hide L.Good, Distinct, TypedKey, LinkedKey, Survivors, Unlisted, Typed, Indexed;
      SurvivorsAll(keys, {});
      if src.primary && subkeys {
        EraseSubkeys(key, src.subkeyFps);
        assert Doomed(src, subkeys) - {src.fp} == FpSet(src.subkeyFps);
      } else if src.primary {
        OrphanSubkeys(src.subkeyFps);
        assert Doomed(src, subkeys) - {src.fp} == {};
      } else {
        TakeOffList(key, src);
        NobodysPrimary(key);
        assert Doomed(src, subkeys) - {src.fp} == {};
      }
    }

    /** A subkey that goes is first taken off its primary key's list. */
    method TakeOffList(key: StoredKey, src: Source)
      requires Valid() && key in keys && Proper(src) && !src.primary && src.fp == key.fp
      modifies keys`subkeyFps
      ensures Indexed() && Typed() && LinkedBut(key) && !key.primary
      ensures forall q :: q in keys ==>
        q.subkeyFps == if src.primaryFp == Some(q.fp) then Unlisted(old(q.subkeyFps), key.fp) else old(q.subkeyFps)
    {
      hide L.Good, Distinct, Unlisted, FoundPrimary;
      assert TypedKey(key);
      if src.primaryFp.Some? {
        var primary := PrimaryKey(src.primaryFp, src.layout);
        if primary != null {
          primary.RemoveSubkeyFp(key.fp);
        }
      }
    }

    /** unset_primary_fp */
    method Orphan(k: StoredKey)
      requires Valid() && k in keys
      modifies k`primaryFp
      ensures Valid() && k.primaryFp.None?
    {
      hide L.Good, Distinct;
      assert TypedKey(k);
      k.primaryFp := None;
    }

    /** Without subkeys: the listed ones lose their primary key. */
    method OrphanSubkeys(fps: seq<Fp>)
      requires Valid()
      modifies keys`primaryFp
      ensures Valid()
      ensures forall q :: q in keys ==> q.primaryFp == if q.fp in fps then None else old(q.primaryFp)
    {
      hide L.Good, Distinct, TypedKey;
      for i := 0 to |fps|
        invariant Valid()
        invariant forall q :: q in keys ==> q.primaryFp == if q.fp in fps[..i] then None else old(q.primaryFp)
      {
        if fps[i] in keybyfp {
          Orphan(keybyfp[fps[i]]);
        }
      }
    }

    /** With subkeys: the listed ones are erased first. */
    method EraseSubkeys(key: StoredKey, fps: seq<Fp>)
      requires Valid() && key in keys && kind(key.fp) && forall f :: f in fps ==> !kind(f)
      modifies `keys, `keybyfp
      ensures Valid() && key in keys && keybyfp == old(keybyfp) - FpSet(fps)
      ensures keys == Survivors(old(keys), FpSet(fps))
    {
      hide L.Good, Survivors, Indexed, Typed, LinkedBut;
      ghost var was := keys;
      SurvivorsAll(keys, {});
      ghost var done: set<Fp> := {};
      for i := 0 to |fps|
        invariant Valid() && key in keys
        invariant done == FpSet(fps[..i]) && keys == Survivors(was, done) && keybyfp == old(keybyfp) - done
      {
        var f := fps[i];
        SurvivorsTwice(was, done, {f});
        done := done + {f};
        assert done == FpSet(fps[..i + 1]) by {
          assert fps[..i + 1] == fps[..i] + [f];
        }
        EraseOne(key, f);
      }
      assert fps[..|fps|] == fps;
    }

    method EraseOne(key: StoredKey, f: Fp)
      requires Valid() && key in keys && key.fp != f && !kind(f)
      modifies `keys, `keybyfp
      ensures Valid() && key in keys && keys == Survivors(old(keys), {f}) && keybyfp == old(keybyfp) - {f}
    {
      hide L.Good, Distinct, Survivors;
      if f !in keybyfp {
        SurvivorsAll(keys, {f});
      } else {
        var sub := keybyfp[f];
        assert TypedKey(sub);
        NobodysPrimary(sub);
        Erase(sub);
      }
    }

    // ----- Loading and importing -----

    /** A key made of packets: no links yet. */
    ghost predicate FromPackets(src: Source) {
      src.primary == kind(src.fp) && src.primaryFp.None? && src.subkeyFps == [] && L.Good(src.layout)
    }

    /** add_ts_subkey. `made` is whether a key object could be made of the packets. */
    method AddTsSubkey(src: Source, made: bool, pkey: StoredKey?) returns (ok: bool)
      requires Valid() && FromPackets(src) && !src.primary
      requires pkey != null ==> pkey in keys && pkey.primary
      modifies this, keys
      ensures Valid() && (ok <==> made)
      ensures forall q :: q in old(keys) ==> q in keys
      ensures forall j :: 0 <= j < |keys| ==> keys[j] in old(keys) || fresh(keys[j])
      ensures (ok ==> src.fp in keybyfp) && forall f :: f in old(keybyfp) ==> f in keybyfp
      // the subkey records a primary key; a stored one keeps the one it recorded
      ensures ok && pkey != null ==> Recorded(old(Records()), Records(), src.fp, pkey.fp)
      ensures !ok ==> Records() == old(Records())
    {
      hide LinkedTo, FoundPrimary;
      hide L.Good, Indexed, Typed, TypedKey, LinkedBut, LinkedKey, PrimaryOf, Target, Snaps, FromPackets, Fits;
      hide Listed, Unlisted, ListedAll, Adopting, Adopted, M.Merge, M.MergeSubkey;
      if !made {
        return false;
      }
      var key := src;
      PacketsFit(src, null);
      if pkey != null {
        PacketsFit(src, pkey);
        ListOne(pkey, src.fp);
        PacketsFit(src, pkey);
        key := src.(primaryFp := Some(pkey.fp));
      }
      AddRecorded(key, pkey);
      return true;
    }

    method AddRecorded(src: Source, pkey: StoredKey?)
      requires Valid() && Fits(src) && !src.primary && Anchored(src)
      requires pkey != null ==> src.primaryFp == Some(pkey.fp) && PrimaryOf(src.primaryFp, src.layout) == pkey
      modifies this, keys
      ensures Valid() && src.fp in keybyfp && keybyfp.Keys == old(keybyfp).Keys + {src.fp}
      ensures forall q :: q in old(keys) ==> q in keys
      ensures forall j :: 0 <= j < |keys| ==> keys[j] in old(keys) || fresh(keys[j])
      ensures pkey != null ==> Recorded(old(Records()), Records(), src.fp, pkey.fp)
    {
      hide LinkedTo, FoundPrimary;
      hide L.Good, Indexed, Typed, TypedKey, LinkedBut, LinkedKey, PrimaryOf, Target, Snaps, Fits;
      hide Listed, Unlisted, ListedAll, Adopting, Adopted, M.Merge, M.MergeSubkey;
      if pkey != null && src.fp in keybyfp {
        KeepsRecorded(src);
      }
      var k := AddKey(src);
      RecordsAfter(k);
    }

    /** The primary key that each stored key records. */
    ghost function Records(): (m: map<Fp, Option<Fp>>)
      requires Indexed()
      reads this, keys
      ensures m.Keys == keybyfp.Keys && forall f :: f in m ==> m[f] == keybyfp[f].primaryFp
    {
      map f | f in keybyfp :: keybyfp[f].primaryFp
    }

    lemma KeepsRecorded(src: Source)
      requires Valid() && Fits(src) && src.fp in keybyfp && !src.primary
      requires PrimaryOf(src.primaryFp, src.layout) != null
      ensures var k := keybyfp[src.fp];
              var target := Target(src, k);
              target != null && (k.primaryFp.Some? ==> k.primaryFp == Some(target.fp))
    {
      hide L.Good, Distinct, BindingSigner;
      var k := keybyfp[src.fp];
      assert TypedKey(k) && LinkedKey(k);
      if k.primaryFp.Some? {
        assert TypedKey(keybyfp[k.primaryFp.value]);
      }
    }

    twostate lemma RecordsAfter(new k: StoredKey)
      requires old(Indexed()) && Indexed() && keybyfp == old(keybyfp)[k.fp := k] && k in keys
      requires forall q :: q in old(keys) && q != k ==> q.primaryFp == old(q.primaryFp)
      ensures Records() == old(Records())[k.fp := k.primaryFp]
    {
      hide Distinct;
      var m := old(Records())[k.fp := k.primaryFp];
      forall f | f in keybyfp ensures f in m && Records()[f] == m[f] {
        if f != k.fp {
          var q := old(keybyfp)[f];
          assert q in old(keys) && q.fp == f && keybyfp[f] == q;
        }
      }
      assert Records().Keys == m.Keys;
    }

    /** A subkey made of packets may be added, under a stored primary key or none. */
    lemma PacketsFit(src: Source, pkey: StoredKey?)
      requires Valid() && FromPackets(src) && !src.primary && (pkey != null ==> pkey in keys && pkey.primary)
      ensures pkey == null ==> Fits(src) && Anchored(src)
      ensures pkey != null ==>
        var linked := src.(primaryFp := Some(pkey.fp));
        !kind(src.fp) && Fits(linked) && Anchored(linked) && PrimaryOf(linked.primaryFp, linked.layout) == pkey
    {
      hide L.Good, Distinct;
      if pkey != null {
        assert TypedKey(pkey);
      }
    }

    /** add_ts_key: the primary key, then its subkeys; on failure the primary key is removed again. */
    method AddTsKey(src: Source, subs: seq<(Source, bool)>) returns (ok: bool)
      requires Valid() && FromPackets(src) && src.primary && Fits(src)
      requires forall i :: 0 <= i < |subs| ==> FromPackets(subs[i].0) && !subs[i].0.primary
      modifies this, keys
      ensures Valid()
      ensures ok <==> forall i :: 0 <= i < |subs| ==> subs[i].1
      ensures ok <==> src.fp in keybyfp
      // each loaded subkey is on the list of the primary key it records: this one if it is new
      ensures ok ==> forall i :: 0 <= i < |subs| ==> Placed(subs[i].0.fp, old(Records()), src.fp)
      ensures forall j :: 0 <= j < |keys| ==> keys[j] in old(keys) || fresh(keys[j])
    {
      hide LinkedTo, FoundPrimary;
      hide L.Good, Indexed, Typed, TypedKey, LinkedBut, LinkedKey, PrimaryOf, Target, Snaps, FromPackets, Fits;
      hide Listed, Unlisted, ListedAll, Adopting, Adopted, M.Merge, M.MergeSubkey, Survivors, Placed, Grown;
      ghost var first := Records();
      var key := AddPrimary(src);
      ghost var mid := Records();
      ok := AddTsSubkeys(subs, key);
      if ok {
        AllPlaced(subs, first, mid, src.fp);
      }
      if !ok {
        OwnCovers(key);
        var _ := RemoveKey(key.Get(), false);
        assert forall q :: q in keys ==> q in old(keys) || fresh(q);
      }
    }

    lemma AllPlaced(subs: seq<(Source, bool)>, first: map<Fp, Option<Fp>>, mid: map<Fp, Option<Fp>>, primary: Fp)
      requires Valid() && Grown(mid, Records(), primary) && kind(primary)
      requires forall i :: 0 <= i < |subs| ==> FromPackets(subs[i].0) && !subs[i].0.primary
      requires AllRecorded(subs, Records())
      requires mid.Keys == first.Keys + {primary} && forall f :: f in first && first[f].Some? ==> mid[f] == first[f]
      ensures forall i :: 0 <= i < |subs| ==> Placed(subs[i].0.fp, first, primary)
    {
      hide L.Good, Indexed, Typed, LinkedBut, Grown, Placed;
      forall i | 0 <= i < |subs|
        ensures Placed(subs[i].0.fp, first, primary)
      {
        LoadedIsPlaced(subs[i].0.fp, first, mid, primary);
      }
    }

    /** Adding a primary key changes no record that there was. */
    method AddPrimary(src: Source) returns (key: StoredKey)
      requires Valid() && Fits(src) && src.primary
      modifies this, keys
      ensures Valid() && key in keys && key.fp == src.fp && key.primary && key.fp in keybyfp && kind(key.fp)
      ensures forall j :: 0 <= j < |keys| ==> keys[j] in old(keys) || fresh(keys[j])
      ensures Records().Keys == old(Records()).Keys + {key.fp}
      ensures forall f :: f in old(Records()) && old(Records())[f].Some? ==> Records()[f] == old(Records())[f]
    {
      hide LinkedTo, FoundPrimary;
      hide L.Good, Indexed, Typed, TypedKey, LinkedBut, LinkedKey, PrimaryOf, Target, Snaps, Names;
      hide Listed, Unlisted, ListedAll, Adopting, M.Merge, M.MergeSubkey;
      key := AddKey(src);
      KeptRecords(old(Records()), key);
    }

    twostate lemma KeptRecords(first: map<Fp, Option<Fp>>, new key: StoredKey)
      requires old(Indexed()) && Indexed() && first == old(Records()) && keybyfp == old(keybyfp)[key.fp := key]
      requires forall q :: q in old(keys) ==> q in keys && (old(q.primaryFp).Some? ==> q.primaryFp == old(q.primaryFp))
      requires key.fp in old(keybyfp) ==> old(keybyfp)[key.fp] == key
      ensures Records().Keys == first.Keys + {key.fp}
      ensures forall f :: f in first && first[f].Some? ==> Records()[f] == first[f]
    {
      hide Distinct;
      forall f | f in first && first[f].Some? ensures Records()[f] == first[f] {
        var q := old(keybyfp)[f];
        assert q in old(keys) && keybyfp[f] == q;
      }
    }

    method AddTsSubkeys(subs: seq<(Source, bool)>, key: StoredKey) returns (ok: bool)
      requires Valid() && key in keys && key.fp in keybyfp && key.primary
      requires forall i :: 0 <= i < |subs| ==> FromPackets(subs[i].0) && !subs[i].0.primary
      modifies this, keys
      ensures Valid() && key in keys && key.fp in keybyfp
      ensures ok <==> AllMade(subs)
      ensures Grown(old(Records()), Records(), key.fp)
      ensures ok ==> AllRecorded(subs, Records())
      ensures forall j :: 0 <= j < |keys| ==> keys[j] in old(keys) || fresh(keys[j])
    {
      hide Indexed, Typed, LinkedBut, FromPackets, Recorded, Grown, Records, AllRecorded;
      NothingRecorded(subs, Records());
      ghost var was := Records();
      ghost var m := was;
      GrownSelf(was, key.fp);
      for i := 0 to |subs|
        invariant Valid() && m == Records()
        invariant key in keys && key.fp in keybyfp && Grown(was, m, key.fp)
        invariant AllRecorded(subs[..i], m)
        invariant forall j :: 0 <= j < |keys| ==> keys[j] in old(keys) || fresh(keys[j])
      {
        var added := AddTsSubkey(subs[i].0, subs[i].1, key);
        if !added {
          return false;
        }
        GrownNext(was, m, Records(), subs[i].0.fp, key.fp);
        RecordedNext(subs, i, m, Records());
        m := Records();
      }
      assert subs[..|subs|] == subs;
      RecordedMade(subs, m);
      return true;
    }

    /** The stored subkey records a stored primary key, which lists it. It is `primary` if the subkey was not
        stored before, and the one it recorded before if it did. */
    ghost predicate Placed(fp: Fp, was: map<Fp, Option<Fp>>, primary: Fp)
      requires Indexed()
      reads this, keys
    {
      && fp in keybyfp
      && var p := keybyfp[fp].primaryFp;
      && p.Some? && p.value in keybyfp && fp in keybyfp[p.value].subkeyFps
      && (fp !in was ==> p == Some(primary))
      && (fp in was && was[fp].Some? ==> p == was[fp])
    }

    /** `first`: before the key was added. `mid`: before its subkeys were. */
    lemma LoadedIsPlaced(fp: Fp, first: map<Fp, Option<Fp>>, mid: map<Fp, Option<Fp>>, primary: Fp)
      requires Valid() && Grown(mid, Records(), primary) && !kind(fp)
      requires fp in keybyfp && keybyfp[fp].primaryFp.Some?
      requires (fp !in first ==> fp !in mid) && (fp in first && first[fp].Some? ==> fp in mid && mid[fp] == first[fp])
      ensures Placed(fp, first, primary)
    {
      hide L.Good, Distinct;
      var k := keybyfp[fp];
      assert TypedKey(k) && LinkedKey(k);
    }

    /** import_key; with `pubkey`, of the public part only */
    method ImportKey(src: Source, pubkey: bool) returns (status: ImportStatus)
      requires Valid() && Fits(src)
      modifies this, keys
      ensures Indexed() && Typed() && (Linked() <==> old(Anchored(src)))
      ensures status == New <==> src.fp !in old(keybyfp)
      ensures src.fp in keybyfp && keybyfp[src.fp].secret
              == ((src.secret && !pubkey) || (src.fp in old(keybyfp) && old(keybyfp[src.fp].secret)))
      ensures src.fp in old(keybyfp) ==>
        var was := old(keybyfp[src.fp].layout);
        && (src.primary ==> (status == Unchanged <==>
              src.layout.subs.Keys <= was.subs.Keys && M.Pkts(src.layout.uids) <= M.Pkts(was.uids)))
        && (!src.primary ==> (status == Unchanged <==> L.Ids(src.layout.keysigs) <= was.subs.Keys))
    {
      hide L.Good, Distinct, LinkedBut, M.Merge, M.MergeSubkey, M.Pkts, LinkedTo, FoundPrimary;
      var keycp := src.(secret := src.secret && !pubkey);
      CopyFits(src, keycp);
      var exkey := GetKey(src.fp);
      var expackets := 0;
      if exkey != null {
        assert TypedKey(exkey);
        expackets := M.RawpktCount(exkey.layout);
        if src.primary {
          M.MergeCount(exkey.layout, src.layout);
        } else {
          M.MergeSubkeyCount(exkey.layout, src.layout);
        }
      }
      exkey := AddKey(keycp);
      var changed := M.RawpktCount(exkey.layout) > expackets;
      status := if changed then (if expackets > 0 then Updated else New) else Unchanged;
    }

    lemma CopyFits(src: Source, keycp: Source)
      requires Fits(src) && keycp == src.(secret := keycp.secret)
      ensures Fits(keycp) && (Anchored(keycp) <==> Anchored(src))
    {
      hide L.Good;
    }

    // ----- Runs -----

    /** What a caller must see to: kinds and layouts are right, whatever the store holds. */
    ghost predicate Sound(c: Command) {
      match c
      case Add(src) =>
        && src.primary == kind(src.fp)
        && (forall f :: f in src.subkeyFps ==> !kind(f))
        && (src.primaryFp.Some? ==> kind(src.primaryFp.value))
        && L.Good(src.layout)
      case LoadKey(src, subs) =>
        && FromPackets(src) && src.primary
        && (forall i :: 0 <= i < |subs| ==> FromPackets(subs[i].0) && !subs[i].0.primary)
      case LoadSubkey(sub, _, _) => FromPackets(sub) && !sub.primary
      case _ => true
    }

    /** The key has room for the source's userids, and a new subkey's recorded primary key is stored. */
    ghost predicate Accepts(c: Command)
      reads this, keys
    {
      && ((c.Add? || c.LoadKey?) && c.src.primary && c.src.fp in keybyfp && keybyfp[c.src.fp] in keys ==>
            |keybyfp[c.src.fp].layout.uids| + |c.src.layout.uids| <= UID_ANY)
      && (c.Add? ==> Anchored(c.src))
    }

    /** Any run of adding, loading, removing and clearing keeps index, kinds and links; it stops only
        at a key that may not be added. */
    method Run(cmds: seq<Command>) returns (done: nat)
      requires Valid() && forall i :: 0 <= i < |cmds| ==> Sound(cmds[i])
      modifies this, keys
      ensures Valid() && done <= |cmds| && (done < |cmds| ==> !Accepts(cmds[done]))
    {
      hide Valid, Sound, Accepts;
      for i := 0 to |cmds|
        invariant Valid()
        invariant forall j :: 0 <= j < |keys| ==> keys[j] in old(keys) || fresh(keys[j])
      {
        var ok := Execute(cmds[i]);
        if !ok {
          return i;
        }
      }
      return |cmds|;
    }

    method Execute(c: Command) returns (ok: bool)
      requires Valid() && Sound(c)
      modifies this, keys
      ensures Valid() && (ok <==> old(Accepts(c))) && (!ok ==> !Accepts(c))
      ensures forall j :: 0 <= j < |keys| ==> keys[j] in old(keys) || fresh(keys[j])
    {
      hide LinkedTo, FoundPrimary;
      hide L.Good, Indexed, Typed, TypedKey, LinkedBut, LinkedKey, PrimaryOf, Target, Snaps, FromPackets;
      hide Listed, Unlisted, ListedAll, Adopting, Adopted, M.Merge, M.MergeSubkey, Survivors;
      if c.Add? || c.LoadKey? {
        var k := GetKey(c.src.fp);
        if c.src.primary && k != null && |k.layout.uids| + |c.src.layout.uids| > UID_ANY {
          return false;
        }
      }
      match c {
        case Add(src) =>
          if !(src.primary || src.fp in keybyfp || src.primaryFp.None? || src.primaryFp.value in keybyfp) {
            return false;
          }
          var _ := AddKey(src);
        case LoadKey(src, subs) =>
          LoadFits(c);
          var _ := AddTsKey(src, subs);
        case LoadSubkey(sub, made, primaryFp) =>
          var pkey: StoredKey? := null;
          if primaryFp.Some? {
            pkey := GetKey(primaryFp.value);
            if pkey != null && !pkey.primary {
              pkey := null;
            }
          }
          var _ := AddTsSubkey(sub, made, pkey);
        case Remove(fp, subkeys) =>
          var k := GetKey(fp);
          if k != null {
            OwnCovers(k);
            var _ := RemoveKey(k.Get(), subkeys);
          }
        case Clear =>
          Clear();
      }
      return true;
    }

    lemma LoadFits(c: Command)
      requires Valid() && Sound(c) && c.LoadKey? && Accepts(c)
      ensures Fits(c.src)
    {
      hide L.Good, Distinct;
    }
  }

  /** Of the records, only that of `fp` may have changed: it is `primary` if the key is new, and the old one if
      there was one. */
  ghost predicate Recorded(was: map<Fp, Option<Fp>>, m: map<Fp, Option<Fp>>, fp: Fp, primary: Fp) {
    && fp in m && m[fp].Some? && m == was[fp := m[fp]]
    && (fp !in was ==> m[fp] == Some(primary))
    && (fp in was && was[fp].Some? ==> m[fp] == was[fp])
  }

  /** A key object could be made of each. */
  predicate AllMade(subs: seq<(Source, bool)>) {
    forall i :: 0 <= i < |subs| ==> subs[i].1
  }

  predicate AllRecorded(subs: seq<(Source, bool)>, m: map<Fp, Option<Fp>>) {
    AllMade(subs) && forall i :: 0 <= i < |subs| ==> subs[i].0.fp in m && m[subs[i].0.fp].Some?
  }

  lemma NothingRecorded(subs: seq<(Source, bool)>, m: map<Fp, Option<Fp>>)
    ensures AllRecorded(subs[..0], m)
  {
  }

  lemma RecordedMade(subs: seq<(Source, bool)>, m: map<Fp, Option<Fp>>)
    requires AllRecorded(subs, m)
    ensures AllMade(subs)
  {
  }

  lemma RecordedNext(subs: seq<(Source, bool)>, i: nat, m: map<Fp, Option<Fp>>, n: map<Fp, Option<Fp>>)
    requires i < |subs| && AllRecorded(subs[..i], m) && subs[i].1 && subs[i].0.fp in n && n[subs[i].0.fp].Some?
    requires forall f :: f in m && m[f].Some? ==> f in n && n[f].Some?
    ensures AllRecorded(subs[..i + 1], n)
  {
    forall j | 0 <= j < i + 1 ensures subs[j].1 && subs[j].0.fp in n && n[subs[j].0.fp].Some? {
      assert j < i ==> subs[j] == subs[..i][j];
    }
  }

  /** Keys that are not in `was` record `primary`; the others record what they did, if anything. */
  ghost predicate Grown(was: map<Fp, Option<Fp>>, m: map<Fp, Option<Fp>>, primary: Fp) {
    && was.Keys <= m.Keys
    && (forall f :: f in m && f !in was ==> m[f] == Some(primary))
    && (forall f :: f in was && was[f].Some? ==> m[f] == was[f])
  }

  lemma GrownSelf(was: map<Fp, Option<Fp>>, primary: Fp)
    ensures Grown(was, was, primary)
  {
  }

  lemma GrownNext(was: map<Fp, Option<Fp>>, m: map<Fp, Option<Fp>>, n: map<Fp, Option<Fp>>, fp: Fp, primary: Fp)
    requires Grown(was, m, primary) && Recorded(m, n, fp, primary)
    ensures Grown(was, n, primary) && fp in n && n[fp].Some?
    ensures forall f :: f in m && m[f].Some? ==> f in n && n[f].Some?
  {
  }

  datatype Command =
    | Add(src: Source)
    | LoadKey(src: Source, subs: seq<(Source, bool)>)
    | LoadSubkey(sub: Source, made: bool, primaryFp: Option<Fp>)
    | Remove(fp: Fp, subkeys: bool)
    | Clear

  /** A new store, given a subkey that records a primary key: the subkey is stored and indexed, but the key
      it records is not there. */
  method MissingPrimary(s: Source, ghost kind: Fp -> bool) returns (store: KeyStore)
    requires !s.primary && !kind(s.fp) && L.Good(s.layout) && s.primaryFp.Some? && kind(s.primaryFp.value)
    requires forall f :: f in s.subkeyFps ==> !kind(f)
    ensures store.Indexed() && store.Typed() && !store.Linked()
    ensures s.fp in store.keybyfp && store.keybyfp[s.fp].primaryFp == s.primaryFp && s.primaryFp.value !in store.keybyfp
  {
    hide L.Good, M.Merge, M.MergeSubkey, Snaps, Adopting, Adopted, Listed, Unlisted, ListedAll, BindingSigner;
    hide KeyStore.Indexed, KeyStore.Typed, KeyStore.LinkedBut, KeyStore.Target, KeyStore.LinkedTo, FoundPrimary;
    store := new KeyStore(kind);
    EmptyIndex(store);
    var _ := store.AddKey(s);
  }

  lemma EmptyIndex(store: KeyStore)
    requires store.Valid() && store.keys == []
    ensures store.keybyfp == map[]
  {
  }

  /** A copy taken before its subkey was added does not list it: removing by that copy leaves the subkey
      with a primary key that is gone. */
  method StaleCopy(p: Source, s: Source, ghost kind: Fp -> bool) returns (store: KeyStore)
    requires p.primary && kind(p.fp) && p.primaryFp.None? && p.subkeyFps == [] && L.Good(p.layout)
    requires !s.primary && !kind(s.fp) && s.primaryFp == Some(p.fp) && s.subkeyFps == [] && L.Good(s.layout)
    ensures store.Indexed() && store.Typed() && !store.Linked()
  {
    hide L.Good;
    var sk;
    store, sk := AddBoth(p, s, kind);
    assert !store.Covers(p);
    hide Survivors, Unlisted;
    var _ := store.RemoveKey(p, false);
  }

  method AddBoth(p: Source, s: Source, ghost kind: Fp -> bool) returns (store: KeyStore, sk: StoredKey)
    requires p.primary && kind(p.fp) && p.primaryFp.None? && p.subkeyFps == [] && L.Good(p.layout)
    requires !s.primary && !kind(s.fp) && s.primaryFp == Some(p.fp) && s.subkeyFps == [] && L.Good(s.layout)
    ensures fresh(store) && store.Valid() && store.kind == kind && p.fp in store.keybyfp && fresh(store.keys)
    ensures sk in store.keys && !sk.primary && sk.primaryFp == Some(p.fp) && sk.fp == s.fp
  {
    hide KeyStore.Indexed, KeyStore.Typed, KeyStore.LinkedBut, KeyStore.Target, KeyStore.LinkedTo, FoundPrimary;
    hide L.Good, M.Merge, M.MergeSubkey, Snaps, Adopting, Adopted, Listed, Unlisted, ListedAll, BindingSigner;
    store := new KeyStore(kind);
    var _ := store.AddKey(p);
    sk := store.AddKey(s);
  }

  lemma ErasedMembers(keys: seq<StoredKey>, i: nat)
    requires Distinct(keys) && i < |keys|
    ensures var r := keys[..i] + keys[i + 1..];
            Distinct(r) && forall q :: q in r <==> q in keys && q != keys[i]
  {
    var r := keys[..i] + keys[i + 1..];
    forall j | 0 <= j < |r| ensures r[j] == keys[if j < i then j else j + 1] {
    }
    forall q | q in keys && q != keys[i] ensures q in r {
      var j :| 0 <= j < |keys| && keys[j] == q;
      assert r[if j < i then j else j - 1] == q;
    }
  }

  /** The recorded primary key after the new key has been offered. */
  ghost function Adopted(primary: bool, l: L.Layout, was: Option<Fp>, fp: Fp, keyid: KeyId): Option<Fp> {
    if IsOrphan(primary, was, l, fp, keyid) then Some(fp) else was
  }

  /** A subkey that records no primary key, with a binding that names this one. */
  ghost predicate IsOrphan(primary: bool, primaryFp: Option<Fp>, l: L.Layout, fp: Fp, keyid: KeyId) {
    !primary && primaryFp.None? && Names(l, fp, keyid)
  }

  /** The list of subkeys after one key has been offered. */
  ghost function Step(s: seq<Fp>, k: Source, fp: Fp, keyid: KeyId): (r: seq<Fp>) {
    if IsOrphan(k.primary, k.primaryFp, k.layout, fp, keyid) then Listed(s, k.fp) else s
  }

  /** The list of subkeys after all keys have been offered, in list order. */
  ghost function Adopting(s: seq<Fp>, ks: seq<Source>, fp: Fp, keyid: KeyId): (r: seq<Fp>)
    decreases |ks|
  {
    if ks == [] then s else Adopting(Step(s, ks[0], fp, keyid), ks[1..], fp, keyid)
  }

  /** The new key is recorded exactly by subkeys that recorded none and that have a binding made by it. */
  lemma AdoptedIs(primary: bool, l: L.Layout, was: Option<Fp>, fp: Fp, keyid: KeyId)
    requires L.Good(l)
    ensures Adopted(primary, l, was, fp, keyid)
            == if !primary && was == None && Claims(l, fp, keyid) then Some(fp) else was
  {
    hide L.NoDup, L.Flat;
    if id :| id in l.subs && ClaimsBy(l.subs[id].sig, fp, keyid) {
      var i :| 0 <= i < |l.sigs| && l.sigs[i] == id;
      assert NamesAt(l, i, fp, keyid);
    }
  }

  predicate ClaimsBy(sig: Sig, fp: Fp, keyid: KeyId) {
    sig.kind == SubkeyBinding && (sig.keyfp == Some(fp) || sig.keyid == Some(keyid))
  }

  predicate Claims(l: L.Layout, fp: Fp, keyid: KeyId) {
    exists id :: id in l.subs && ClaimsBy(l.subs[id].sig, fp, keyid)
  }

  /** It lists, behind its own list, exactly these subkeys. */
  lemma {:induction false} AdoptingHas(s: seq<Fp>, ks: seq<Source>, fp: Fp, keyid: KeyId, f: Fp)
    ensures s <= Adopting(s, ks, fp, keyid)
    ensures f in Adopting(s, ks, fp, keyid) <==>
            f in s || exists i :: 0 <= i < |ks| && ks[i].fp == f && !ks[i].primary && ks[i].primaryFp == None
                                  && Names(ks[i].layout, fp, keyid)
    decreases |ks|
  {
    hide Names, Listed;
    if ks != [] {
      var k, rest := ks[0], ks[1..];
      AdoptingHas(Step(s, k, fp, keyid), rest, fp, keyid, f);
      assert forall i :: 0 < i < |ks| ==> ks[i] == rest[i - 1];
      if i :| 0 <= i < |rest| && rest[i].fp == f && !rest[i].primary && rest[i].primaryFp == None
              && Names(rest[i].layout, fp, keyid) {
        assert ks[i + 1] == rest[i];
      }
    }
  }

  lemma AdoptingNone(s: seq<Fp>, fp: Fp, keyid: KeyId)
    ensures Adopting(s, [], fp, keyid) == s
  {
  }

  lemma AdoptingNext(s: seq<Fp>, ks: seq<Source>, fp: Fp, keyid: KeyId)
    requires ks != []
    ensures Adopting(s, ks, fp, keyid) == Adopting(Step(s, ks[0], fp, keyid), ks[1..], fp, keyid)
  {
  }

  lemma {:induction false} AdoptingAnd(s: seq<Fp>, ks: seq<Source>, last: Source, fp: Fp, keyid: KeyId)
    requires last.primary
    ensures Adopting(s, ks + [last], fp, keyid) == Adopting(s, ks, fp, keyid)
    decreases |ks|
  {
    hide Names, Listed;
    if ks == [] {
      assert ([] + [last])[1..] == [];
    } else {
      assert (ks + [last])[1..] == ks[1..] + [last];
      AdoptingAnd(Step(s, ks[0], fp, keyid), ks[1..], last, fp, keyid);
    }
  }

  /** Binding `i` names the key by fingerprint or by key id. */
  predicate NamesAt(l: L.Layout, i: nat, fp: Fp, keyid: KeyId)
    requires i < |l.sigs|
  {
    && l.sigs[i] in l.subs
    && var sig := l.subs[l.sigs[i]].sig;
       sig.kind == SubkeyBinding && (sig.keyfp == Some(fp) || sig.keyid == Some(keyid))
  }

  ghost predicate Names(l: L.Layout, fp: Fp, keyid: KeyId) {
    exists i :: 0 <= i < |l.sigs| && NamesAt(l, i, fp, keyid)
  }

  lemma OnlyOne(keys: seq<StoredKey>, s: Search, i: nat)
    requires Distinct(keys) && s.ByFp? && i < |keys| && Matches(keys[i], s)
    ensures FirstMatch(keys, s, i + 1) == |keys|
  {
  }
}
