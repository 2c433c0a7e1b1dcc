/** Signatures as a key holds them. Only what the key code looks at is kept; identifiers stand for
    hashes, of which only equality matters. */
module Signatures {
  import opened Options

  type SigId = nat
  type Fp = nat
  /** The all-zero key id is 0. */
  type KeyId = nat
  type UidPkt = nat

  datatype SigType = Cert | Direct | RevKey | RevCert | SubkeyBinding | RevSubkey | Other

  datatype Validity = Validity(validated: bool, valid: bool, expired: bool)

  /** pgp_signature_t: `primary` is a PrimaryUserID subpacket that is present and set. */
  datatype Sig = Sig(id: SigId, kind: SigType, creation: nat, keyExpiration: nat, primary: bool,
                     keyfp: Option<Fp>, keyid: Option<KeyId>, compromised: bool)

  /** pgp_subsig_t: `uid` is the index of the userid it is attached to, or UID_NONE. */
  datatype SubSig = SubSig(sig: Sig, uid: nat, validity: Validity) {
    predicate Valid() {
      validity.validated && validity.valid && !validity.expired
    }
  }

  const UID_NONE: nat := 0xffff_ffff
  const UID_PRIMARY: nat := 0xffff_fffe
  const UID_ANY: nat := 0xffff_fffd

  const NOT_VALIDATED := Validity(false, false, false)
}
