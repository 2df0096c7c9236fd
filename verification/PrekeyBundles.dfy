/** Prekey bundles: their signed octets, and the admission entries carried among their relay hints. */
module PrekeyBundles {
  import opened Admission
  import opened Bytes
  import opened Sequences
  import opened Wrappers

  type Secret = seq<Byte>
  type Hint = seq<Byte>

  datatype IdentityPublic = IdentityPublic(ed: Key, x: Key, crossSig: Sig)

  datatype Bundle = Bundle(
    identity: IdentityPublic,
    spkId: U32,
    spk: Key,
    spkSig: Sig,
    pqspkId: U32,
    pqspk: seq<Byte>,
    pqspkSig: Sig,
    opk: Option<(U32, Key)>,
    expiresAt: U64,
    relayHints: seq<Hint>,
    bundleSig: Sig)

  /** The primitives: a hash, key pairs, signing, and checking a signature. */
  datatype Crypto = Crypto(
    hash: seq<Byte> -> Key,
    publicOf: Secret -> IdentityPublic,
    sign: (Secret, seq<Byte>) -> Sig,
    check: (Key, seq<Byte>, Sig) -> Result<(), Error>)

  /**
   What is taken for granted of them: a signature checks under its own key, and
   an identity signs its agreement key.
   */
  ghost predicate Lawful(c: Crypto) {
    && (forall k: Secret, m: seq<Byte> :: c.check(c.publicOf(k).ed, m, c.sign(k, m)) == Ok(()))
    && (forall k: Secret :: c.publicOf(k).crossSig == c.sign(k, CROSS_SIGN_DOMAIN + c.publicOf(k).x))
  }

  /** Two different inputs on which the hash agrees. */
  ghost predicate Collision(c: Crypto, a: seq<Byte>, b: seq<Byte>) {
    a != b && c.hash(a) == c.hash(b)
  }

  function Ascii(s: string): seq<Byte> {
    seq(|s|, i requires 0 <= i < |s| => s[i] as int % 0x100)
  }

  const DESCRIPTOR_MAGIC: seq<Byte> := [0x4B, 0x41, 0x44, 0x31] // KAD1
  const INVITATION_MAGIC: seq<Byte> := [0x4B, 0x41, 0x49, 0x31] // KAI1
  const DESCRIPTOR_DOMAIN := Ascii("Komms-admission-descriptor-v1")
  const BUNDLE_DIGEST_DOMAIN := Ascii("Komms-admission-bundle-v1")
  const INVITATION_DOMAIN := Ascii("Komms-admission-invitation-v1")
  const BUNDLE_DOMAIN := Ascii("Komms-bundle-v1")
  const SPK_DOMAIN := Ascii("Komms-spk-v1")
  const PQSPK_DOMAIN := Ascii("Komms-pqspk-v1")
  const CROSS_SIGN_DOMAIN := Ascii("Komms-cross-sign-v1")

  const MAX_RELAY_HINTS: nat := 20
  const MAX_RELAY_HINT_BYTES: nat := 4 * 1024
  const MAX_RELAY_HINT_TOTAL_BYTES: nat := 16 * 1024
  const MLKEM768_EK_LEN: nat := 1184

  // ---------------------------------------------------------------- hints

  predicate IsDescriptor(h: Hint) { DESCRIPTOR_MAGIC <= h }
  predicate IsInvitation(h: Hint) { INVITATION_MAGIC <= h }
  predicate NotInvitation(h: Hint) { !IsInvitation(h) }
  predicate Ordinary(h: Hint) { !IsDescriptor(h) && !IsInvitation(h) }

  lemma MagicsDiffer(h: Hint)
    ensures !(IsDescriptor(h) && IsInvitation(h))
  {
    assert DESCRIPTOR_MAGIC[2] != INVITATION_MAGIC[2];
  }

  // --------------------------------------------------------- signed octets

  function OpkBytes(o: Option<(U32, Key)>): seq<Byte> {
    match o
    case None => [0]
    case Some((id, key)) => [1] + (LittleEndian(id, 4) + key)
  }

  /** Each hint after its length, which is cut to four octets. */
  function Framed(hints: seq<Hint>): seq<Byte> {
    if hints == [] then [] else LittleEndian(|hints[0]|, 4) + (hints[0] + Framed(hints[1..]))
  }

  function KeyBytes(b: Bundle): (r: seq<Byte>)
    ensures |r| == 104 + |b.pqspk|
  {
    b.identity.ed + (b.identity.x + (LittleEndian(b.spkId, 4) + (b.spk + (LittleEndian(b.pqspkId, 4) + b.pqspk))))
  }

  function SigningBytesWith(b: Bundle, hints: seq<Hint>): seq<Byte> {
    KeyBytes(b) + (OpkBytes(b.opk) + (LittleEndian(b.expiresAt, 8) + (LittleEndian(|hints|, 4) + Framed(hints))))
  }

  function SigningBytes(b: Bundle): seq<Byte> {
    SigningBytesWith(b, Filter(NotInvitation, b.relayHints))
  }

  function AdmissionSigningBytes(b: Bundle): seq<Byte> {
    SigningBytesWith(b, Filter(Ordinary, b.relayHints))
  }

  function DigestInput(b: Bundle): seq<Byte> { BUNDLE_DIGEST_DOMAIN + AdmissionSigningBytes(b) }

  function Digest(c: Crypto, b: Bundle): Key { c.hash(DigestInput(b)) }

  function Resigned(c: Crypto, b: Bundle, k: Secret): Bundle {
    b.(bundleSig := c.sign(k, BUNDLE_DOMAIN + SigningBytes(b)))
  }

  /** The bounds that verification puts on a bundle before it looks at any signature. */
  predicate Bounded(b: Bundle) {
    |b.pqspk| == MLKEM768_EK_LEN && |b.relayHints| <= MAX_RELAY_HINTS && AllSmall(b.relayHints)
  }

  predicate AllSmall(hints: seq<Hint>) { forall i :: 0 <= i < |hints| ==> |hints[i]| <= MAX_RELAY_HINT_BYTES }

  /** The fields that a digest is taken over: all but the signatures and the admission entries. */
  predicate SameContent(a: Bundle, b: Bundle) {
    SameKeys(a, b) && Filter(Ordinary, a.relayHints) == Filter(Ordinary, b.relayHints)
  }

  /** The same keys, and the same expiry. */
  predicate SameKeys(a: Bundle, b: Bundle) {
    && a.identity.ed == b.identity.ed && a.identity.x == b.identity.x
    && a.spkId == b.spkId && a.spk == b.spk
    && a.pqspkId == b.pqspkId && a.pqspk == b.pqspk
    && a.opk == b.opk && a.expiresAt == b.expiresAt
  }

  lemma KeyBytesInjective(a: Bundle, b: Bundle)
    requires KeyBytes(a) == KeyBytes(b)
    ensures a.identity.ed == b.identity.ed && a.identity.x == b.identity.x
    ensures a.spkId == b.spkId && a.spk == b.spk && a.pqspkId == b.pqspkId && a.pqspk == b.pqspk
  {
    Capacities();
    var a4, b4 := LittleEndian(a.pqspkId, 4) + a.pqspk, LittleEndian(b.pqspkId, 4) + b.pqspk;
    var a2, b2 := LittleEndian(a.spkId, 4) + (a.spk + a4), LittleEndian(b.spkId, 4) + (b.spk + b4);
    SamePrefix(a.identity.ed, a.identity.x + a2, b.identity.ed, b.identity.x + b2);
    SamePrefix(a.identity.x, a2, b.identity.x, b2);
    SamePrefix(LittleEndian(a.spkId, 4), a.spk + a4, LittleEndian(b.spkId, 4), b.spk + b4);
    SamePrefix(a.spk, a4, b.spk, b4);
    SamePrefix(LittleEndian(a.pqspkId, 4), a.pqspk, LittleEndian(b.pqspkId, 4), b.pqspk);
    LittleEndianInjective(a.spkId, b.spkId, 4);
    LittleEndianInjective(a.pqspkId, b.pqspkId, 4);
  }

  lemma OpkInjective(o: Option<(U32, Key)>, p: Option<(U32, Key)>, s: seq<Byte>, t: seq<Byte>)
    requires OpkBytes(o) + s == OpkBytes(p) + t
    ensures o == p && s == t
  {
    Capacities();
    var x, y := OpkBytes(o), OpkBytes(p);
    assert (x + s)[0] == x[0] && (y + t)[0] == y[0];
    SamePrefix(x, s, y, t);
    if o.Some? {
      assert x[1..] == y[1..];
      SamePrefix(LittleEndian(o.value.0, 4), o.value.1, LittleEndian(p.value.0, 4), p.value.1);
      LittleEndianInjective(o.value.0, p.value.0, 4);
    }
  }

  lemma {:induction false} FramedInjective(a: seq<Hint>, b: seq<Hint>)
    requires |a| == |b| && Framed(a) == Framed(b)
    requires forall h :: h in a || h in b ==> |h| <= MAX_RELAY_HINT_BYTES
    ensures a == b
  {
    if a != [] {
      Capacities();
      var ra, rb := Framed(a[1..]), Framed(b[1..]);
      SamePrefix(LittleEndian(|a[0]|, 4), a[0] + ra, LittleEndian(|b[0]|, 4), b[0] + rb);
      LittleEndianInjective(|a[0]|, |b[0]|, 4);
      SamePrefix(a[0], ra, b[0], rb);
      FramedInjective(a[1..], b[1..]);
      assert a == [a[0]] + a[1..] && b == [b[0]] + b[1..];
    }
  }

  /** The octets to be signed with some hints determine the keys, the expiry and those hints. */
  lemma SigningBytesInjective(a: Bundle, ha: seq<Hint>, b: Bundle, hb: seq<Hint>)
    requires |a.pqspk| == |b.pqspk| && |ha| <= MAX_RELAY_HINTS && |hb| <= MAX_RELAY_HINTS
    requires forall h :: h in ha || h in hb ==> |h| <= MAX_RELAY_HINT_BYTES
    requires SigningBytesWith(a, ha) == SigningBytesWith(b, hb)
    ensures SameKeys(a, b) && ha == hb
  {
    Capacities();
    var ta, tb := LittleEndian(|ha|, 4) + Framed(ha), LittleEndian(|hb|, 4) + Framed(hb);
    var ea, eb := LittleEndian(a.expiresAt, 8) + ta, LittleEndian(b.expiresAt, 8) + tb;
    SamePrefix(KeyBytes(a), OpkBytes(a.opk) + ea, KeyBytes(b), OpkBytes(b.opk) + eb);
    KeyBytesInjective(a, b);
    OpkInjective(a.opk, b.opk, ea, eb);
    SamePrefix(LittleEndian(a.expiresAt, 8), ta, LittleEndian(b.expiresAt, 8), tb);
    LittleEndianInjective(a.expiresAt, b.expiresAt, 8);
    SamePrefix(LittleEndian(|ha|, 4), Framed(ha), LittleEndian(|hb|, 4), Framed(hb));
    LittleEndianInjective(|ha|, |hb|, 4);
    FramedInjective(ha, hb);
  }

  /** Bounded bundles with the same octets under the digest have the same content. */
  lemma DigestInputInjective(a: Bundle, b: Bundle)
    requires Bounded(a) && Bounded(b) && DigestInput(a) == DigestInput(b)
    ensures SameContent(a, b)
  {
    SamePrefix(BUNDLE_DIGEST_DOMAIN, AdmissionSigningBytes(a), BUNDLE_DIGEST_DOMAIN, AdmissionSigningBytes(b));
    FilterMembers(Ordinary, a.relayHints);
    FilterMembers(Ordinary, b.relayHints);
    SigningBytesInjective(a, Filter(Ordinary, a.relayHints), b, Filter(Ordinary, b.relayHints));
  }
}
