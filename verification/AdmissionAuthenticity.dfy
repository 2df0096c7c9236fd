/** Whose word a verified bundle is: everything in it was signed by its identity, and signed as what it is taken for. */
module AdmissionAuthenticity {
  import opened Admission
  import opened AdmissionFlow
  import opened AdmissionTheorems
  import opened Bytes
  import opened PrekeyBundles
  import opened PublicAdmission
  import opened Sequences
  import opened Wrappers

  /** What an identity puts its signature to. */
  datatype Statement =
    | AgreementKey(x: Key)
    | SignedPrekey(id: U32, key: Key)
    | PostQuantumPrekey(id: U32, ek: seq<Byte>)
    | Contents(bundle: Bundle)
    | Policies(descriptor: Descriptor)

  function Message(s: Statement): seq<Byte> {
    match s
    case AgreementKey(x) => CROSS_SIGN_DOMAIN + x
    case SignedPrekey(id, key) => SPK_DOMAIN + (LittleEndian(id, 4) + key)
    case PostQuantumPrekey(id, ek) => PQSPK_DOMAIN + (LittleEndian(id, 4) + ek)
    case Contents(b) => BUNDLE_DOMAIN + SigningBytes(b)
    case Policies(d) => DESCRIPTOR_DOMAIN + Canonical(d)
  }

  /** The character in which the domains differ. */
  function Mark(s: Statement): Byte {
    match s
    case AgreementKey(_) => 'c' as int
    case SignedPrekey(_, _) => 's' as int
    case PostQuantumPrekey(_, _) => 'p' as int
    case Contents(_) => 'b' as int
    case Policies(_) => 'a' as int
  }

  lemma MessageMarked(s: Statement)
    ensures |Message(s)| > 6 && Message(s)[6] == Mark(s)
  {
    assert "Komms-cross-sign-v1"[6] == 'c' && "Komms-spk-v1"[6] == 's' && "Komms-pqspk-v1"[6] == 'p';
    assert "Komms-bundle-v1"[6] == 'b' && "Komms-admission-descriptor-v1"[6] == 'a';
  }

  /** A signature on one kind of statement is never one on another kind. */
  lemma KindsApart(s: Statement, t: Statement)
    requires Message(s) == Message(t)
    ensures s.AgreementKey? == t.AgreementKey? && s.SignedPrekey? == t.SignedPrekey?
    ensures s.PostQuantumPrekey? == t.PostQuantumPrekey? && s.Contents? == t.Contents? && s.Policies? == t.Policies?
  {
    MessageMarked(s);
    MessageMarked(t);
  }

  lemma KeyStatementsInjective(s: Statement, t: Statement)
    requires Message(s) == Message(t) && !s.Contents? && !s.Policies?
    ensures s == t
  {
    KindsApart(s, t);
    Capacities();
    match s
    case AgreementKey(x) => SamePrefix(CROSS_SIGN_DOMAIN, x, CROSS_SIGN_DOMAIN, t.x);
    case SignedPrekey(id, key) =>
      SamePrefix(SPK_DOMAIN, LittleEndian(id, 4) + key, SPK_DOMAIN, LittleEndian(t.id, 4) + t.key);
      SamePrefix(LittleEndian(id, 4), key, LittleEndian(t.id, 4), t.key);
      LittleEndianInjective(id, t.id, 4);
    case PostQuantumPrekey(id, ek) =>
      SamePrefix(PQSPK_DOMAIN, LittleEndian(id, 4) + ek, PQSPK_DOMAIN, LittleEndian(t.id, 4) + t.ek);
      SamePrefix(LittleEndian(id, 4), ek, LittleEndian(t.id, 4), t.ek);
      LittleEndianInjective(id, t.id, 4);
  }

  /** Nothing checks under the key but what was said with it. */
  ghost predicate OnlySaid(c: Crypto, key: Key, said: iset<Statement>) {
    forall m, sig :: c.check(key, m, sig) == Ok(()) ==> exists s :: s in said && Message(s) == m
  }

  lemma KeyWasSaid(c: Crypto, key: Key, said: iset<Statement>, s: Statement, sig: Sig)
    requires OnlySaid(c, key, said) && c.check(key, Message(s), sig) == Ok(()) && !s.Contents? && !s.Policies?
    ensures s in said
  {
    var t :| t in said && Message(t) == Message(s);
    KeyStatementsInjective(s, t);
  }

  /** The descriptor is one that was signed, apart from the signature it carries. */
  ghost predicate SaidDescriptor(d: Descriptor, said: iset<Statement>) {
    exists e :: Policies(e) in said && d == e.(signature := d.signature)
  }

  lemma DescriptorWasSaid(c: Crypto, key: Key, said: iset<Statement>, d: Descriptor, sig: Sig)
    requires OnlySaid(c, key, said) && c.check(key, DESCRIPTOR_DOMAIN + Canonical(d), sig) == Ok(())
    ensures SaidDescriptor(d, said)
  {
    var s := Policies(d);
    assert Message(s) == DESCRIPTOR_DOMAIN + Canonical(d);
    var t :| t in said && Message(t) == Message(s);
    KindsApart(s, t);
    SamePrefix(DESCRIPTOR_DOMAIN, Canonical(d), DESCRIPTOR_DOMAIN, Canonical(t.descriptor));
    CanonicalInjective(d, t.descriptor);
    assert t == Policies(t.descriptor);
  }

  /** The bundle is one that was signed, apart from signatures and invitation. */
  ghost predicate SaidContents(b: Bundle, said: iset<Statement>) {
    exists e :: Contents(e) in said && SigningBytes(e) == SigningBytes(b)
  }

  lemma ContentsWereSaid(c: Crypto, key: Key, said: iset<Statement>, b: Bundle, sig: Sig)
    requires OnlySaid(c, key, said) && c.check(key, BUNDLE_DOMAIN + SigningBytes(b), sig) == Ok(())
    ensures SaidContents(b, said)
  {
    var s := Contents(b);
    assert Message(s) == BUNDLE_DOMAIN + SigningBytes(b);
    var t :| t in said && Message(t) == Message(s);
    KindsApart(s, t);
    SamePrefix(BUNDLE_DOMAIN, SigningBytes(b), BUNDLE_DOMAIN, SigningBytes(t.bundle));
    assert t == Contents(t.bundle);
  }

  /** The octets under a bounded bundle's signature are those of no other bounded bundle, its invitation apart. */
  lemma ContentsDetermined(a: Bundle, b: Bundle)
    requires Bounded(a) && Bounded(b) && SigningBytes(a) == SigningBytes(b)
    ensures SameKeys(a, b) && Filter(NotInvitation, a.relayHints) == Filter(NotInvitation, b.relayHints)
  {
    FilterMembers(NotInvitation, a.relayHints);
    FilterMembers(NotInvitation, b.relayHints);
    SigningBytesInjective(a, Filter(NotInvitation, a.relayHints), b, Filter(NotInvitation, b.relayHints));
  }

  /**
   If nothing checks under a key but what its owner said, a bundle that passes
   under it is the owner's in every part: both prekeys, the agreement key, the
   contents and the admission policy were each signed, and as what they are.
   */
  lemma PassedWasSaid(c: Crypto, b: Bundle, t: U64, v: Verified, said: iset<Statement>)
    requires PublicVerdict(c, b, t) == Ok(v) && OnlySaid(c, b.identity.ed, said)
    ensures AgreementKey(b.identity.x) in said && SignedPrekey(b.spkId, b.spk) in said
    ensures PostQuantumPrekey(b.pqspkId, b.pqspk) in said
    ensures SaidContents(b, said) && SaidDescriptor(v.descriptor, said)
  {
    var key := b.identity.ed;
    PublicExact(c, b, t, v);
    VerdictExact(c, b, t, v);
    KeyWasSaid(c, key, said, AgreementKey(b.identity.x), b.identity.crossSig);
    KeyWasSaid(c, key, said, SignedPrekey(b.spkId, b.spk), b.spkSig);
    KeyWasSaid(c, key, said, PostQuantumPrekey(b.pqspkId, b.pqspk), b.pqspkSig);
    ContentsWereSaid(c, key, said, b, b.bundleSig);
    DescriptorWasSaid(c, key, said, v.descriptor, v.descriptor.signature);
  }

  /** A policy that was never signed is never verified, whatever bundle carries it. */
  lemma UnsaidNeverPasses(c: Crypto, b: Bundle, t: U64, v: Verified, said: iset<Statement>)
    requires OnlySaid(c, b.identity.ed, said) && !SaidDescriptor(v.descriptor, said)
    ensures Verdict(c, b, t) != Ok(v)
  {
    VerdictExact(c, b, t, v);
    if Verdict(c, b, t) == Ok(v) {
      DescriptorWasSaid(c, b.identity.ed, said, v.descriptor, v.descriptor.signature);
    }
  }
}
