/** Attaching admission to a bundle, and verifying it. */
module AdmissionFlow {
  import opened Admission
  import opened Bytes
  import opened PrekeyBundles
  import opened Sequences
  import opened Wrappers

  const U64_MAX: U64 := 0xFFFF_FFFF_FFFF_FFFF

  function SaturatingAdd(a: U64, b: U64): U64 {
    if a + b <= U64_MAX then a + b else U64_MAX
  }

  function CheckedMul(a: U64, b: U64): Option<U64> {
    if a * b <= U64_MAX then Some(a * b) else None
  }

  // ---------------------------------------------------- one descriptor

  /** The window over the unbounded integers; time zero asks for no check. */
  predicate InWindow(d: Descriptor, now: U64) {
    || now == 0
    || (d.validityEpoch * EPOCH_SECS <= now + d.maxClockSkewSecs && now <= d.expiresAt + d.maxClockSkewSecs)
  }

  /** The policy is valid and the descriptor does not expire before the epoch it was issued in. */
  predicate Coherent(d: Descriptor) {
    ValidPolicy(PolicyOf(d)) && d.version == DESCRIPTOR_VERSION && d.validityEpoch <= d.expiresAt / EPOCH_SECS
  }

  function DescriptorVerdict(c: Crypto, d: Descriptor, recipient: IdentityPublic, now: U64): Result<(), Error> {
    if !Coherent(d) || !InWindow(d, now) then Err(InvalidBundle)
    else c.check(recipient.ed, DESCRIPTOR_DOMAIN + Canonical(d), d.signature)
  }

  /** The saturating arithmetic decides as the unbounded one does, and the product never overflows. */
  method VerifyDescriptor(c: Crypto, d: Descriptor, recipient: IdentityPublic, now: U64) returns (r: Result<(), Error>)
    ensures r == DescriptorVerdict(c, d, recipient, now)
  {
    r := Validate(PolicyOf(d));
    if r.Err? { return; }
    if d.version != DESCRIPTOR_VERSION || d.puzzleProfile != Sha256LeadingZeroBits
       || d.expiresAt / EPOCH_SECS < d.validityEpoch
    {
      return Err(InvalidBundle);
    }
    var epochStart := CheckedMul(d.validityEpoch, EPOCH_SECS);
    assert epochStart.Some?; // so the program's overflow branch is never taken
    if now != 0
       && (SaturatingAdd(now, d.maxClockSkewSecs) < epochStart.value
           || now > SaturatingAdd(d.expiresAt, d.maxClockSkewSecs))
    {
      return Err(InvalidBundle);
    }
    var canonical := BuildCanonical(d);
    r := c.check(recipient.ed, DESCRIPTOR_DOMAIN + canonical, d.signature);
  }

  // ---------------------------------------------------------- invitations

  function CommitmentInput(recipient: Key, digest: Key, epoch: U64, expires: U64, invitation: Key): seq<Byte> {
    INVITATION_DOMAIN + (recipient + (digest + (LittleEndian(epoch, 8) + (LittleEndian(expires, 8) + invitation))))
  }

  function Commitment(c: Crypto, recipient: Key, digest: Key, epoch: U64, expires: U64, invitation: Key): Key {
    c.hash(CommitmentInput(recipient, digest, epoch, expires, invitation))
  }

  lemma CommitmentInputInjective(r: Key, d: Key, e: U64, x: U64, i: Key, r': Key, d': Key, e': U64, x': U64, i': Key)
    requires CommitmentInput(r, d, e, x, i) == CommitmentInput(r', d', e', x', i')
    ensures r == r' && d == d' && e == e' && x == x' && i == i'
  {
    Capacities();
    var t3, u3 := LittleEndian(x, 8) + i, LittleEndian(x', 8) + i';
    var t2, u2 := LittleEndian(e, 8) + t3, LittleEndian(e', 8) + u3;
    SamePrefix(INVITATION_DOMAIN, r + (d + t2), INVITATION_DOMAIN, r' + (d' + u2));
    SamePrefix(r, d + t2, r', d' + u2);
    SamePrefix(d, t2, d', u2);
    SamePrefix(LittleEndian(e, 8), t3, LittleEndian(e', 8), u3);
    SamePrefix(LittleEndian(x, 8), i, LittleEndian(x', 8), i');
    LittleEndianInjective(e, e', 8);
    LittleEndianInjective(x, x', 8);
  }

  // ------------------------------------------------------------ attaching

  predicate MayAttach(c: Crypto, b: Bundle, k: Secret, now: U64, policy: Policy) {
    ValidPolicy(policy) && b.identity == c.publicOf(k) && now <= b.expiresAt
  }

  function CommitmentFor(c: Crypto, b: Bundle, now: U64, invitation: Option<Key>): Option<Key> {
    match invitation
    case None => None
    case Some(s) => Some(Commitment(c, b.identity.ed, Digest(c, b), now / EPOCH_SECS, b.expiresAt, s))
  }

  function Unsigned(c: Crypto, b: Bundle, now: U64, policy: Policy, invitation: Option<Key>): Descriptor {
    Descriptor(DESCRIPTOR_VERSION, Digest(c, b), now / EPOCH_SECS, b.expiresAt, policy.maxClockSkewSecs,
               Sha256LeadingZeroBits, policy.difficulty, policy.maxFirstCiphertext,
               CommitmentFor(c, b, now, invitation), policy.tokenIssuers, seq(64, _ => 0))
  }

  /** The descriptor that an attach puts into the bundle. */
  function Issued(c: Crypto, b: Bundle, k: Secret, now: U64, policy: Policy, invitation: Option<Key>): Descriptor {
    var d := Unsigned(c, b, now, policy, invitation);
    d.(signature := c.sign(k, DESCRIPTOR_DOMAIN + Canonical(d)))
  }

  function InvitationHints(invitation: Option<Key>): seq<Hint> {
    match invitation
    case None => []
    case Some(s) => [INVITATION_MAGIC + s]
  }

  function Attached(c: Crypto, b: Bundle, k: Secret, now: U64, policy: Policy, invitation: Option<Key>): Bundle {
    var hints := Filter(Ordinary, b.relayHints)
                 + [DESCRIPTOR_MAGIC + Encode(Issued(c, b, k, now, policy, invitation))] + InvitationHints(invitation);
    Resigned(c, b.(relayHints := hints), k)
  }

  lemma {:induction false} OrdinaryOnce(hints: seq<Hint>)
    ensures Filter(Ordinary, Filter(Ordinary, hints)) == Filter(Ordinary, hints)
    ensures Filter(IsDescriptor, Filter(Ordinary, hints)) == []
    ensures Filter(IsInvitation, Filter(Ordinary, hints)) == []
  {
    FilterWithin(Ordinary, Ordinary, hints);
    FilterNone(IsDescriptor, Ordinary, hints);
    FilterNone(IsInvitation, Ordinary, hints);
  }

  /** A bundle whose hints and signature change in place. */
  class PrekeyBundle {
    const fixed: Bundle
    var relayHints: seq<Hint>
    var bundleSig: Sig

    function Value(): Bundle
      reads this
    {
      fixed.(relayHints := relayHints, bundleSig := bundleSig)
    }

    constructor (b: Bundle)
      ensures Value() == b
    {
      fixed, relayHints, bundleSig := b, b.relayHints, b.bundleSig;
    }

    /** Succeeds exactly when policy, identity and expiry allow it; otherwise nothing has changed. */
    method AttachAdmission(c: Crypto, k: Secret, now: U64, policy: Policy, invitation: Option<Key>)
      returns (r: Result<(), Error>)
      modifies this
      ensures r == if MayAttach(c, old(Value()), k, now, policy) then Ok(()) else Err(InvalidBundle)
      ensures Value() == if r.Ok? then Attached(c, old(Value()), k, now, policy, invitation) else old(Value())
    {
      r := Validate(policy);
      if r.Err? { return; }
      if fixed.identity != c.publicOf(k) || now > fixed.expiresAt { return Err(InvalidBundle); }
      ghost var was := Value();
      relayHints := Filter(Ordinary, relayHints);
      OrdinaryOnce(was.relayHints);
      var digest := Digest(c, Value());
      var epoch := now / EPOCH_SECS;
      var commitment := None;
      if invitation.Some? {
        commitment := Some(Commitment(c, fixed.identity.ed, digest, epoch, fixed.expiresAt, invitation.value));
      }
      var descriptor := Descriptor(DESCRIPTOR_VERSION, digest, epoch, fixed.expiresAt, policy.maxClockSkewSecs,
                                   Sha256LeadingZeroBits, policy.difficulty, policy.maxFirstCiphertext, commitment,
                                   policy.tokenIssuers, seq(64, _ => 0));
      assert descriptor == Unsigned(c, was, now, policy, invitation);
      var canonical := BuildCanonical(descriptor);
      descriptor := descriptor.(signature := c.sign(k, DESCRIPTOR_DOMAIN + canonical));
      var encoded := Encode(descriptor);
      EncodeFits(descriptor);
      assert |encoded| <= MAX_DESCRIPTOR_BYTES; // so the size check that follows in the program never fails
      relayHints := relayHints + [DESCRIPTOR_MAGIC + encoded];
      if invitation.Some? {
        relayHints := relayHints + [INVITATION_MAGIC + invitation.value];
      }
      assert relayHints == Attached(c, was, k, now, policy, invitation).relayHints;
      bundleSig := Resigned(c, Value(), k).bundleSig;
      r := Ok(());
    }
  }

  // ------------------------------------------------------------ verifying

  datatype Verified = Verified(descriptor: Descriptor, invitation: Option<Key>)

  /** The entries read so far. */
  datatype Found = Found(descriptor: Option<Descriptor>, invitation: Option<Key>)

  /** Takes one hint into account. */
  function Take(f: Found, h: Hint): Result<Found, Error> {
    if IsDescriptor(h) then
      if f.descriptor.Some? || |h| - 4 > MAX_DESCRIPTOR_BYTES then Err(InvalidBundle)
      else
        match Decode(h[4..])
        case None => Err(Serialization)
        case Some((d, rest)) => if rest != [] then Err(Serialization) else Ok(f.(descriptor := Some(d)))
    else if IsInvitation(h) then
      if f.invitation.Some? || |h| != 36 then Err(InvalidBundle) else Ok(f.(invitation := Some(h[4..])))
    else Ok(f)
  }

  function Scan(f: Found, hints: seq<Hint>): Result<Found, Error>
    decreases |hints|
  {
    if hints == [] then Ok(f)
    else
      var g :- Take(f, hints[0]);
      Scan(g, hints[1..])
  }

  function CommitmentAgrees(c: Crypto, b: Bundle, v: Verified): bool {
    match v.invitation
    case None => true
    case Some(s) =>
      var d := v.descriptor;
      d.invitationCommitment == Some(Commitment(c, b.identity.ed, d.bundleDigest, d.validityEpoch, d.expiresAt, s))
  }

  function Concluded(c: Crypto, b: Bundle, f: Found, now: U64): Result<Verified, Error> {
    if f.descriptor.None? then Err(InvalidBundle) else
    var d := f.descriptor.value;
    var _ :- DescriptorVerdict(c, d, b.identity, now);
    var v := Verified(d, f.invitation);
    if d.bundleDigest != Digest(c, b) || d.expiresAt != b.expiresAt
       || !CommitmentAgrees(c, b, v) then Err(InvalidBundle)
    else Ok(v)
  }

  function Verdict(c: Crypto, b: Bundle, now: U64): Result<Verified, Error> {
    var f :- Scan(Found(None, None), b.relayHints);
    Concluded(c, b, f, now)
  }

  method VerifyAdmission(c: Crypto, b: Bundle, now: U64) returns (r: Result<Verified, Error>)
    ensures r == Verdict(c, b, now)
  {
    var f := Found(None, None);
    for i := 0 to |b.relayHints|
      invariant Scan(Found(None, None), b.relayHints) == Scan(f, b.relayHints[i..])
    {
      assert b.relayHints[i..][0] == b.relayHints[i] && b.relayHints[i..][1..] == b.relayHints[i + 1..];
      var hint := b.relayHints[i];
      if IsDescriptor(hint) {
        var encoded := hint[4..];
        if f.descriptor.Some? || |encoded| > MAX_DESCRIPTOR_BYTES { return Err(InvalidBundle); }
        var decoded := Decode(encoded);
        if decoded.None? { return Err(Serialization); }
        if decoded.value.1 != [] { return Err(Serialization); }
        f := f.(descriptor := Some(decoded.value.0));
      } else if IsInvitation(hint) {
        if f.invitation.Some? || |hint[4..]| != 32 { return Err(InvalidBundle); }
        f := f.(invitation := Some(hint[4..]));
      }
    }
    if f.descriptor.None? { return Err(InvalidBundle); }
    var d := f.descriptor.value;
    var signed := VerifyDescriptor(c, d, b.identity, now);
    if signed.Err? { return Err(signed.error); }
    if d.bundleDigest != Digest(c, b) || d.expiresAt != b.expiresAt { return Err(InvalidBundle); }
    match (d.invitationCommitment, f.invitation) {
      case (Some(expected), Some(secret)) =>
        if expected != Commitment(c, b.identity.ed, d.bundleDigest, d.validityEpoch, d.expiresAt, secret) {
          return Err(InvalidBundle);
        }
      case (None, Some(_)) => return Err(InvalidBundle);
      case (_, None) =>
    }
    return Ok(Verified(d, f.invitation));
  }
}
