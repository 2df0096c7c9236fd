/** What attaching and verifying admission guarantee together. */
module AdmissionTheorems {
  import opened Admission
  import opened AdmissionFlow
  import opened Bytes
  import opened PrekeyBundles
  import opened Sequences
  import opened Wrappers

  // --------------------------------------------------- what a scan accepts

  /** `h` is a descriptor entry that holds exactly `d`. */
  predicate HoldsDescriptor(h: Hint, d: Descriptor) {
    IsDescriptor(h) && |h| - 4 <= MAX_DESCRIPTOR_BYTES && Decode(h[4..]) == Some((d, []))
  }

  predicate HoldsInvitation(h: Hint, s: Key) {
    IsInvitation(h) && |h| == 36 && h[4..] == s
  }

  /** The descriptor entries `ds` take the reader from `was` to `now`. */
  predicate ReadsDescriptors(ds: seq<Hint>, was: Option<Descriptor>, now: Option<Descriptor>) {
    || (ds == [] && now == was)
    || (|ds| == 1 && was.None? && now.Some? && HoldsDescriptor(ds[0], now.value))
  }

  predicate ReadsInvitations(vs: seq<Hint>, was: Option<Key>, now: Option<Key>) {
    || (vs == [] && now == was)
    || (|vs| == 1 && was.None? && now.Some? && HoldsInvitation(vs[0], now.value))
  }

  predicate Reads(hints: seq<Hint>, f: Found, g: Found) {
    && ReadsDescriptors(Filter(IsDescriptor, hints), f.descriptor, g.descriptor)
    && ReadsInvitations(Filter(IsInvitation, hints), f.invitation, g.invitation)
  }

  lemma TakeExact(f: Found, h: Hint, g: Found)
    ensures Take(f, h) == Ok(g) <==>
            ReadsDescriptors(if IsDescriptor(h) then [h] else [], f.descriptor, g.descriptor)
            && ReadsInvitations(if IsInvitation(h) then [h] else [], f.invitation, g.invitation)
  {
    MagicsDiffer(h);
  }

  /** A scan succeeds with `g` exactly when each kind of entry occurs at most once and reads as `g` says. */
  lemma {:induction false} ScanExact(f: Found, hints: seq<Hint>, g: Found)
    ensures Scan(f, hints) == Ok(g) <==> Reads(hints, f, g)
    decreases |hints|
  {
    if hints != [] {
      var h, rest := hints[0], hints[1..];
      MagicsDiffer(h);
      var t := Take(f, h);
      if t.Ok? {
        TakeExact(f, h, t.value);
        ScanExact(t.value, rest, g);
      } else if Reads(hints, f, g) {
        TakeFailsIfUnread(f, h, rest, g);
      }
    }
  }

  lemma TakeFailsIfUnread(f: Found, h: Hint, rest: seq<Hint>, g: Found)
    requires Take(f, h).Err?
    ensures !Reads([h] + rest, f, g)
  {
  }

  /** The version is the known one and every limit is within bounds; the issuers are in order. */
  predicate WithinLimits(d: Descriptor) {
    && d.version == 1 && 8 <= d.difficulty <= 20 && 1 <= d.maxFirstCiphertext <= 16384
    && d.maxClockSkewSecs <= 21600 && |d.tokenIssuers| <= 4
    && forall i :: 0 < i < |d.tokenIssuers| ==> Less(d.tokenIssuers[i - 1], d.tokenIssuers[i])
  }

  /** Its epoch starts no later than the skew from now, and it expired no earlier; zero asks for no check. */
  predicate Timely(d: Descriptor, now: U64) {
    && d.validityEpoch * 3600 <= d.expiresAt
    && (now == 0 || d.validityEpoch * 3600 - d.maxClockSkewSecs <= now <= d.expiresAt + d.maxClockSkewSecs)
  }

  /** What is read is in order in itself, signed by the bundle's identity, and about the bundle it was read from. */
  predicate Agrees(c: Crypto, b: Bundle, now: U64, v: Verified) {
    var d := v.descriptor;
    && WithinLimits(d) && Timely(d, now)
    && c.check(b.identity.ed, DESCRIPTOR_DOMAIN + Canonical(d), d.signature) == Ok(())
    && d.bundleDigest == Digest(c, b) && d.expiresAt == b.expiresAt
    && (v.invitation.Some? ==>
          && d.invitationCommitment.Some?
          && d.invitationCommitment.value ==
             c.hash(CommitmentInput(b.identity.ed, d.bundleDigest, d.validityEpoch, d.expiresAt, v.invitation.value)))
  }

  lemma LimitsExact(d: Descriptor)
    ensures ValidPolicy(PolicyOf(d)) && d.version == DESCRIPTOR_VERSION <==> WithinLimits(d)
  {
    var keys := d.tokenIssuers;
    if WithinLimits(d) {
      assert forall k :: 0 <= k < |keys| - 1 ==> Less(keys[k], keys[k + 1]);
      forall i, j | 0 <= i < j < |keys| ensures Less(keys[i], keys[j]) { NeighboursAscend(keys, i, j); }
    }
  }

  lemma TimelyExact(d: Descriptor, now: U64)
    ensures d.validityEpoch <= d.expiresAt / EPOCH_SECS && InWindow(d, now) <==> Timely(d, now)
  {
  }

  lemma PassedIsOk(r: Result<(), Error>)
    ensures r.Ok? <==> r == Ok(())
  {
    if r.Ok? { assert r.value == (); }
  }

  lemma ConcludedExact(c: Crypto, b: Bundle, f: Found, now: U64, v: Verified)
    ensures Concluded(c, b, f, now) == Ok(v) <==> f == Found(Some(v.descriptor), v.invitation) && Agrees(c, b, now, v)
  {
    var d := v.descriptor;
    LimitsExact(d);
    TimelyExact(d, now);
    PassedIsOk(c.check(b.identity.ed, DESCRIPTOR_DOMAIN + Canonical(d), d.signature));
  }

  /** Verification succeeds exactly when the entries read as `v` and `v` agrees with the bundle. */
  lemma VerdictExact(c: Crypto, b: Bundle, now: U64, v: Verified)
    ensures Verdict(c, b, now) == Ok(v) <==>
            Reads(b.relayHints, Found(None, None), Found(Some(v.descriptor), v.invitation)) && Agrees(c, b, now, v)
  {
    ScanExact(Found(None, None), b.relayHints, Found(Some(v.descriptor), v.invitation));
    var s := Scan(Found(None, None), b.relayHints);
    if s.Ok? { ConcludedExact(c, b, s.value, now, v); }
  }

  // -------------------------------------------------------- the round trip

  lemma AttachedHints(c: Crypto, b: Bundle, k: Secret, now: U64, policy: Policy, invitation: Option<Key>)
    ensures var a := Attached(c, b, k, now, policy, invitation);
            && Filter(Ordinary, a.relayHints) == Filter(Ordinary, b.relayHints)
            && Filter(IsDescriptor, a.relayHints) ==
              [DESCRIPTOR_MAGIC + Encode(Issued(c, b, k, now, policy, invitation))]
            && Filter(IsInvitation, a.relayHints) == InvitationHints(invitation)
  {
    var o := Filter(Ordinary, b.relayHints);
    var h := DESCRIPTOR_MAGIC + Encode(Issued(c, b, k, now, policy, invitation));
    OrdinaryOnce(b.relayHints);
    KindsSplit(Ordinary, o, h, invitation);
    KindsSplit(IsDescriptor, o, h, invitation);
    KindsSplit(IsInvitation, o, h, invitation);
    MagicsDiffer(h);
    if invitation.Some? { MagicsDiffer(INVITATION_MAGIC + invitation.value); }
  }

  lemma KindsSplit(p: Hint -> bool, o: seq<Hint>, h: Hint, invitation: Option<Key>)
    ensures Filter(p, o + [h] + InvitationHints(invitation)) ==
            Filter(p, o) + (if p(h) then [h] else [])
            + (if invitation.Some? && p(INVITATION_MAGIC + invitation.value) then InvitationHints(invitation) else [])
  {
    FilterConcat(p, o + [h], InvitationHints(invitation));
    FilterConcat(p, o, [h]);
  }

  lemma AttachedReads(c: Crypto, b: Bundle, k: Secret, now: U64, policy: Policy, invitation: Option<Key>)
    requires ValidPolicy(policy)
    ensures var d := Issued(c, b, k, now, policy, invitation);
            Reads(Attached(c, b, k, now, policy, invitation).relayHints, Found(None, None), Found(Some(d), invitation))
  {
    var d := Issued(c, b, k, now, policy, invitation);
    AttachedHints(c, b, k, now, policy, invitation);
    EncodeReads(d);
    EncodeFits(d);
    var h := DESCRIPTOR_MAGIC + Encode(d);
    assert h[4..] == Encode(d);
    if invitation.Some? { assert (INVITATION_MAGIC + invitation.value)[4..] == invitation.value; }
  }

  /** What is issued says what was asked for, about this bundle, in the epoch of the moment. */
  lemma IssuedSays(c: Crypto, b: Bundle, k: Secret, now: U64, policy: Policy, invitation: Option<Key>)
    ensures var d := Issued(c, b, k, now, policy, invitation);
            && d.difficulty == policy.difficulty && d.maxFirstCiphertext == policy.maxFirstCiphertext
            && d.maxClockSkewSecs == policy.maxClockSkewSecs && d.tokenIssuers == policy.tokenIssuers
            && d.version == 1 && d.validityEpoch * 3600 <= now < (d.validityEpoch + 1) * 3600
            && d.expiresAt == b.expiresAt && d.bundleDigest == Digest(c, b)
            && (d.invitationCommitment.Some? <==> invitation.Some?)
  {
  }

  /** The descriptor is part of nothing that its own signature or digest covers. */
  lemma IssuedSigned(c: Crypto, b: Bundle, k: Secret, now: U64, policy: Policy, invitation: Option<Key>)
    requires Lawful(c) && MayAttach(c, b, k, now, policy)
    ensures var d := Issued(c, b, k, now, policy, invitation);
            && Coherent(d)
            && c.check(b.identity.ed, DESCRIPTOR_DOMAIN + Canonical(d), d.signature) == Ok(())
  {
  }

  lemma AttachedDigest(c: Crypto, b: Bundle, k: Secret, now: U64, policy: Policy, invitation: Option<Key>)
    ensures Digest(c, Attached(c, b, k, now, policy, invitation)) == Digest(c, b)
  {
    AttachedHints(c, b, k, now, policy, invitation);
    var a := Attached(c, b, k, now, policy, invitation);
    assert KeyBytes(a) == KeyBytes(b);
  }

  /**
   Whatever was attached verifies at exactly the times in its window, over the
   unbounded integers, and gives back the issued descriptor and the invitation.
   */
  lemma AttachedVerifies(c: Crypto, b: Bundle, k: Secret, now: U64, policy: Policy, invitation: Option<Key>, t: U64)
    requires Lawful(c) && MayAttach(c, b, k, now, policy)
    ensures var a := Attached(c, b, k, now, policy, invitation);
            var epochStart := now / EPOCH_SECS * EPOCH_SECS;
            Verdict(c, a, t) ==
            if t == 0 || (epochStart <= t + policy.maxClockSkewSecs && t <= b.expiresAt + policy.maxClockSkewSecs)
            then Ok(Verified(Issued(c, b, k, now, policy, invitation), invitation))
            else Err(InvalidBundle)
  {
    var a, d := Attached(c, b, k, now, policy, invitation), Issued(c, b, k, now, policy, invitation);
    AttachedReads(c, b, k, now, policy, invitation);
    ScanExact(Found(None, None), a.relayHints, Found(Some(d), invitation));
    IssuedSigned(c, b, k, now, policy, invitation);
    AttachedDigest(c, b, k, now, policy, invitation);
    assert CommitmentAgrees(c, a, Verified(d, invitation));
  }

  // ------------------------------------------------------- repeated attach

  datatype Attach = Attach(k: Secret, now: U64, policy: Policy, invitation: Option<Key>)

  /** A call that is refused changes nothing. */
  function AfterCall(c: Crypto, b: Bundle, a: Attach): Bundle {
    if MayAttach(c, b, a.k, a.now, a.policy) then Attached(c, b, a.k, a.now, a.policy, a.invitation) else b
  }

  function AfterCalls(c: Crypto, b: Bundle, calls: seq<Attach>): Bundle
    decreases |calls|
  {
    if calls == [] then b else AfterCalls(c, AfterCall(c, b, calls[0]), calls[1..])
  }

  /** Exactly one descriptor and at most one invitation. */
  predicate Tidy(b: Bundle) {
    |Filter(IsDescriptor, b.relayHints)| == 1 && |Filter(IsInvitation, b.relayHints)| <= 1
  }

  predicate SomeAllowed(c: Crypto, b: Bundle, calls: seq<Attach>) {
    exists i :: 0 <= i < |calls| && MayAttach(c, b, calls[i].k, calls[i].now, calls[i].policy)
  }

  /** However often it is called, ordinary hints keep their order and one allowed call leaves the bundle tidy. */
  lemma {:induction false} CallsKeepOrdinary(c: Crypto, b: Bundle, calls: seq<Attach>)
    ensures var r := AfterCalls(c, b, calls);
            && Filter(Ordinary, r.relayHints) == Filter(Ordinary, b.relayHints)
            && (Tidy(b) || SomeAllowed(c, b, calls) ==> Tidy(r))
            && r == b.(relayHints := r.relayHints, bundleSig := r.bundleSig)
    decreases |calls|
  {
    if calls != [] {
      var a := calls[0];
      var next := AfterCall(c, b, a);
      AttachedHints(c, b, a.k, a.now, a.policy, a.invitation);
      CallsKeepOrdinary(c, next, calls[1..]);
      if SomeAllowed(c, b, calls) && !Tidy(next) {
        var i :| 0 <= i < |calls| && MayAttach(c, b, calls[i].k, calls[i].now, calls[i].policy);
        assert calls[1..][i - 1] == calls[i];
      }
    }
  }

  // -------------------------------------------------------- moving entries

  /** The same bundle but for where its admission entries stand among the hints. */
  predicate Rearranged(a: Bundle, b: Bundle) {
    && a == b.(relayHints := a.relayHints, bundleSig := a.bundleSig)
    && Filter(Ordinary, a.relayHints) == Filter(Ordinary, b.relayHints)
    && Filter(IsDescriptor, a.relayHints) == Filter(IsDescriptor, b.relayHints)
    && Filter(IsInvitation, a.relayHints) == Filter(IsInvitation, b.relayHints)
  }

  lemma RearrangedVerifies(c: Crypto, a: Bundle, b: Bundle, t: U64, v: Verified)
    requires Rearranged(a, b)
    ensures Verdict(c, a, t) == Ok(v) <==> Verdict(c, b, t) == Ok(v)
  {
    VerdictExact(c, a, t, v);
    VerdictExact(c, b, t, v);
    assert KeyBytes(a) == KeyBytes(b);
  }

  function WithoutInvitation(b: Bundle): Bundle {
    b.(relayHints := Filter(NotInvitation, b.relayHints))
  }

  /**
   Without its invitation a verified bundle verifies to the same descriptor, and
   its own signature is untouched.
   */
  lemma WithoutInvitationVerifies(c: Crypto, b: Bundle, t: U64, v: Verified)
    requires Verdict(c, b, t) == Ok(v)
    ensures Verdict(c, WithoutInvitation(b), t) == Ok(v.(invitation := None))
    ensures SigningBytes(WithoutInvitation(b)) == SigningBytes(b)
  {
    var p := WithoutInvitation(b);
    forall h | h in b.relayHints && IsDescriptor(h) ensures NotInvitation(h) { MagicsDiffer(h); }
    FilterWithin(Ordinary, NotInvitation, b.relayHints);
    FilterWithin(IsDescriptor, NotInvitation, b.relayHints);
    FilterWithin(NotInvitation, NotInvitation, b.relayHints);
    FilterNone(IsInvitation, NotInvitation, b.relayHints);
    VerdictExact(c, b, t, v);
    VerdictExact(c, p, t, v.(invitation := None));
    assert KeyBytes(p) == KeyBytes(b);
  }

  // --------------------------------------------------------------- binding

  /**
   An invitation that verifies is the one committed to, for this recipient,
   digest, epoch and expiry; any other exhibits a collision of the hash.
   */
  lemma InvitationBound(c: Crypto, b: Bundle, t: U64, v: Verified, r: Key, d: Key, e: U64, x: U64, s: Key)
    requires Verdict(c, b, t) == Ok(v) && v.invitation.Some?
    requires v.descriptor.invitationCommitment == Some(Commitment(c, r, d, e, x, s))
    ensures var w := v.descriptor;
            || (r == b.identity.ed && d == w.bundleDigest && e == w.validityEpoch && x == w.expiresAt
                && v.invitation == Some(s))
            || Collision(c, CommitmentInput(r, d, e, x, s),
                         CommitmentInput(b.identity.ed, w.bundleDigest, w.validityEpoch, w.expiresAt,
                                         v.invitation.value))
  {
    VerdictExact(c, b, t, v);
    var w := v.descriptor;
    var mine := CommitmentInput(b.identity.ed, w.bundleDigest, w.validityEpoch, w.expiresAt, v.invitation.value);
    if mine == CommitmentInput(r, d, e, x, s) {
      CommitmentInputInjective(b.identity.ed, w.bundleDigest, w.validityEpoch, w.expiresAt, v.invitation.value,
                               r, d, e, x, s);
    }
  }

  /**
   One descriptor verifies in two bundles only if they have the same content, or
   their digests exhibit a collision of the hash.
   */
  lemma DescriptorBound(c: Crypto, a: Bundle, b: Bundle, t: U64, u: U64, v: Verified, w: Verified)
    requires Bounded(a) && Bounded(b)
    requires Verdict(c, a, t) == Ok(v) && Verdict(c, b, u) == Ok(w) && v.descriptor == w.descriptor
    ensures SameContent(a, b) || Collision(c, DigestInput(a), DigestInput(b))
  {
    VerdictExact(c, a, t, v);
    VerdictExact(c, b, u, w);
    if DigestInput(a) == DigestInput(b) { DigestInputInjective(a, b); }
  }
}
