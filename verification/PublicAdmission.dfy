/**
 Admission as callers of a bundle see it: every verification first passes the
 checks of the bundle itself.
 */
module PublicAdmission {
  import opened Admission
  import opened AdmissionFlow
  import opened AdmissionTheorems
  import opened Bytes
  import opened PrekeyBundles
  import opened Sequences
  import opened Wrappers

  // --------------------------------------------------- the bundle's own checks

  function TotalBytes(hints: seq<Hint>): nat {
    if hints == [] then 0 else TotalBytes(hints[..|hints| - 1]) + |hints[|hints| - 1]|
  }

  /** All the limits that a bundle is held to. */
  predicate Fitting(b: Bundle) {
    Bounded(b) && TotalBytes(b.relayHints) <= MAX_RELAY_HINT_TOTAL_BYTES
  }

  function SpkBytes(id: U32, key: Key): seq<Byte> { SPK_DOMAIN + (LittleEndian(id, 4) + key) }

  function PqspkBytes(id: U32, key: seq<Byte>): seq<Byte> { PQSPK_DOMAIN + (LittleEndian(id, 4) + key) }

  /** The identity and both signed prekeys carry signatures that check. */
  function KeysVerdict(c: Crypto, b: Bundle): Result<(), Error> {
    var _ :- c.check(b.identity.ed, CROSS_SIGN_DOMAIN + b.identity.x, b.identity.crossSig);
    var _ :- c.check(b.identity.ed, SpkBytes(b.spkId, b.spk), b.spkSig);
    c.check(b.identity.ed, PqspkBytes(b.pqspkId, b.pqspk), b.pqspkSig)
  }

  function BundleVerdict(c: Crypto, b: Bundle, now: U64): Result<(), Error> {
    if !Fitting(b) || (now != 0 && now > b.expiresAt) then Err(InvalidBundle)
    else
      var _ :- KeysVerdict(c, b);
      c.check(b.identity.ed, BUNDLE_DOMAIN + SigningBytes(b), b.bundleSig)
  }

  /** The total with overflow checked, or none. */
  method SumLengths(hints: seq<Hint>) returns (total: Option<U64>)
    ensures total == if TotalBytes(hints) <= U64_MAX then Some(TotalBytes(hints)) else None
  {
    var sum: U64 := 0;
    for i := 0 to |hints|
      invariant sum == TotalBytes(hints[..i])
    {
      assert hints[..i + 1][..i] == hints[..i];
      if sum + |hints[i]| > U64_MAX {
        TotalGrows(hints, i + 1);
        return None;
      }
      sum := sum + |hints[i]|;
    }
    assert hints[..|hints|] == hints;
    return Some(sum);
  }

  lemma {:induction false} TotalGrows(hints: seq<Hint>, n: nat)
    requires n <= |hints|
    ensures TotalBytes(hints[..n]) <= TotalBytes(hints)
    decreases |hints|
  {
    if n < |hints| {
      TotalGrows(hints[..|hints| - 1], n);
      assert hints[..|hints| - 1][..n] == hints[..n];
    } else {
      assert hints[..n] == hints;
    }
  }

  method Verify(c: Crypto, b: Bundle, now: U64) returns (r: Result<(), Error>)
    ensures r == BundleVerdict(c, b, now)
  {
    var total := SumLengths(b.relayHints);
    if total.None? { return Err(InvalidBundle); }
    if |b.pqspk| != MLKEM768_EK_LEN || |b.relayHints| > MAX_RELAY_HINTS
       || (exists i :: 0 <= i < |b.relayHints| && |b.relayHints[i]| > MAX_RELAY_HINT_BYTES)
       || total.value > MAX_RELAY_HINT_TOTAL_BYTES
    {
      return Err(InvalidBundle);
    }
    if now != 0 && now > b.expiresAt { return Err(InvalidBundle); }
    r := c.check(b.identity.ed, CROSS_SIGN_DOMAIN + b.identity.x, b.identity.crossSig);
    if r.Err? { return; }
    r := c.check(b.identity.ed, SpkBytes(b.spkId, b.spk), b.spkSig);
    if r.Err? { return; }
    r := c.check(b.identity.ed, PqspkBytes(b.pqspkId, b.pqspk), b.pqspkSig);
    if r.Err? { return; }
    r := c.check(b.identity.ed, BUNDLE_DOMAIN + SigningBytes(b), b.bundleSig);
  }

  // ------------------------------------------------------- the entry point

  function PublicVerdict(c: Crypto, b: Bundle, now: U64): Result<Verified, Error> {
    var _ :- BundleVerdict(c, b, now);
    Verdict(c, b, now)
  }

  /** The limits, the expiry and the four signatures that a bundle has to pass. */
  predicate Genuine(c: Crypto, b: Bundle, now: U64) {
    var key := b.identity.ed;
    && |b.pqspk| == 1184 && |b.relayHints| <= 20 && TotalBytes(b.relayHints) <= 16384
    && (forall h :: h in b.relayHints ==> |h| <= 4096)
    && (now == 0 || now <= b.expiresAt)
    && c.check(key, CROSS_SIGN_DOMAIN + b.identity.x, b.identity.crossSig) == Ok(())
    && c.check(key, SPK_DOMAIN + (LittleEndian(b.spkId, 4) + b.spk), b.spkSig) == Ok(())
    && c.check(key, PQSPK_DOMAIN + (LittleEndian(b.pqspkId, 4) + b.pqspk), b.pqspkSig) == Ok(())
    && c.check(key, BUNDLE_DOMAIN + SigningBytes(b), b.bundleSig) == Ok(())
  }

  /** Public verification succeeds exactly when the bundle is genuine and its admission verifies. */
  lemma PublicExact(c: Crypto, b: Bundle, now: U64, v: Verified)
    ensures PublicVerdict(c, b, now) == Ok(v) <==> Genuine(c, b, now) && Verdict(c, b, now) == Ok(v)
  {
    var key := b.identity.ed;
    assert AllSmall(b.relayHints) <==> forall h :: h in b.relayHints ==> |h| <= 4096;
    PassedIsOk(c.check(key, CROSS_SIGN_DOMAIN + b.identity.x, b.identity.crossSig));
    PassedIsOk(c.check(key, SpkBytes(b.spkId, b.spk), b.spkSig));
    PassedIsOk(c.check(key, PqspkBytes(b.pqspkId, b.pqspk), b.pqspkSig));
    PassedIsOk(c.check(key, BUNDLE_DOMAIN + SigningBytes(b), b.bundleSig));
  }

  method VerifyPublic(c: Crypto, b: Bundle, now: U64) returns (r: Result<Verified, Error>)
    ensures r == PublicVerdict(c, b, now)
  {
    var bundle := Verify(c, b, now);
    if bundle.Err? { return Err(bundle.error); }
    r := VerifyAdmission(c, b, now);
  }

  // ------------------------------------------------ room for the new entries

  lemma {:induction false} TotalConcat(a: seq<Hint>, b: seq<Hint>)
    ensures TotalBytes(a + b) == TotalBytes(a) + TotalBytes(b)
    decreases |b|
  {
    if b == [] {
      assert a + b == a;
    } else {
      TotalConcat(a, b[..|b| - 1]);
      assert (a + b)[..|a + b| - 1] == a + b[..|b| - 1];
    }
  }

  lemma TotalOne(h: Hint)
    ensures TotalBytes([h]) == |h|
  {
    assert [h][..0] == [];
  }

  /** The size of the descriptor entry that an attach adds. */
  function DescriptorBytes(b: Bundle, now: U64, policy: Policy, invited: bool): nat {
    4 + EncodedSize(now / EPOCH_SECS, b.expiresAt, policy, invited)
  }

  /**
   The ordinary hints, and so the bundle as it is before an attach, leave room for
   the descriptor and the invitation.
   */
  predicate RoomFor(b: Bundle, now: U64, policy: Policy, invited: bool) {
    var o := Filter(Ordinary, b.relayHints);
    && |b.pqspk| == MLKEM768_EK_LEN
    && |o| + (if invited then 2 else 1) <= MAX_RELAY_HINTS
    && AllSmall(o)
    && TotalBytes(o) + DescriptorBytes(b, now, policy, invited) + (if invited then 36 else 0)
       <= MAX_RELAY_HINT_TOTAL_BYTES
  }

  lemma AttachedTotal(c: Crypto, b: Bundle, k: Secret, now: U64, policy: Policy, invitation: Option<Key>)
    ensures TotalBytes(Attached(c, b, k, now, policy, invitation).relayHints) ==
            TotalBytes(Filter(Ordinary, b.relayHints)) + DescriptorBytes(b, now, policy, invitation.Some?)
            + (if invitation.Some? then 36 else 0)
  {
    var d := Issued(c, b, k, now, policy, invitation);
    var o, h, v := Filter(Ordinary, b.relayHints), DESCRIPTOR_MAGIC + Encode(d), InvitationHints(invitation);
    EncodeSize(d);
    assert PolicyOf(d) == policy;
    TotalConcat(o + [h], v);
    TotalConcat(o, [h]);
    TotalOne(h);
    if invitation.Some? { TotalOne(INVITATION_MAGIC + invitation.value); }
  }

  lemma AttachedSmall(c: Crypto, b: Bundle, k: Secret, now: U64, policy: Policy, invitation: Option<Key>)
    requires ValidPolicy(policy)
    ensures var hints := Attached(c, b, k, now, policy, invitation).relayHints;
            && |hints| == |Filter(Ordinary, b.relayHints)| + (if invitation.Some? then 2 else 1)
            && (AllSmall(hints) <==> AllSmall(Filter(Ordinary, b.relayHints)))
  {
    var d := Issued(c, b, k, now, policy, invitation);
    var o, h, v := Filter(Ordinary, b.relayHints), DESCRIPTOR_MAGIC + Encode(d), InvitationHints(invitation);
    EncodeFits(d);
    SmallEntries(o, [h]);
    SmallEntries(o + [h], v);
  }

  /** The attached bundle is within every limit if and only if there was room. */
  lemma AttachedFits(c: Crypto, b: Bundle, k: Secret, now: U64, policy: Policy, invitation: Option<Key>)
    requires ValidPolicy(policy)
    ensures Fitting(Attached(c, b, k, now, policy, invitation)) <==> RoomFor(b, now, policy, invitation.Some?)
  {
    AttachedTotal(c, b, k, now, policy, invitation);
    AttachedSmall(c, b, k, now, policy, invitation);
  }

  /** Small entries behind some hints leave only those hints to be checked. */
  lemma SmallEntries(o: seq<Hint>, entries: seq<Hint>)
    requires AllSmall(entries)
    ensures AllSmall(o + entries) <==> AllSmall(o)
  {
    assert forall i :: 0 <= i < |o| ==> (o + entries)[i] == o[i];
  }

  // ------------------------------------------------------------- guarantees

  lemma AttachedSigned(c: Crypto, b: Bundle, k: Secret, now: U64, policy: Policy, invitation: Option<Key>)
    requires Lawful(c) && MayAttach(c, b, k, now, policy)
    ensures var a := Attached(c, b, k, now, policy, invitation);
            && c.check(a.identity.ed, BUNDLE_DOMAIN + SigningBytes(a), a.bundleSig) == Ok(())
            && KeysVerdict(c, a) == KeysVerdict(c, b)
  {
    var a := Attached(c, b, k, now, policy, invitation);
    assert SigningBytes(b.(relayHints := a.relayHints)) == SigningBytes(a);
  }

  /**
   An attached bundle passes the public check at a time if and only if its keys
   are genuine, the ordinary hints left room, and the time is zero or in the
   window: from the start of the epoch less the skew up to the expiry, which no
   skew extends. It then gives back the issued descriptor and the invitation.
   */
  lemma AttachedVerifiesPublicly(
    c: Crypto, b: Bundle, k: Secret, now: U64, policy: Policy, invitation: Option<Key>, t: U64)
    requires Lawful(c) && MayAttach(c, b, k, now, policy)
    ensures var r := PublicVerdict(c, Attached(c, b, k, now, policy, invitation), t);
            var epochStart := now / EPOCH_SECS * EPOCH_SECS;
            && (r.Ok? ==> r.value == Verified(Issued(c, b, k, now, policy, invitation), invitation))
            && (r.Ok? <==> KeysVerdict(c, b).Ok? && RoomFor(b, now, policy, invitation.Some?)
                           && (t == 0 || (epochStart <= t + policy.maxClockSkewSecs && t <= b.expiresAt)))
  {
    AttachedVerifies(c, b, k, now, policy, invitation, t);
    AttachedFits(c, b, k, now, policy, invitation);
    AttachedSigned(c, b, k, now, policy, invitation);
  }

  /** At the moment of attaching only genuine keys and room are in question. */
  lemma AttachedVerifiesAtOnce(c: Crypto, b: Bundle, k: Secret, now: U64, policy: Policy, invitation: Option<Key>)
    requires Lawful(c) && MayAttach(c, b, k, now, policy)
    ensures PublicVerdict(c, Attached(c, b, k, now, policy, invitation), now).Ok? <==>
            KeysVerdict(c, b).Ok? && RoomFor(b, now, policy, invitation.Some?)
  {
    AttachedVerifiesPublicly(c, b, k, now, policy, invitation, now);
  }

  /**
   Twenty hints are within the limits, and whether an attach is allowed does not
   depend on hints; but the result is refused at every time.
   */
  lemma FullBundleRefused(c: Crypto, b: Bundle, k: Secret, now: U64, policy: Policy, invitation: Option<Key>, t: U64)
    requires |b.pqspk| == MLKEM768_EK_LEN && b.relayHints == seq(MAX_RELAY_HINTS, _ => [])
    ensures Fitting(b)
    ensures PublicVerdict(c, Attached(c, b, k, now, policy, invitation), t) == Err(InvalidBundle)
  {
    EmptyHints(b.relayHints);
  }

  lemma {:induction false} EmptyHints(hints: seq<Hint>)
    requires forall i :: 0 <= i < |hints| ==> hints[i] == []
    ensures TotalBytes(hints) == 0 && Filter(Ordinary, hints) == hints
    decreases |hints|
  {
    if hints != [] {
      var front, last := hints[..|hints| - 1], hints[|hints| - 1];
      EmptyHints(front);
      var one: seq<Hint> := [last];
      assert hints == front + one;
      FilterConcat(Ordinary, front, one);
      assert one[1..] == [];
    }
  }

  // ----------------------------------------------------- building a bundle

  /** The prekeys that a bundle is built from. */
  datatype Prekeys = Prekeys(spkId: U32, spk: Key, pqspkId: U32, pqspk: seq<Byte>, opk: Option<(U32, Key)>)

  function Built(c: Crypto, k: Secret, p: Prekeys, expiresAt: U64, hints: seq<Hint>): Bundle {
    var b := Bundle(c.publicOf(k), p.spkId, p.spk, c.sign(k, SpkBytes(p.spkId, p.spk)), p.pqspkId, p.pqspk,
                    c.sign(k, PqspkBytes(p.pqspkId, p.pqspk)), p.opk, expiresAt, hints, seq(64, _ => 0));
    Resigned(c, b, k)
  }

  /**
   A node that builds a bundle, attaches admission and verifies it at once
   succeeds if and only if the policy is valid, the bundle has not expired, its
   post-quantum key has the right size and the hints leave room.
   */
  lemma BuiltVerifies(
    c: Crypto, k: Secret, p: Prekeys, expiresAt: U64, hints: seq<Hint>, now: U64, policy: Policy,
    invitation: Option<Key>)
    requires Lawful(c)
    ensures var b := Built(c, k, p, expiresAt, hints);
            && (MayAttach(c, b, k, now, policy) <==> ValidPolicy(policy) && now <= expiresAt)
            && (MayAttach(c, b, k, now, policy) ==>
                  (PublicVerdict(c, Attached(c, b, k, now, policy, invitation), now).Ok? <==>
                   RoomFor(b, now, policy, invitation.Some?)))
  {
    var b := Built(c, k, p, expiresAt, hints);
    assert KeysVerdict(c, b) == Ok(());
    if MayAttach(c, b, k, now, policy) { AttachedVerifiesAtOnce(c, b, k, now, policy, invitation); }
  }

  // --------------------------------------------------- what may be changed

  lemma {:induction false} TotalSplits(p: Hint -> bool, q: Hint -> bool, hints: seq<Hint>)
    requires forall h :: p(h) != q(h)
    ensures TotalBytes(hints) == TotalBytes(Filter(p, hints)) + TotalBytes(Filter(q, hints))
    ensures |hints| == |Filter(p, hints)| + |Filter(q, hints)|
    decreases |hints|
  {
    if hints != [] {
      var rest := hints[1..];
      TotalSplits(p, q, rest);
      assert hints == [hints[0]] + rest;
      TotalConcat([hints[0]], rest);
      TotalConcat([hints[0]], Filter(p, rest));
      TotalConcat([hints[0]], Filter(q, rest));
    }
  }

  lemma LimitsByKind(hints: seq<Hint>)
    ensures AllSmall(hints) <==>
            (forall h :: h in Filter(NotInvitation, hints) + Filter(IsInvitation, hints) ==>
              |h| <= MAX_RELAY_HINT_BYTES)
  {
    FilterMembers(NotInvitation, hints);
    FilterMembers(IsInvitation, hints);
  }

  /** The invitation may stand anywhere among the hints: the bundle's signature does not cover it. */
  lemma InvitationMoves(c: Crypto, a: Bundle, b: Bundle, t: U64, v: Verified)
    requires a == b.(relayHints := a.relayHints)
    requires Filter(NotInvitation, a.relayHints) == Filter(NotInvitation, b.relayHints)
    requires Filter(IsInvitation, a.relayHints) == Filter(IsInvitation, b.relayHints)
    ensures PublicVerdict(c, a, t) == Ok(v) <==> PublicVerdict(c, b, t) == Ok(v)
  {
    assert Verdict(c, a, t) == Ok(v) <==> Verdict(c, b, t) == Ok(v) by {
      KindsWithin(a.relayHints);
      KindsWithin(b.relayHints);
      RearrangedVerifies(c, a, b, t, v);
    }
    SameLimits(a, b);
    assert SigningBytes(a) == SigningBytes(b) by { assert KeyBytes(a) == KeyBytes(b); }
  }

  lemma SameLimits(a: Bundle, b: Bundle)
    requires a.pqspk == b.pqspk
    requires Filter(NotInvitation, a.relayHints) == Filter(NotInvitation, b.relayHints)
    requires Filter(IsInvitation, a.relayHints) == Filter(IsInvitation, b.relayHints)
    ensures Fitting(a) <==> Fitting(b)
  {
    TotalSplits(NotInvitation, IsInvitation, a.relayHints);
    TotalSplits(NotInvitation, IsInvitation, b.relayHints);
    LimitsByKind(a.relayHints);
    LimitsByKind(b.relayHints);
  }

  lemma KindsWithin(hints: seq<Hint>)
    ensures Filter(Ordinary, Filter(NotInvitation, hints)) == Filter(Ordinary, hints)
    ensures Filter(IsDescriptor, Filter(NotInvitation, hints)) == Filter(IsDescriptor, hints)
  {
    forall h | h in hints && IsDescriptor(h) ensures NotInvitation(h) { MagicsDiffer(h); }
    FilterWithin(Ordinary, NotInvitation, hints);
    FilterWithin(IsDescriptor, NotInvitation, hints);
  }

  /** A bundle that passes still passes without its invitation, and gives the same descriptor. */
  lemma WithoutInvitationPasses(c: Crypto, b: Bundle, t: U64, v: Verified)
    ensures PublicVerdict(c, b, t) == Ok(v) ==> PublicVerdict(c, WithoutInvitation(b), t) == Ok(v.(invitation := None))
  {
    if PublicVerdict(c, b, t) == Ok(v) {
      WithoutInvitationVerifies(c, b, t, v);
      FittingWithout(b);
    }
  }

  lemma FittingWithout(b: Bundle)
    requires Fitting(b)
    ensures Fitting(WithoutInvitation(b))
  {
    TotalSplits(NotInvitation, IsInvitation, b.relayHints);
    FilterMembers(NotInvitation, b.relayHints);
  }
}
