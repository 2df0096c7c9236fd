/** First-contact admission descriptors: their policy, their signed form and their wire form. */
module Admission {
  import opened Bytes
  import opened Postcard
  import opened Sequences
  import opened Wrappers

  type Key = s: seq<Byte> | |s| == 32 witness seq(32, _ => 0)
  type Sig = s: seq<Byte> | |s| == 64 witness seq(64, _ => 0)

  datatype Error = InvalidBundle | InvalidSignature | InvalidKey | Serialization

  const DESCRIPTOR_VERSION: Byte := 1
  const EPOCH_SECS: nat := 3600
  const MIN_DIFFICULTY: nat := 8
  const MAX_DIFFICULTY: nat := 20
  const MAX_FIRST_CIPHERTEXT: nat := 16 * 1024
  const MAX_CLOCK_SKEW_SECS: nat := 6 * 3600
  const MAX_TOKEN_ISSUERS: nat := 4
  const MAX_DESCRIPTOR_BYTES: nat := 512

  datatype PuzzleProfile = Sha256LeadingZeroBits

  datatype Policy = Policy(difficulty: Byte, maxFirstCiphertext: U32, maxClockSkewSecs: U32, tokenIssuers: seq<Key>)

  datatype Descriptor = Descriptor(
    version: Byte,
    bundleDigest: Key,
    validityEpoch: U64,
    expiresAt: U64,
    maxClockSkewSecs: U32,
    puzzleProfile: PuzzleProfile,
    difficulty: Byte,
    maxFirstCiphertext: U32,
    invitationCommitment: Option<Key>,
    tokenIssuers: seq<Key>,
    signature: Sig)

  // --------------------------------------------------------------- policy

  /** Lexicographic order of octet strings. */
  predicate Less(a: seq<Byte>, b: seq<Byte>) {
    b != [] && (a == [] || a[0] < b[0] || (a[0] == b[0] && Less(a[1..], b[1..])))
  }

  lemma {:induction false} LessTransitive(a: seq<Byte>, b: seq<Byte>, c: seq<Byte>)
    requires Less(a, b) && Less(b, c)
    ensures Less(a, c)
  {
    if a != [] && a[0] == b[0] && b[0] == c[0] { LessTransitive(a[1..], b[1..], c[1..]); }
  }

  lemma {:induction false} LessIrreflexive(a: seq<Byte>)
    ensures !Less(a, a)
  {
    if a != [] { LessIrreflexive(a[1..]); }
  }

  predicate DiffersFirstAt(a: seq<Byte>, b: seq<Byte>, k: nat) {
    && k <= |a| && k < |b| && a[..k] == b[..k] && (k == |a| || a[k] < b[k])
  }

  /** The order is decided where two strings first differ; a proper prefix comes first. */
  lemma {:induction false} LessSpelled(a: seq<Byte>, b: seq<Byte>)
    ensures Less(a, b) <==> exists k :: DiffersFirstAt(a, b, k)
  {
    if a == [] || b == [] || a[0] != b[0] {
      assert DiffersFirstAt(a, b, 0) <==> Less(a, b);
      assert forall k: nat :: DiffersFirstAt(a, b, k) && k > 0 ==> a[..k][0] == b[..k][0];
    } else {
      LessSpelled(a[1..], b[1..]);
      forall k: nat | DiffersFirstAt(a[1..], b[1..], k) ensures DiffersFirstAt(a, b, k + 1) {
        assert a[..k + 1] == [a[0]] + a[1..][..k] && b[..k + 1] == [b[0]] + b[1..][..k];
      }
      forall k: nat | DiffersFirstAt(a, b, k) ensures k > 0 && DiffersFirstAt(a[1..], b[1..], k - 1) {
        if k > 0 { assert a[1..][..k - 1] == a[..k][1..] && b[1..][..k - 1] == b[..k][1..]; }
      }
    }
  }

  function PolicyOf(d: Descriptor): Policy {
    Policy(d.difficulty, d.maxFirstCiphertext, d.maxClockSkewSecs, d.tokenIssuers)
  }

  /** Bounds on every field; issuers in strictly ascending order. */
  predicate ValidPolicy(p: Policy) {
    && MIN_DIFFICULTY <= p.difficulty <= MAX_DIFFICULTY
    && 0 < p.maxFirstCiphertext <= MAX_FIRST_CIPHERTEXT
    && p.maxClockSkewSecs <= MAX_CLOCK_SKEW_SECS
    && |p.tokenIssuers| <= MAX_TOKEN_ISSUERS
    && forall i, j :: 0 <= i < j < |p.tokenIssuers| ==> Less(p.tokenIssuers[i], p.tokenIssuers[j])
  }

  /** Comparing neighbours suffices. */
  lemma {:induction false} NeighboursAscend(keys: seq<Key>, i: nat, j: nat)
    requires i < j < |keys|
    requires forall k :: 0 <= k < |keys| - 1 ==> Less(keys[k], keys[k + 1])
    ensures Less(keys[i], keys[j])
    decreases j - i
  {
    assert Less(keys[j - 1], keys[j - 1 + 1]);
    if i < j - 1 {
      NeighboursAscend(keys, i, j - 1);
      LessTransitive(keys[i], keys[j - 1], keys[j]);
    }
  }

  method Validate(p: Policy) returns (r: Result<(), Error>)
    ensures r == if ValidPolicy(p) then Ok(()) else Err(InvalidBundle)
  {
    if !(MIN_DIFFICULTY <= p.difficulty <= MAX_DIFFICULTY)
       || p.maxFirstCiphertext == 0
       || p.maxFirstCiphertext > MAX_FIRST_CIPHERTEXT
       || p.maxClockSkewSecs > MAX_CLOCK_SKEW_SECS
       || |p.tokenIssuers| > MAX_TOKEN_ISSUERS
    {
      return Err(InvalidBundle);
    }
    var k := 1;
    while k < |p.tokenIssuers|
      invariant 1 <= k
      invariant forall m :: 0 <= m < k - 1 && m < |p.tokenIssuers| - 1 ==>
                Less(p.tokenIssuers[m], p.tokenIssuers[m + 1])
    {
      if !Less(p.tokenIssuers[k - 1], p.tokenIssuers[k]) { return Err(InvalidBundle); }
      k := k + 1;
    }
    forall i, j | 0 <= i < j < |p.tokenIssuers| ensures Less(p.tokenIssuers[i], p.tokenIssuers[j]) {
      NeighboursAscend(p.tokenIssuers, i, j);
    }
    return Ok(());
  }

  /** A valid policy names no issuer twice. */
  lemma IssuersDistinct(p: Policy)
    requires ValidPolicy(p)
    ensures forall i, j :: 0 <= i < j < |p.tokenIssuers| ==> p.tokenIssuers[i] != p.tokenIssuers[j]
  {
    forall i, j | 0 <= i < j < |p.tokenIssuers| ensures p.tokenIssuers[i] != p.tokenIssuers[j] {
      LessIrreflexive(p.tokenIssuers[i]);
    }
  }

  // ---------------------------------------------------------- signed form

  function Joined(keys: seq<Key>): (r: seq<Byte>)
    ensures |r| == 32 * |keys|
  {
    if keys == [] then [] else keys[0] + Joined(keys[1..])
  }

  function CommitmentBytes(o: Option<Key>): seq<Byte> {
    match o
    case Some(k) => [1] + k
    case None => [0]
  }

  function BindingFields(d: Descriptor): (r: seq<Byte>)
    ensures |r| == 49
  {
    [d.version] + (d.bundleDigest + (LittleEndian(d.validityEpoch, 8) + LittleEndian(d.expiresAt, 8)))
  }

  function LimitFields(d: Descriptor): (r: seq<Byte>)
    ensures |r| == 10
  {
    LittleEndian(d.maxClockSkewSecs, 4) + ([1] + ([d.difficulty] + LittleEndian(d.maxFirstCiphertext, 4)))
  }

  /** Everything that the descriptor's signature covers; the issuer count is cut to one octet. */
  function Canonical(d: Descriptor): seq<Byte> {
    BindingFields(d) + LimitFields(d)
    + (CommitmentBytes(d.invitationCommitment) + ([|d.tokenIssuers| % 0x100] + Joined(d.tokenIssuers)))
  }

  /** Where each field stands in the signed octets, numbers least significant octet first. */
  lemma CanonicalLayout(d: Descriptor)
    ensures var s := Canonical(d);
            && |s| >= 61 && s[0] == d.version && s[1..33] == d.bundleDigest
            && FromLittleEndian(s[33..41]) == d.validityEpoch && FromLittleEndian(s[41..49]) == d.expiresAt
            && FromLittleEndian(s[49..53]) == d.maxClockSkewSecs && s[53] == 1 && s[54] == d.difficulty
            && FromLittleEndian(s[55..59]) == d.maxFirstCiphertext
            && s[59] == if d.invitationCommitment.Some? then 1 else 0
  {
    var s, binding, limits := Canonical(d), BindingFields(d), LimitFields(d);
    BindingLayout(d);
    LimitLayout(d);
    assert s[..49] == binding && s[49..59] == limits;
    assert s[33..41] == binding[33..41] && s[41..49] == binding[41..49] && s[1..33] == binding[1..33];
    assert s[49..53] == limits[..4] && s[53] == limits[4] && s[54] == limits[5] && s[55..59] == limits[6..];
  }

  lemma BindingLayout(d: Descriptor)
    ensures var s := BindingFields(d);
            && s[0] == d.version && s[1..33] == d.bundleDigest
            && FromLittleEndian(s[33..41]) == d.validityEpoch && FromLittleEndian(s[41..49]) == d.expiresAt
  {
    Capacities();
    LittleEndianReads(d.validityEpoch, 8);
    LittleEndianReads(d.expiresAt, 8);
    var s, epoch, expiry := BindingFields(d), LittleEndian(d.validityEpoch, 8), LittleEndian(d.expiresAt, 8);
    FourParts([d.version], d.bundleDigest, epoch, expiry);
    assert s[..1] == [d.version] && s[0] == s[..1][0] && s[33..41] == epoch && s[41..49] == expiry;
  }

  lemma FourParts<T>(a: seq<T>, b: seq<T>, c: seq<T>, d: seq<T>)
    ensures var s, i, j := a + (b + (c + d)), |a| + |b|, |a| + |b| + |c|;
            s[..|a|] == a && s[|a|..i] == b && s[i..j] == c && s[j..j + |d|] == d
  {
    var s, i, j := a + (b + (c + d)), |a| + |b|, |a| + |b| + |c|;
    assert s == a + b + (c + d) == a + b + c + d;
    assert (a + b)[|a|..i] == b && (a + b + c)[i..j] == c;
    assert s[|a|..i] == (a + b)[|a|..i] && s[i..j] == (a + b + c)[i..j];
  }

  lemma LimitLayout(d: Descriptor)
    ensures var s := LimitFields(d);
            && FromLittleEndian(s[..4]) == d.maxClockSkewSecs && s[4] == 1 && s[5] == d.difficulty
            && FromLittleEndian(s[6..]) == d.maxFirstCiphertext
  {
    Capacities();
    LittleEndianReads(d.maxClockSkewSecs, 4);
    LittleEndianReads(d.maxFirstCiphertext, 4);
    FourParts(LittleEndian(d.maxClockSkewSecs, 4), [1], [d.difficulty], LittleEndian(d.maxFirstCiphertext, 4));
    var s := LimitFields(d);
    assert s[4] == s[4..5][0] && s[5] == s[5..6][0] && s[6..] == s[6..10];
  }

  method BuildCanonical(d: Descriptor) returns (out: seq<Byte>)
    ensures out == Canonical(d)
  {
    out := AppendFixed(d);
    match d.invitationCommitment {
      case Some(commitment) =>
        out := out + [1];
        out := out + commitment;
      case None => out := out + [0];
    }
    ghost var head, count := BindingFields(d) + LimitFields(d), [|d.tokenIssuers| % 0x100];
    assert out == head + CommitmentBytes(d.invitationCommitment);
    out := out + [|d.tokenIssuers| % 0x100];
    out := AppendKeys(out, d.tokenIssuers);
    var committed := CommitmentBytes(d.invitationCommitment);
    Regrouped(head + committed, count, Joined(d.tokenIssuers));
    Regrouped(head, committed, count + Joined(d.tokenIssuers));
  }

  method AppendFixed(d: Descriptor) returns (out: seq<Byte>)
    ensures out == BindingFields(d) + LimitFields(d)
  {
    out := [d.version];
    out := out + d.bundleDigest;
    out := out + LittleEndian(d.validityEpoch, 8);
    out := out + LittleEndian(d.expiresAt, 8);
    out := out + LittleEndian(d.maxClockSkewSecs, 4);
    out := out + [1];
    out := out + [d.difficulty];
    out := out + LittleEndian(d.maxFirstCiphertext, 4);
  }

  method AppendKeys(head: seq<Byte>, keys: seq<Key>) returns (out: seq<Byte>)
    ensures out == head + Joined(keys)
  {
    out := head;
    for i := 0 to |keys|
      invariant out + Joined(keys[i..]) == head + Joined(keys)
    {
      assert keys[i..][1..] == keys[i + 1..];
      out := out + keys[i];
    }
  }

  lemma BindingFieldsInjective(d: Descriptor, e: Descriptor)
    requires BindingFields(d) == BindingFields(e)
    ensures d.version == e.version && d.bundleDigest == e.bundleDigest
    ensures d.validityEpoch == e.validityEpoch && d.expiresAt == e.expiresAt
  {
    Capacities();
    var dv, ev := LittleEndian(d.validityEpoch, 8), LittleEndian(e.validityEpoch, 8);
    var dx, ex := LittleEndian(d.expiresAt, 8), LittleEndian(e.expiresAt, 8);
    SamePrefix([d.version], d.bundleDigest + (dv + dx), [e.version], e.bundleDigest + (ev + ex));
    SamePrefix(d.bundleDigest, dv + dx, e.bundleDigest, ev + ex);
    SamePrefix(dv, dx, ev, ex);
    LittleEndianInjective(d.validityEpoch, e.validityEpoch, 8);
    LittleEndianInjective(d.expiresAt, e.expiresAt, 8);
  }

  lemma LimitFieldsInjective(d: Descriptor, e: Descriptor)
    requires LimitFields(d) == LimitFields(e)
    ensures d.maxClockSkewSecs == e.maxClockSkewSecs && d.difficulty == e.difficulty
    ensures d.maxFirstCiphertext == e.maxFirstCiphertext
  {
    Capacities();
    var dm, em := LittleEndian(d.maxFirstCiphertext, 4), LittleEndian(e.maxFirstCiphertext, 4);
    var ds, es := LittleEndian(d.maxClockSkewSecs, 4), LittleEndian(e.maxClockSkewSecs, 4);
    SamePrefix(ds, [1] + ([d.difficulty] + dm), es, [1] + ([e.difficulty] + em));
    SamePrefix([1], [d.difficulty] + dm, [1], [e.difficulty] + em);
    SamePrefix([d.difficulty], dm, [e.difficulty], em);
    LittleEndianInjective(d.maxClockSkewSecs, e.maxClockSkewSecs, 4);
    LittleEndianInjective(d.maxFirstCiphertext, e.maxFirstCiphertext, 4);
  }

  lemma {:induction false} JoinedInjective(a: seq<Key>, b: seq<Key>)
    requires |a| == |b| && Joined(a) == Joined(b)
    ensures a == b
  {
    if a != [] {
      SamePrefix(a[0], Joined(a[1..]), b[0], Joined(b[1..]));
      JoinedInjective(a[1..], b[1..]);
      assert a == [a[0]] + a[1..] && b == [b[0]] + b[1..];
    }
  }

  /** Two descriptors with the same signed octets differ at most in their signatures. */
  lemma CanonicalInjective(d: Descriptor, e: Descriptor)
    requires Canonical(d) == Canonical(e)
    ensures d == e.(signature := d.signature)
  {
    var dc, ec := CommitmentBytes(d.invitationCommitment), CommitmentBytes(e.invitationCommitment);
    var dn, en := [|d.tokenIssuers| % 0x100], [|e.tokenIssuers| % 0x100];
    var di, ei := dn + Joined(d.tokenIssuers), en + Joined(e.tokenIssuers);
    SamePrefix(BindingFields(d) + LimitFields(d), dc + di, BindingFields(e) + LimitFields(e), ec + ei);
    SamePrefix(BindingFields(d), LimitFields(d), BindingFields(e), LimitFields(e));
    BindingFieldsInjective(d, e);
    LimitFieldsInjective(d, e);
    assert (dc + di)[0] == dc[0] && (ec + ei)[0] == ec[0];
    SamePrefix(dc, di, ec, ei);
    assert d.invitationCommitment == e.invitationCommitment by { assert dc[1..] == ec[1..]; }
    SamePrefix(dn, Joined(d.tokenIssuers), en, Joined(e.tokenIssuers));
    JoinedInjective(d.tokenIssuers, e.tokenIssuers);
  }

  // ------------------------------------------------------------ wire form

  function EncodeTail(d: Descriptor): seq<Byte> {
    CommitmentBytes(d.invitationCommitment)
    + (Varint(|d.tokenIssuers|) + (Joined(d.tokenIssuers) + (Varint(64) + d.signature)))
  }

  function EncodeLimits(d: Descriptor): seq<Byte> {
    Varint(d.maxClockSkewSecs) + ([0] + ([d.difficulty] + (Varint(d.maxFirstCiphertext) + EncodeTail(d))))
  }

  function Encode(d: Descriptor): seq<Byte> {
    [d.version] + (d.bundleDigest + (Varint(d.validityEpoch) + (Varint(d.expiresAt) + EncodeLimits(d))))
  }

  function TakeKey(s: seq<Byte>): Option<(Key, seq<Byte>)> {
    var (a, rest) :- TakeArray(s, 32);
    Some((a, rest))
  }

  function TakeKeys(s: seq<Byte>, n: nat): Option<(seq<Key>, seq<Byte>)> {
    if n == 0 then Some(([], s))
    else
      var (k, s1) :- TakeKey(s);
      var (ks, s2) :- TakeKeys(s1, n - 1);
      Some(([k] + ks, s2))
  }

  function TakeCommitment(s: seq<Byte>): Option<(Option<Key>, seq<Byte>)> {
    var (tag, s1) :- TakeByte(s);
    if tag == 0 then Some((None, s1))
    else if tag == 1 then
      var (k, s2) :- TakeKey(s1);
      Some((Some(k), s2))
    else None
  }

  datatype Tail = Tail(commitment: Option<Key>, issuers: seq<Key>, signature: Sig)
  datatype Limits = Limits(skew: U32, difficulty: Byte, maxFirst: U32, tail: Tail)

  function TakeTail(s: seq<Byte>): Option<(Tail, seq<Byte>)> {
    var (commitment, s1) :- TakeCommitment(s);
    var (count, s2) :- TakeU64(s1);
    var (issuers, s3) :- TakeKeys(s2, count);
    var (length, s4) :- TakeU64(s3);
    var (signature, s5) :- TakeArray(s4, length);
    if length == 64 then Some((Tail(commitment, issuers, signature), s5)) else None
  }

  function TakeLimits(s: seq<Byte>): Option<(Limits, seq<Byte>)> {
    var (skew, s1) :- TakeU32(s);
    var (profile, s2) :- TakeU32(s1);
    if profile != 0 then None else
    var (difficulty, s3) :- TakeByte(s2);
    var (maxFirst, s4) :- TakeU32(s3);
    var (tail, s5) :- TakeTail(s4);
    Some((Limits(skew, difficulty, maxFirst, tail), s5))
  }

  datatype Binding = Binding(version: Byte, digest: Key, epoch: U64, expires: U64)

  function TakeBinding(s: seq<Byte>): Option<(Binding, seq<Byte>)> {
    var (version, s1) :- TakeByte(s);
    var (digest, s2) :- TakeKey(s1);
    var (epoch, s3) :- TakeU64(s2);
    var (expires, s4) :- TakeU64(s3);
    Some((Binding(version, digest, epoch, expires), s4))
  }

  /** Reads one descriptor from the front of `s`. */
  function Decode(s: seq<Byte>): Option<(Descriptor, seq<Byte>)> {
    var (b, s1) :- TakeBinding(s);
    var (l, s2) :- TakeLimits(s1);
    Some((Descriptor(b.version, b.digest, b.epoch, b.expires, l.skew, Sha256LeadingZeroBits, l.difficulty, l.maxFirst,
                     l.tail.commitment, l.tail.issuers, l.tail.signature), s2))
  }

  lemma {:induction false} KeysRead(keys: seq<Key>, rest: seq<Byte>)
    ensures TakeKeys(Joined(keys) + rest, |keys|) == Some((keys, rest))
  {
    if keys != [] {
      KeysRead(keys[1..], rest);
      assert Joined(keys) + rest == keys[0] + (Joined(keys[1..]) + rest);
      ArrayReads(keys[0], Joined(keys[1..]) + rest);
      assert keys == [keys[0]] + keys[1..];
    } else {
      assert Joined(keys) + rest == rest;
    }
  }

  lemma CommitmentReads(o: Option<Key>, rest: seq<Byte>)
    ensures TakeCommitment(CommitmentBytes(o) + rest) == Some((o, rest))
  {
    var s := CommitmentBytes(o) + rest;
    match o
    case Some(k) =>
      assert s[1..] == k + rest;
      ArrayReads(k, rest);
    case None => assert s[1..] == rest;
  }

  /** A list in memory is never longer than a 64-bit count. */
  predicate Countable(d: Descriptor) { |d.tokenIssuers| < 0x1_0000_0000_0000_0000 }

  lemma TailReads(d: Descriptor)
    requires Countable(d)
    ensures TakeTail(EncodeTail(d)) == Some((Tail(d.invitationCommitment, d.tokenIssuers, d.signature), []))
  {
    var s4 := d.signature + [];
    assert s4 == d.signature;
    var s3 := Varint(64) + s4;
    var s2 := Joined(d.tokenIssuers) + s3;
    var s1 := Varint(|d.tokenIssuers|) + s2;
    CommitmentReads(d.invitationCommitment, s1);
    U64Reads(|d.tokenIssuers|, s2);
    KeysRead(d.tokenIssuers, s3);
    U64Reads(64, s4);
    ArrayReads(d.signature, []);
  }

  lemma LimitsRead(d: Descriptor)
    requires Countable(d)
    ensures TakeLimits(EncodeLimits(d)) ==
            Some((Limits(d.maxClockSkewSecs, d.difficulty, d.maxFirstCiphertext,
                         Tail(d.invitationCommitment, d.tokenIssuers, d.signature)), []))
  {
    var s4 := EncodeTail(d);
    var s3 := Varint(d.maxFirstCiphertext) + s4;
    var s2 := [d.difficulty] + s3;
    TailReads(d);
    U32Reads(d.maxFirstCiphertext, s4);
    assert s2[1..] == s3;
    U32Reads(0, s2);
    U32Reads(d.maxClockSkewSecs, [0] + s2);
  }

  /**
   The size of a descriptor with a policy: what depends on the signature, the
   digest or the secret has a fixed size.
   */
  function EncodedSize(epoch: U64, expires: U64, p: Policy, committed: bool): nat {
    |Varint(epoch)| + |Varint(expires)| + |Varint(p.maxClockSkewSecs)| + |Varint(p.maxFirstCiphertext)|
    + |Varint(|p.tokenIssuers|)| + 32 * |p.tokenIssuers| + (if committed then 133 else 101)
  }

  lemma EncodeSize(d: Descriptor)
    ensures |Encode(d)| == EncodedSize(d.validityEpoch, d.expiresAt, PolicyOf(d), d.invitationCommitment.Some?)
  {
    assert |EncodeTail(d)| == (if d.invitationCommitment.Some? then 33 else 1) + |Varint(|d.tokenIssuers|)|
                              + 32 * |d.tokenIssuers| + 65;
    assert |EncodeLimits(d)| == |Varint(d.maxClockSkewSecs)| + 2 + |Varint(d.maxFirstCiphertext)| + |EncodeTail(d)|;
  }

  lemma EncodeFits(d: Descriptor)
    requires |d.tokenIssuers| <= MAX_TOKEN_ISSUERS
    ensures |Encode(d)| <= MAX_DESCRIPTOR_BYTES
  {
    EncodeSize(d);
    U64Reads(d.expiresAt, []);
    U64Reads(d.validityEpoch, []);
    U32Reads(d.maxClockSkewSecs, []);
    U32Reads(d.maxFirstCiphertext, []);
  }

  lemma BindingReads(d: Descriptor)
    ensures TakeBinding(Encode(d)) ==
            Some((Binding(d.version, d.bundleDigest, d.validityEpoch, d.expiresAt), EncodeLimits(d)))
  {
    var s4 := EncodeLimits(d);
    var s3 := Varint(d.expiresAt) + s4;
    var s2 := Varint(d.validityEpoch) + s3;
    U64Reads(d.expiresAt, s4);
    U64Reads(d.validityEpoch, s3);
    ArrayReads(d.bundleDigest, s2);
    assert Encode(d)[1..] == d.bundleDigest + s2;
  }

  /** The wire form is read back exactly and leaves nothing over. */
  lemma EncodeReads(d: Descriptor)
    requires Countable(d)
    ensures Decode(Encode(d)) == Some((d, []))
  {
    BindingReads(d);
    LimitsRead(d);
    assert d.puzzleProfile == Sha256LeadingZeroBits;
  }
}
