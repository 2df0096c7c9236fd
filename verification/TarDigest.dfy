/** The normalized digest of tar archives. */
module TarDigest {
  import opened ArchiveDigest
  import opened Bytes
  import opened Sequences
  import opened Sorting
  import opened Strings
  import opened Unicode
  import opened Wrappers

  /** A tar member is framed with its permission bits between name and payload. */
  datatype TarEntry = TarEntry(name: string, mode: nat, payload: seq<Byte>)

  /** Octal digits without leading zeros. */
  function Octal(n: nat): (r: seq<Byte>)
    ensures r != [] && (|r| == 1 <==> n < 8)
  {
    if n < 8 then [0x30 + n] else Octal(n / 8) + [0x30 + n % 8]
  }

  lemma {:induction false} OctalInjective(m: nat, n: nat)
    requires Octal(m) == Octal(n)
    ensures m == n
  {
    var s, t := Octal(m), Octal(n);
    assert s[|s| - 1] == t[|t| - 1];
    if m >= 8 && n >= 8 {
      assert s[..|s| - 1] == Octal(m / 8) && t[..|t| - 1] == Octal(n / 8);
      OctalInjective(m / 8, n / 8);
    }
  }

  lemma {:induction false} OctalNonZero(n: nat)
    ensures forall i :: 0 <= i < |Octal(n)| ==> Octal(n)[i] != 0
  {
    if n >= 8 { OctalNonZero(n / 8); }
  }

  function TarPrefix(e: TarEntry): seq<Byte> { Utf8Of(e.name) + [0] + (Octal(e.mode) + [0]) }

  function TarStream(es: seq<TarEntry>): seq<Byte> {
    if es == [] then [] else Frame(TarPrefix(es[0]), es[0].payload) + TarStream(es[1..])
  }

  predicate TarReadable(es: seq<TarEntry>) {
    forall i :: 0 <= i < |es| ==>
      NulFree(es[i].name) && |TarPrefix(es[i])| + |es[i].payload| < 0x1_0000_0000_0000_0000
  }

  /** Equal tar streams come from equal lists of names, permissions and payloads. */
  lemma {:induction false} TarStreamInjective(es: seq<TarEntry>, fs: seq<TarEntry>)
    requires TarReadable(es) && TarReadable(fs) && TarStream(es) == TarStream(fs)
    ensures es == fs
  {
    if es != [] && fs != [] {
      var e, f := es[0], fs[0];
      FrameInjective(TarPrefix(e), e.payload, TarStream(es[1..]), TarPrefix(f), f.payload, TarStream(fs[1..]));
      TarFrameInjective(e, f);
      TarStreamInjective(es[1..], fs[1..]);
      assert es == [e] + es[1..] && fs == [f] + fs[1..];
    }
  }

  lemma TarFrameInjective(e: TarEntry, f: TarEntry)
    requires NulFree(e.name) && NulFree(f.name) && TarPrefix(e) + e.payload == TarPrefix(f) + f.payload
    ensures e == f
  {
    Utf8OfNonZero(e.name);
    Utf8OfNonZero(f.name);
    OctalNonZero(e.mode);
    OctalNonZero(f.mode);
    var x, y := Octal(e.mode) + [0] + e.payload, Octal(f.mode) + [0] + f.payload;
    assert TarPrefix(e) + e.payload == Utf8Of(e.name) + [0] + x;
    assert TarPrefix(f) + f.payload == Utf8Of(f.name) + [0] + y;
    SplitAtZero(Utf8Of(e.name), x, Utf8Of(f.name), y);
    SplitAtZero(Octal(e.mode), e.payload, Octal(f.mode), f.payload);
    Utf8OfInjective(e.name, f.name);
    OctalInjective(e.mode, f.mode);
  }

  // ------------------------------------------------------------- acceptance

  datatype Kind = Regular | Directory | Special

  /** A member as the archive lists it, with its declared size and the octets it holds. */
  datatype TarMember = TarMember(name: string, kind: Kind, mode: nat, size: int, payload: seq<Byte>)

  predicate ByName(a: TarMember, b: TarMember) { AtMost(a.name, b.name) }

  function RegularSize(m: TarMember): int { if m.kind == Regular then m.size else 0 }

  /** Of the mode only the nine permission bits are framed. */
  function TarEntryOf(m: TarMember): TarEntry { TarEntry(NameOf(m.name), m.mode % 0x200, m.payload) }

  function TarEntries(ms: seq<TarMember>): seq<TarEntry> {
    if ms == [] then []
    else if ms[0].kind == Regular then [TarEntryOf(ms[0])] + TarEntries(ms[1..]) else TarEntries(ms[1..])
  }

  function TarStreamOf(ms: seq<TarMember>): seq<Byte> { TarStream(TarEntries(ms)) }

  predicate SoundMember(m: TarMember) {
    SafePath(m.name) && m.kind != Special && (m.kind == Regular ==> m.size == |m.payload|)
  }

  /** Files and directories with safe and distinct names, and nothing else. */
  ghost predicate SoundMembers(ms: seq<TarMember>) {
    && (forall m :: m in ms ==> SoundMember(m))
    && forall i, j :: 0 <= i < j < |ms| ==> NameOf(ms[i].name) != NameOf(ms[j].name)
  }

  ghost predicate AcceptableTar(ms: seq<TarMember>) {
    && |ms| <= MAX_ARCHIVE_MEMBERS && Sum(RegularSize, ms) <= MAX_ARTIFACT_BYTES
    && SoundMembers(Sort(ByName, ms))
  }

  lemma SoundMembersExtended(ms: seq<TarMember>, m: TarMember)
    requires SoundMembers(ms)
    ensures SoundMembers(ms + [m]) <==> SoundMember(m) && forall x :: x in ms ==> NameOf(x.name) != NameOf(m.name)
  {
    var all := ms + [m];
    if SoundMembers(all) {
      assert all[|ms|] == m;
      forall x | x in ms ensures NameOf(x.name) != NameOf(m.name) {
        var i :| 0 <= i < |ms| && ms[i] == x;
        assert all[i] == x;
      }
    }
  }

  lemma SoundMembersPrefix(ms: seq<TarMember>, n: nat)
    requires n <= |ms|
    ensures SoundMembers(ms) ==> SoundMembers(ms[..n])
  {
  }

  lemma {:induction false} TarEntriesAppend(ms: seq<TarMember>, m: TarMember)
    ensures TarEntries(ms + [m]) == TarEntries(ms) + (if m.kind == Regular then [TarEntryOf(m)] else [])
  {
    if ms != [] {
      TarEntriesAppend(ms[1..], m);
      assert (ms + [m])[1..] == ms[1..] + [m];
    } else {
      assert ms + [m] == [m] && [m][1..] == [];
    }
  }

  lemma {:induction false} TarStreamAppend(es: seq<TarEntry>, e: TarEntry)
    ensures TarStream(es + [e]) == TarStream(es) + Frame(TarPrefix(e), e.payload)
  {
    if es != [] {
      TarStreamAppend(es[1..], e);
      assert (es + [e])[1..] == es[1..] + [e];
      Regrouped(Frame(TarPrefix(es[0]), es[0].payload), TarStream(es[1..]), Frame(TarPrefix(e), e.payload));
    } else {
      assert es + [e] == [e] && [e][1..] == [];
      assert Frame(TarPrefix(e), e.payload) + [] == [] + Frame(TarPrefix(e), e.payload);
    }
  }

  /** One member on top of those before it: refused, passed over or fed to the digest. */
  method DigestTarMember(m: TarMember, seen: seq<TarMember>, digest: Digest, haste: nat -> nat) returns (ok: bool)
    requires SoundMembers(seen) && digest.stream == TarStreamOf(seen)
    modifies digest
    ensures ok == SoundMembers(seen + [m])
    ensures ok ==> digest.stream == TarStreamOf(seen + [m])
  {
    SoundMembersExtended(seen, m);
    TarEntriesAppend(seen, m);
    if !SafePath(m.name) || (exists x :: x in seen && NameOf(x.name) == NameOf(m.name)) { return false; }
    if m.kind == Directory {
      assert TarEntries(seen) + [] == TarEntries(seen);
      return true;
    }
    if m.kind != Regular { return false; }
    TarStreamAppend(TarEntries(seen), TarEntryOf(m));
    var source := new Source(m.payload, haste);
    var digests := [digest];
    ok := UpdateFramedMember(digests, TarPrefix(TarEntryOf(m)), source, m.size);
    assert digests[0] == digest;
  }

  method DigestSortedTar(sorted: seq<TarMember>, haste: nat -> nat) returns (r: Option<seq<Byte>>)
    ensures r.Some? <==> SoundMembers(sorted)
    ensures r.Some? ==> r.value == TarStreamOf(sorted)
  {
    var digest := new Digest();
    for i := 0 to |sorted|
      invariant fresh(digest) && SoundMembers(sorted[..i]) && digest.stream == TarStreamOf(sorted[..i])
    {
      assert sorted[..i + 1] == sorted[..i] + [sorted[i]];
      SoundMembersPrefix(sorted, i + 1);
      var ok := DigestTarMember(sorted[i], sorted[..i], digest, haste);
      if !ok { return None; }
    }
    assert sorted[..|sorted|] == sorted;
    return Some(digest.stream);
  }

  /** Succeeds exactly on acceptable archives, with the stream that is then hashed. */
  method NormalizedTar(ms: seq<TarMember>, haste: nat -> nat) returns (r: Option<seq<Byte>>)
    ensures r.Some? <==> AcceptableTar(ms)
    ensures r.Some? ==> r.value == TarStreamOf(Sort(ByName, ms))
  {
    if |ms| > MAX_ARCHIVE_MEMBERS { return None; }
    if Sum(RegularSize, ms) > MAX_ARTIFACT_BYTES { return None; }
    r := DigestSortedTar(Sort(ByName, ms), haste);
  }

  // ------------------------------------------------------- order of members

  lemma NamesOrdered()
    ensures TotalPreorder(ByName)
  {
    forall a: TarMember, b: TarMember ensures ByName(a, b) || ByName(b, a) {
      AtMostTotal(a.name, b.name);
    }
    forall a: TarMember, b: TarMember, c: TarMember | ByName(a, b) && ByName(b, c) ensures ByName(a, c) {
      AtMostTransitive(a.name, b.name, c.name);
    }
  }

  lemma NamesDecide(xs: seq<TarMember>)
    requires SoundMembers(xs)
    ensures forall x, y :: x in xs && y in xs && ByName(x, y) && ByName(y, x) ==> x == y
  {
    forall x, y | x in xs && y in xs && ByName(x, y) && ByName(y, x) ensures x == y {
      AtMostAntisymmetric(x.name, y.name);
      var i :| 0 <= i < |xs| && xs[i] == x;
      var j :| 0 <= j < |xs| && xs[j] == y;
    }
  }

  lemma SameSort(a: seq<TarMember>, b: seq<TarMember>)
    requires multiset(a) == multiset(b) && SoundMembers(Sort(ByName, a))
    ensures Sort(ByName, a) == Sort(ByName, b)
  {
    var xs := Sort(ByName, a);
    NamesOrdered();
    SortSorts(ByName, a);
    SortSorts(ByName, b);
    SortMultiset(ByName, a);
    SortMultiset(ByName, b);
    NamesDecide(xs);
    SortedUnique(ByName, xs, Sort(ByName, b));
  }

  /** The order in which a tar archive lists its members changes neither its acceptance nor its stream. */
  lemma TarOrderIrrelevant(a: seq<TarMember>, b: seq<TarMember>)
    requires multiset(a) == multiset(b) && AcceptableTar(a)
    ensures AcceptableTar(b) && TarStreamOf(Sort(ByName, a)) == TarStreamOf(Sort(ByName, b))
  {
    assert |a| == |multiset(a)| == |multiset(b)| == |b|;
    SumSameMultiset(RegularSize, a, b);
    SameSort(a, b);
  }

  // -------------------------------------------------- what the stream determines

  /** The archive holds a file of that name, with those permissions and that content. */
  ghost predicate HoldsFile(ms: seq<TarMember>, name: string, permissions: nat, payload: seq<Byte>) {
    exists m :: m in ms && m.kind == Regular && NameOf(m.name) == name && m.mode % 512 == permissions
                && m.payload == payload
  }

  lemma {:induction false} EntriesHold(ms: seq<TarMember>, name: string, permissions: nat, payload: seq<Byte>)
    ensures TarEntry(name, permissions, payload) in TarEntries(ms) <==> HoldsFile(ms, name, permissions, payload)
  {
    if ms != [] {
      EntriesHold(ms[1..], name, permissions, payload);
      assert ms == [ms[0]] + ms[1..];
    }
  }

  /** Archives with the same stream hold the same files, with the same permissions and content. */
  lemma TarDetermines(a: seq<TarMember>, b: seq<TarMember>, name: string, permissions: nat, payload: seq<Byte>)
    requires TarReadable(TarEntries(Sort(ByName, a))) && TarReadable(TarEntries(Sort(ByName, b)))
    requires TarStreamOf(Sort(ByName, a)) == TarStreamOf(Sort(ByName, b))
    ensures HoldsFile(a, name, permissions, payload) <==> HoldsFile(b, name, permissions, payload)
  {
    TarStreamInjective(TarEntries(Sort(ByName, a)), TarEntries(Sort(ByName, b)));
    EntriesHold(Sort(ByName, a), name, permissions, payload);
    EntriesHold(Sort(ByName, b), name, permissions, payload);
    SortMembers(ByName, a);
    SortMembers(ByName, b);
  }

  // -------------------------------------------------------- acceptance spelled out

  predicate HarmlessTar(m: TarMember) {
    && (m.name == [] || m.name[0] != '/') && ".." !in Split(m.name, '/')
    && (exists part :: part in Split(m.name, '/') && part != "" && part != ".")
    && (m.kind == Directory || (m.kind == Regular && |m.payload| == m.size))
  }

  lemma SoundMemberIsHarmless(m: TarMember)
    ensures SoundMember(m) <==> HarmlessTar(m)
  {
    FilterMembers(Meaningful, Split(m.name, '/'));
    var parts := PathParts(m.name);
    if parts != [] { assert parts[0] in parts; }
  }

  function TarNameOf(m: TarMember): string { NameOf(m.name) }

  /** A tar archive is acceptable exactly within its limits, with harmless and differently named members. */
  lemma AcceptableTarExact(ms: seq<TarMember>)
    ensures AcceptableTar(ms) <==>
            && |ms| <= 1024 && Sum(RegularSize, ms) <= 17179869184
            && (forall m :: m in ms ==> HarmlessTar(m)) && DistinctBy(TarNameOf, ms)
  {
    var sorted := Sort(ByName, ms);
    SortMultiset(ByName, ms);
    SortMembers(ByName, ms);
    forall m | m in ms ensures SoundMember(m) <==> HarmlessTar(m) { SoundMemberIsHarmless(m); }
    if DistinctBy(TarNameOf, sorted) { DistinctMoves(TarNameOf, sorted, ms); }
    if DistinctBy(TarNameOf, ms) { DistinctMoves(TarNameOf, ms, sorted); }
  }
}
