/** The framed streams behind the normalized digests of release archives. */
module ArchiveDigest {
  import opened Bytes
  import opened Sequences
  import opened Sorting
  import opened Strings
  import opened Unicode
  import opened Wrappers

  const MAX_ARCHIVE_MEMBERS: nat := 1024
  const MAX_ARTIFACT_BYTES: nat := 16 * 1024 * 1024 * 1024

  // --------------------------------------------------------------- frames

  /** One member in the stream: the length of what follows, a prefix that names it, its payload. */
  function Frame(prefix: seq<Byte>, payload: seq<Byte>): seq<Byte> {
    BigEndian(|prefix| + |payload|, 8) + (prefix + payload)
  }

  /** A frame says in its first eight octets, most significant first, how many follow. */
  lemma FrameLayout(prefix: seq<Byte>, payload: seq<Byte>)
    requires |prefix| + |payload| < 0x1_0000_0000_0000_0000
    ensures FromBigEndian(Frame(prefix, payload)[..8]) == |prefix| + |payload|
    ensures Frame(prefix, payload)[8..] == prefix + payload
  {
    Capacities();
    BigEndianReads(|prefix| + |payload|, 8);
    assert Frame(prefix, payload)[..8] == BigEndian(|prefix| + |payload|, 8);
  }

  /** A running digest, seen as the octets fed to it so far. */
  class Digest {
    var stream: seq<Byte>

    constructor ()
      ensures stream == []
    {
      stream := [];
    }

    method Update(s: seq<Byte>)
      modifies this
      ensures stream == old(stream) + s
    {
      stream := stream + s;
    }
  }

  ghost predicate Grown(ds: seq<Digest>, was: seq<seq<Byte>>, s: seq<Byte>)
    reads ds
    requires |was| == |ds|
  {
    forall i :: 0 <= i < |ds| ==> ds[i].stream == was[i] + s
  }

  ghost predicate Separate(ds: seq<Digest>) {
    forall i, j :: 0 <= i < j < |ds| ==> ds[i] != ds[j]
  }

  method UpdateAll(ds: seq<Digest>, s: seq<Byte>, ghost was: seq<seq<Byte>>, ghost done: seq<Byte>)
    requires Separate(ds) && |was| == |ds| && Grown(ds, was, done)
    modifies ds
    ensures Grown(ds, was, done + s)
  {
    for i := 0 to |ds|
      invariant forall k :: 0 <= k < i ==> ds[k].stream == was[k] + (done + s)
      invariant forall k :: i <= k < |ds| ==> ds[k].stream == was[k] + done
    {
      ds[i].Update(s);
      assert was[i] + done + s == was[i] + (done + s);
    }
  }

  /** An open archive member: reading gives at least one octet until there are none, but as few as it likes. */
  class Source {
    const data: seq<Byte>
    const haste: nat -> nat
    var pos: nat

    ghost predicate Valid()
      reads this
    {
      pos <= |data|
    }

    constructor (data: seq<Byte>, haste: nat -> nat)
      ensures Valid() && this.data == data && this.haste == haste && pos == 0
    {
      this.data, this.haste, pos := data, haste, 0;
    }

    method Read(n: nat) returns (block: seq<Byte>)
      requires Valid()
      modifies this
      ensures Valid() && old(pos) <= pos && block == data[old(pos)..pos] && |block| <= n
      ensures n > 0 && old(pos) < |data| ==> |block| > 0
    {
      var want := if n == 0 then 0 else 1 + haste(pos) % n;
      var take := if want <= |data| - pos then want else |data| - pos;
      block := data[pos..pos + take];
      pos := pos + take;
    }
  }

  /** The reading loop: blocks of at most a mebibyte until the declared size is reached or nothing more comes. */
  method CopyPayload(ds: seq<Digest>, source: Source, size: nat, ghost was: seq<seq<Byte>>, ghost done: seq<Byte>)
    returns (complete: bool)
    requires source.Valid() && source.pos == 0 && Separate(ds) && |was| == |ds| && Grown(ds, was, done)
    modifies ds, source
    ensures source.Valid() && complete == (size <= |source.data|)
    ensures complete ==> source.pos == size && Grown(ds, was, done + source.data[..size])
  {
    var remaining := size;
    assert done + source.data[..0] == done;
    while remaining > 0
      invariant 0 <= remaining && source.Valid() && source.pos == size - remaining
      invariant Grown(ds, was, done + source.data[..source.pos])
    {
      ghost var pos := source.pos;
      var block := source.Read(if remaining < 1024 * 1024 then remaining else 1024 * 1024);
      if block == [] { return false; }
      remaining := remaining - |block|;
      UpdateAll(ds, block, was, done + source.data[..pos]);
      assert done + source.data[..pos] + block == done + source.data[..source.pos];
    }
    return true;
  }

  /**
   Feeds one member to every digest. It succeeds exactly when the member has its
   declared size, and what the digests get does not depend on how it was read.
   */
  method UpdateFramedMember(ds: seq<Digest>, prefix: seq<Byte>, source: Source, payloadSize: int) returns (ok: bool)
    requires source.Valid() && source.pos == 0 && Separate(ds)
    modifies ds, source
    ensures ok == (payloadSize == |source.data|)
    ensures ok ==> forall i :: 0 <= i < |ds| ==> ds[i].stream == old(ds[i].stream) + Frame(prefix, source.data)
  {
    ghost var was := seq(|ds|, i requires 0 <= i < |ds| reads ds => ds[i].stream);
    assert Grown(ds, was, []);
    ok := FeedFrame(ds, prefix, source, payloadSize, was);
  }

  method FeedFrame(ds: seq<Digest>, prefix: seq<Byte>, source: Source, payloadSize: int, ghost was: seq<seq<Byte>>)
    returns (ok: bool)
    requires source.Valid() && source.pos == 0 && Separate(ds) && |was| == |ds| && Grown(ds, was, [])
    modifies ds, source
    ensures ok == (payloadSize == |source.data|)
    ensures ok ==> Grown(ds, was, Frame(prefix, source.data))
  {
    if payloadSize < 0 { return false; }
    ok := FeedParts(ds, BigEndian(|prefix| + payloadSize, 8), prefix, source, payloadSize, was);
    FrameParts(prefix, source.data);
  }

  method FeedParts(ds: seq<Digest>, head: seq<Byte>, prefix: seq<Byte>, source: Source, size: nat,
      ghost was: seq<seq<Byte>>)
    returns (ok: bool)
    requires source.Valid() && source.pos == 0 && Separate(ds) && |was| == |ds| && Grown(ds, was, [])
    modifies ds, source
    ensures ok == (size == |source.data|)
    ensures ok ==> Grown(ds, was, [] + head + prefix + source.data)
  {
    UpdateAll(ds, head, was, []);
    UpdateAll(ds, prefix, was, [] + head);
    var complete := CopyPayload(ds, source, size, was, [] + head + prefix);
    if !complete { return false; }
    var extra := source.Read(1);
    if extra != [] { return false; }
    assert source.data[..size] == source.data;
    return true;
  }

  lemma FrameParts(prefix: seq<Byte>, payload: seq<Byte>)
    ensures [] + BigEndian(|prefix| + |payload|, 8) + prefix + payload == Frame(prefix, payload)
  {
  }

  // ------------------------------------------------------------- ZIP files

  /** A member as the archive lists it, with its declared size and the octets it holds. */
  datatype Member = Member(filename: string, isDir: bool, isLink: bool, encrypted: bool, size: int, payload: seq<Byte>)

  predicate Meaningful(part: string) { part != "" && part != "." }

  /** The parts of a POSIX path, without empty ones and without dots. */
  function PathParts(filename: string): seq<string> { Filter(Meaningful, Split(filename, '/')) }

  predicate Absolute(filename: string) { filename != [] && filename[0] == '/' }

  function NameOf(filename: string): string { Join(PathParts(filename), '/') }

  predicate SafePath(filename: string) {
    !Absolute(filename) && PathParts(filename) != [] && ".." !in PathParts(filename)
  }

  predicate IsFile(m: Member) { !m.isDir }

  predicate ByFilename(a: Member, b: Member) { AtMost(a.filename, b.filename) }

  /** A signature file of a signed archive; how letters are raised is the platform's. */
  predicate IsSignature(upper: string -> string, name: string) {
    var u := upper(name);
    "META-INF/" <= u && exists s :: s in {".RSA", ".DSA", ".EC", ".SF", ".MF"} && EndsWith(u, s)
  }

  datatype Entry = Entry(name: string, payload: seq<Byte>)

  function EntryOf(m: Member): Entry { Entry(NameOf(m.filename), m.payload) }

  function Entries(ms: seq<Member>): (r: seq<Entry>)
    ensures |r| == |ms|
    ensures forall i :: 0 <= i < |ms| ==> r[i] == EntryOf(ms[i])
  {
    seq(|ms|, i requires 0 <= i < |ms| => EntryOf(ms[i]))
  }

  function Prefix(name: string): seq<Byte> { Utf8Of(name) + [0] }

  function Stream(es: seq<Entry>): seq<Byte> {
    if es == [] then [] else Frame(Prefix(es[0].name), es[0].payload) + Stream(es[1..])
  }

  /** Files other than signatures. */
  function Plain(upper: string -> string): Member -> bool {
    m => IsFile(m) && !IsSignature(upper, NameOf(m.filename))
  }

  function SortedFiles(ms: seq<Member>): seq<Member> { Filter(IsFile, Sort(ByFilename, ms)) }

  function CompleteStream(ms: seq<Member>): seq<Byte> { Stream(Entries(SortedFiles(ms))) }

  function UnsignedStream(upper: string -> string, ms: seq<Member>): seq<Byte> {
    Stream(Entries(Filter(Plain(upper), Sort(ByFilename, ms))))
  }

  function FileSize(m: Member): int { if m.isDir then 0 else m.size }

  function Expanded(ms: seq<Member>): int { Sum(FileSize, ms) }

  predicate Sound(m: Member) {
    SafePath(m.filename) && !m.isLink && !m.encrypted && m.size == |m.payload|
  }

  /** Sound files with distinct names. */
  ghost predicate SoundFiles(files: seq<Member>) {
    && (forall m :: m in files ==> Sound(m))
    && forall i, j :: 0 <= i < j < |files| ==> NameOf(files[i].filename) != NameOf(files[j].filename)
  }

  ghost predicate Acceptable(ms: seq<Member>) {
    |ms| <= MAX_ARCHIVE_MEMBERS && Expanded(ms) <= MAX_ARTIFACT_BYTES && SoundFiles(SortedFiles(ms))
  }

  lemma SoundExtended(files: seq<Member>, m: Member)
    requires SoundFiles(files)
    ensures SoundFiles(files + [m]) <==> Sound(m) && forall f :: f in files ==> NameOf(f.filename) != NameOf(m.filename)
  {
    var all := files + [m];
    if SoundFiles(all) {
      assert all[|files|] == m;
      forall f | f in files ensures NameOf(f.filename) != NameOf(m.filename) {
        var i :| 0 <= i < |files| && files[i] == f;
        assert all[i] == f;
      }
    }
  }

  lemma SoundPrefix(a: seq<Member>, b: seq<Member>)
    requires SoundFiles(a + b)
    ensures SoundFiles(a)
  {
    assert forall i :: 0 <= i < |a| ==> (a + b)[i] == a[i];
    assert forall m :: m in a ==> m in a + b;
  }

  lemma {:induction false} StreamAppend(es: seq<Entry>, e: Entry)
    ensures Stream(es + [e]) == Stream(es) + Frame(Prefix(e.name), e.payload)
  {
    if es == [] {
      assert [e][1..] == [] && es + [e] == [e];
    } else {
      StreamAppend(es[1..], e);
      assert (es + [e])[1..] == es[1..] + [e] && (es + [e])[0] == es[0];
      Regrouped(Frame(Prefix(es[0].name), es[0].payload), Stream(es[1..]), Frame(Prefix(e.name), e.payload));
    }
  }

  lemma EntriesAppend(ms: seq<Member>, m: Member)
    ensures Stream(Entries(ms + [m])) == Stream(Entries(ms)) + MemberFrame(m)
  {
    assert Entries(ms + [m]) == Entries(ms) + [EntryOf(m)];
    StreamAppend(Entries(ms), EntryOf(m));
  }

  function MemberFrame(m: Member): seq<Byte> { Frame(Prefix(NameOf(m.filename)), m.payload) }

  /** The stream of those members that pass a filter. */
  function StreamOf(p: Member -> bool, ms: seq<Member>): seq<Byte> { Stream(Entries(Filter(p, ms))) }

  lemma FilterAppend<T>(p: T -> bool, s: seq<T>, x: T)
    ensures Filter(p, s + [x]) == if p(x) then Filter(p, s) + [x] else Filter(p, s)
  {
    FilterConcat(p, s, [x]);
    assert [x][1..] == [];
  }

  lemma StreamOfAppend(p: Member -> bool, ms: seq<Member>, m: Member)
    ensures StreamOf(p, ms + [m]) == if p(m) then StreamOf(p, ms) + MemberFrame(m) else StreamOf(p, ms)
  {
    FilterAppend(p, ms, m);
    EntriesAppend(Filter(p, ms), m);
  }

  lemma SoundNext(seen: seq<Member>, m: Member)
    requires SoundFiles(Filter(IsFile, seen))
    ensures SoundFiles(Filter(IsFile, seen + [m])) <==>
            m.isDir || (Sound(m) && forall f :: f in Filter(IsFile, seen) ==> NameOf(f.filename) != NameOf(m.filename))
  {
    FilterAppend(IsFile, seen, m);
    SoundExtended(Filter(IsFile, seen), m);
  }

  /** Signature files go to the first digest only. */
  method FeedFile(m: Member, complete: Digest, unsigned: Digest, upper: string -> string, haste: nat -> nat)
    returns (ok: bool)
    requires complete != unsigned
    modifies complete, unsigned
    ensures ok == (m.size == |m.payload|)
    ensures ok ==> complete.stream == old(complete.stream) + MemberFrame(m)
    ensures ok ==>
              unsigned.stream ==
              old(unsigned.stream) + (if IsSignature(upper, NameOf(m.filename)) then [] else MemberFrame(m))
  {
    var name := NameOf(m.filename);
    var source := new Source(m.payload, haste);
    if IsSignature(upper, name) {
      var digests := [complete];
      ok := UpdateFramedMember(digests, Prefix(name), source, m.size);
      assert digests[0] == complete;
    } else {
      var digests := [complete, unsigned];
      ok := UpdateFramedMember(digests, Prefix(name), source, m.size);
      assert digests[0] == complete && digests[1] == unsigned;
    }
  }

  /** One member on top of those before it: refused, passed over or fed to the digests it belongs to. */
  method DigestMember(m: Member, seen: seq<Member>, complete: Digest, unsigned: Digest, upper: string -> string,
      haste: nat -> nat)
    returns (ok: bool)
    requires complete != unsigned && SoundFiles(Filter(IsFile, seen))
    requires complete.stream == StreamOf(IsFile, seen) && unsigned.stream == StreamOf(Plain(upper), seen)
    modifies complete, unsigned
    ensures ok == SoundFiles(Filter(IsFile, seen + [m]))
    ensures ok ==> complete.stream == StreamOf(IsFile, seen + [m])
    ensures ok ==> unsigned.stream == StreamOf(Plain(upper), seen + [m])
  {
    SoundNext(seen, m);
    StreamOfAppend(IsFile, seen, m);
    StreamOfAppend(Plain(upper), seen, m);
    if m.isDir { return true; }
    var files := Filter(IsFile, seen);
    if !SafePath(m.filename) || m.isLink || m.encrypted
       || (exists f :: f in files && NameOf(f.filename) == NameOf(m.filename))
    {
      return false;
    }
    ok := FeedFile(m, complete, unsigned, upper, haste);
  }

  /** Succeeds exactly on acceptable archives, with the two streams that are then hashed. */
  method NormalizedZip(ms: seq<Member>, upper: string -> string, haste: nat -> nat)
    returns (r: Option<(seq<Byte>, seq<Byte>)>)
    ensures r.Some? <==> Acceptable(ms)
    ensures r.Some? ==> r.value == (CompleteStream(ms), UnsignedStream(upper, ms))
  {
    if |ms| > MAX_ARCHIVE_MEMBERS { return None; }
    if Expanded(ms) > MAX_ARTIFACT_BYTES { return None; }
    r := DigestSorted(Sort(ByFilename, ms), upper, haste);
  }

  method DigestSorted(sorted: seq<Member>, upper: string -> string, haste: nat -> nat)
    returns (r: Option<(seq<Byte>, seq<Byte>)>)
    ensures r.Some? <==> SoundFiles(Filter(IsFile, sorted))
    ensures r.Some? ==> r.value == (StreamOf(IsFile, sorted), StreamOf(Plain(upper), sorted))
  {
    var complete := new Digest();
    var unsigned := new Digest();
    for i := 0 to |sorted|
      invariant complete != unsigned && fresh(complete) && fresh(unsigned)
      invariant SoundFiles(Filter(IsFile, sorted[..i]))
      invariant complete.stream == StreamOf(IsFile, sorted[..i])
                && unsigned.stream == StreamOf(Plain(upper), sorted[..i])
    {
      assert sorted[..i + 1] == sorted[..i] + [sorted[i]];
      var ok := DigestMember(sorted[i], sorted[..i], complete, unsigned, upper, haste);
      if !ok {
        Refused(sorted, i + 1);
        return None;
      }
    }
    assert sorted[..|sorted|] == sorted;
    return Some((complete.stream, unsigned.stream));
  }

  lemma Refused(sorted: seq<Member>, n: nat)
    requires n <= |sorted| && !SoundFiles(Filter(IsFile, sorted[..n]))
    ensures !SoundFiles(Filter(IsFile, sorted))
  {
    var a, b := Filter(IsFile, sorted[..n]), Filter(IsFile, sorted[n..]);
    assert Filter(IsFile, sorted) == a + b by {
      assert sorted == sorted[..n] + sorted[n..];
      FilterConcat(IsFile, sorted[..n], sorted[n..]);
    }
    if SoundFiles(a + b) { SoundPrefix(a, b); }
  }

  // ---------------------------------------------------- what streams determine

  predicate NulFree(name: string) { forall i :: 0 <= i < |name| ==> name[i] as int != 0 }

  /** Names a reader can tell apart from payloads, and frames whose length fits in eight octets. */
  predicate Readable(es: seq<Entry>) {
    forall i :: 0 <= i < |es| ==>
      NulFree(es[i].name) && |Prefix(es[i].name)| + |es[i].payload| < 0x1_0000_0000_0000_0000
  }

  lemma SplitAtZero(a: seq<Byte>, p: seq<Byte>, b: seq<Byte>, q: seq<Byte>)
    requires (forall i :: 0 <= i < |a| ==> a[i] != 0) && (forall i :: 0 <= i < |b| ==> b[i] != 0)
    requires a + [0] + p == b + [0] + q
    ensures a == b && p == q
  {
    var s := a + [0] + p;
    assert s[|a|] == 0 && s[|b|] == 0;
    assert forall i :: 0 <= i < |a| ==> s[i] == a[i];
    assert forall i :: 0 <= i < |b| ==> s[i] == b[i];
    SamePrefix(a + [0], p, b + [0], q);
    SamePrefix(a, [0], b, [0]);
  }

  lemma FrameInjective(p: seq<Byte>, x: seq<Byte>, s: seq<Byte>, q: seq<Byte>, y: seq<Byte>, t: seq<Byte>)
    requires |p| + |x| < 0x1_0000_0000_0000_0000 && |q| + |y| < 0x1_0000_0000_0000_0000
    requires Frame(p, x) + s == Frame(q, y) + t
    ensures p + x == q + y && s == t
  {
    Capacities();
    var m, n := |p + x|, |q + y|;
    Regrouped(BigEndian(m, 8), p + x, s);
    Regrouped(BigEndian(n, 8), q + y, t);
    SamePrefix(BigEndian(m, 8), (p + x) + s, BigEndian(n, 8), (q + y) + t);
    BigEndianInjective(m, n, 8);
    SamePrefix(p + x, s, q + y, t);
  }

  lemma EntryInjective(e: Entry, s: seq<Byte>, f: Entry, t: seq<Byte>)
    requires Readable([e]) && Readable([f])
    requires Frame(Prefix(e.name), e.payload) + s == Frame(Prefix(f.name), f.payload) + t
    ensures e == f && s == t
  {
    assert [e][0] == e && [f][0] == f;
    FrameInjective(Prefix(e.name), e.payload, s, Prefix(f.name), f.payload, t);
    Utf8OfNonZero(e.name);
    Utf8OfNonZero(f.name);
    SplitAtZero(Utf8Of(e.name), e.payload, Utf8Of(f.name), f.payload);
    Utf8OfInjective(e.name, f.name);
  }

  /** Equal streams come from equal lists of names and payloads. */
  lemma {:induction false} StreamInjective(es: seq<Entry>, fs: seq<Entry>)
    requires Readable(es) && Readable(fs) && Stream(es) == Stream(fs)
    ensures es == fs
  {
    if es != [] && fs != [] {
      var e, f := es[0], fs[0];
      EntryInjective(e, Stream(es[1..]), f, Stream(fs[1..]));
      StreamInjective(es[1..], fs[1..]);
      assert es == [e] + es[1..] && fs == [f] + fs[1..];
    }
  }

  function UnsignedEntries(upper: string -> string, es: seq<Entry>): seq<Entry> {
    Filter((e: Entry) => !IsSignature(upper, e.name), es)
  }

  lemma {:induction false} UnsignedOf(upper: string -> string, ms: seq<Member>)
    ensures Entries(Filter(Plain(upper), ms)) == UnsignedEntries(upper, Entries(Filter(IsFile, ms)))
  {
    if ms != [] {
      UnsignedOf(upper, ms[1..]);
      EntriesFront(ms[0], Filter(IsFile, ms[1..]));
      EntriesFront(ms[0], Filter(Plain(upper), ms[1..]));
    }
  }

  lemma EntriesFront(m: Member, rest: seq<Member>)
    ensures Entries([m] + rest) == [EntryOf(m)] + Entries(rest) && Entries([m] + rest)[1..] == Entries(rest)
  {
    var all, parts := Entries([m] + rest), [EntryOf(m)] + Entries(rest);
    forall i | 0 <= i < |all| ensures all[i] == parts[i] {
      if i > 0 { assert ([m] + rest)[i] == rest[i - 1]; }
    }
    assert all == parts;
  }

  /** Two archives with the same complete stream have the same unsigned stream. */
  lemma CompleteDeterminesUnsigned(upper: string -> string, a: seq<Member>, b: seq<Member>)
    requires Readable(Entries(SortedFiles(a))) && Readable(Entries(SortedFiles(b)))
    requires CompleteStream(a) == CompleteStream(b)
    ensures UnsignedStream(upper, a) == UnsignedStream(upper, b)
  {
    StreamInjective(Entries(SortedFiles(a)), Entries(SortedFiles(b)));
    UnsignedOf(upper, Sort(ByFilename, a));
    UnsignedOf(upper, Sort(ByFilename, b));
  }

  // ------------------------------------------------------- order of members

  lemma FilenamesOrdered()
    ensures TotalPreorder(ByFilename)
  {
    forall a: Member, b: Member ensures ByFilename(a, b) || ByFilename(b, a) {
      AtMostTotal(a.filename, b.filename);
    }
    forall a: Member, b: Member, c: Member | ByFilename(a, b) && ByFilename(b, c) ensures ByFilename(a, c) {
      AtMostTransitive(a.filename, b.filename, c.filename);
    }
  }

  lemma {:induction false} FilterSorted<T>(le: (T, T) -> bool, p: T -> bool, s: seq<T>)
    requires Sorted(le, s)
    ensures Sorted(le, Filter(p, s))
  {
    if s != [] {
      FilterSorted(le, p, s[1..]);
      FilterMembers(p, s[1..]);
      forall x | x in s[1..] ensures le(s[0], x) {
        var k :| 0 <= k < |s[1..]| && s[1..][k] == x;
        assert le(s[0], s[k + 1]);
      }
      var all, rest := [s[0]] + Filter(p, s[1..]), Filter(p, s[1..]);
      forall i, j | 0 <= i < j < |all| ensures le(all[i], all[j]) {
        assert all[j] == rest[j - 1] && rest[j - 1] in rest;
        if i == 0 {
          assert rest[j - 1] in s[1..];
        } else {
          assert all[i] == rest[i - 1] && le(rest[i - 1], rest[j - 1]);
        }
      }
    }
  }

  lemma ChosenSorted(p: Member -> bool, a: seq<Member>)
    ensures var xs := Filter(p, Sort(ByFilename, a)); Sorted(ByFilename, xs) && multiset(xs) == multiset(Filter(p, a))
  {
    FilenamesOrdered();
    SortSorts(ByFilename, a);
    SortMultiset(ByFilename, a);
    FilterSorted(ByFilename, p, Sort(ByFilename, a));
    FilterSameMultiset(p, Sort(ByFilename, a), a);
  }

  /** Two sorts of members whose chosen files agree, chosen: the same list. */
  lemma ChosenUnique(p: Member -> bool, a: seq<Member>, b: seq<Member>)
    requires multiset(Filter(p, a)) == multiset(Filter(p, b))
    requires forall x, y :: x in Filter(p, a) && y in Filter(p, a) && x.filename == y.filename ==> x == y
    ensures Filter(p, Sort(ByFilename, a)) == Filter(p, Sort(ByFilename, b))
  {
    FilenamesOrdered();
    ChosenSorted(p, a);
    ChosenSorted(p, b);
    var xs := Filter(p, Sort(ByFilename, a));
    Rearranged(xs, Filter(p, a));
    SortedUnique(ByFilename, xs, Filter(p, Sort(ByFilename, b)));
  }

  lemma Rearranged(xs: seq<Member>, files: seq<Member>)
    requires multiset(xs) == multiset(files)
    requires forall x, y :: x in files && y in files && x.filename == y.filename ==> x == y
    ensures forall x, y :: x in xs && y in xs && ByFilename(x, y) && ByFilename(y, x) ==> x == y
  {
    forall x, y | x in xs && y in xs && ByFilename(x, y) && ByFilename(y, x) ensures x == y {
      AtMostAntisymmetric(x.filename, y.filename);
      assert x in multiset(files) && y in multiset(files);
    }
  }

  lemma SoundNamesDiffer(ms: seq<Member>, p: Member -> bool)
    requires SoundFiles(SortedFiles(ms)) && forall m :: p(m) ==> IsFile(m)
    ensures forall x, y :: x in Filter(p, ms) && y in Filter(p, ms) && x.filename == y.filename ==> x == y
  {
    var files := SortedFiles(ms);
    FilterMembers(p, ms);
    FilterMembers(IsFile, Sort(ByFilename, ms));
    SortMembers(ByFilename, ms);
    forall x, y | x in Filter(p, ms) && y in Filter(p, ms) && x.filename == y.filename ensures x == y {
      var i :| 0 <= i < |files| && files[i] == x;
      var j :| 0 <= j < |files| && files[j] == y;
    }
  }

  /** The order in which an archive lists its members changes neither its acceptance nor its streams. */
  lemma OrderIrrelevant(upper: string -> string, a: seq<Member>, b: seq<Member>)
    requires multiset(a) == multiset(b) && Acceptable(a)
    ensures Acceptable(b)
    ensures CompleteStream(a) == CompleteStream(b) && UnsignedStream(upper, a) == UnsignedStream(upper, b)
  {
    assert |a| == |multiset(a)| == |multiset(b)| == |b|;
    SumSameMultiset(FileSize, a, b);
    FilterSameMultiset(IsFile, a, b);
    SoundNamesDiffer(a, IsFile);
    ChosenUnique(IsFile, a, b);
    UnsignedOf(upper, Sort(ByFilename, a));
    UnsignedOf(upper, Sort(ByFilename, b));
  }

  /** Archives that differ only in their signature files have the same unsigned stream. */
  lemma SignaturesIrrelevant(upper: string -> string, a: seq<Member>, b: seq<Member>)
    requires Acceptable(a) && multiset(Filter(Plain(upper), a)) == multiset(Filter(Plain(upper), b))
    ensures UnsignedStream(upper, a) == UnsignedStream(upper, b)
  {
    SoundNamesDiffer(a, Plain(upper));
    ChosenUnique(Plain(upper), a, b);
  }

  // ------------------------------------------------- what the streams determine

  const SIGNATURE_SUFFIXES: seq<string> := [".RSA", ".DSA", ".EC", ".SF", ".MF"]

  predicate SpelledSo(u: string, stem: string, suffix: string) { u == "META-INF/" + stem + suffix }

  /** The signature files are exactly those under META-INF with one of five suffixes, in whatever case. */
  lemma SignatureNames(upper: string -> string, name: string)
    ensures IsSignature(upper, name) <==>
            exists stem, suffix :: suffix in SIGNATURE_SUFFIXES && SpelledSo(upper(name), stem, suffix)
  {
    var u := upper(name);
    if IsSignature(upper, name) {
      var s :| s in {".RSA", ".DSA", ".EC", ".SF", ".MF"} && EndsWith(u, s);
      SuffixBehindDirectory(u, s);
      assert s in SIGNATURE_SUFFIXES && SpelledSo(u, u[9..|u| - |s|], s);
    }
    forall stem, suffix | suffix in SIGNATURE_SUFFIXES && SpelledSo(u, stem, suffix) ensures IsSignature(upper, name) {
      assert u[..9] == "META-INF/" && EndsWith(u, suffix);
    }
  }

  /** The directory has no dot, so a suffix that starts with one lies behind it. */
  lemma SuffixBehindDirectory(u: string, s: string)
    requires "META-INF/" <= u && EndsWith(u, s) && s != [] && s[0] == '.'
    ensures |u| - |s| >= 9 && u == "META-INF/" + u[9..|u| - |s|] + s
  {
    var k := |u| - |s|;
    assert u[k] == u[k..][0] == '.';
    assert k >= 9 by {
      assert forall j :: 0 <= j < 9 ==> u[j] == "META-INF/"[j];
      assert forall j :: 0 <= j < 9 ==> "META-INF/"[j] != '.';
    }
    assert u == u[..9] + u[9..k] + u[k..];
  }

  /** The archive holds a file of that name with that content. */
  ghost predicate Holds(ms: seq<Member>, name: string, payload: seq<Byte>) {
    exists m :: m in ms && !m.isDir && NameOf(m.filename) == name && m.payload == payload
  }

  lemma HoldsEntry(p: Member -> bool, ms: seq<Member>, name: string, payload: seq<Byte>)
    requires forall m :: p(m) ==> !m.isDir
    requires forall m: Member :: !m.isDir && NameOf(m.filename) == name ==> p(m)
    ensures Entry(name, payload) in Entries(Filter(p, Sort(ByFilename, ms))) <==> Holds(ms, name, payload)
  {
    var chosen := Filter(p, Sort(ByFilename, ms));
    SortMembers(ByFilename, ms);
    FilterMembers(p, Sort(ByFilename, ms));
    var es := Entries(chosen);
    if Entry(name, payload) in es {
      var i :| 0 <= i < |es| && es[i] == Entry(name, payload);
      assert es[i] == EntryOf(chosen[i]) && chosen[i] in chosen;
    }
    forall m | m in ms && !m.isDir && NameOf(m.filename) == name && m.payload == payload
      ensures Entry(name, payload) in es
    {
      assert m in chosen;
      var i :| 0 <= i < |chosen| && chosen[i] == m;
      assert es[i] == EntryOf(m);
    }
  }

  /** Archives with the same complete stream hold the same files, with the same content. */
  lemma CompleteDetermines(a: seq<Member>, b: seq<Member>, name: string, payload: seq<Byte>)
    requires Readable(Entries(SortedFiles(a))) && Readable(Entries(SortedFiles(b)))
    requires CompleteStream(a) == CompleteStream(b)
    ensures Holds(a, name, payload) <==> Holds(b, name, payload)
  {
    StreamInjective(Entries(SortedFiles(a)), Entries(SortedFiles(b)));
    HoldsEntry(IsFile, a, name, payload);
    HoldsEntry(IsFile, b, name, payload);
  }

  /** Archives with the same unsigned stream hold the same files apart from signatures. */
  lemma UnsignedDetermines(
    upper: string -> string, a: seq<Member>, b: seq<Member>, name: string, payload: seq<Byte>)
    requires Readable(Entries(Filter(Plain(upper), Sort(ByFilename, a))))
    requires Readable(Entries(Filter(Plain(upper), Sort(ByFilename, b))))
    requires UnsignedStream(upper, a) == UnsignedStream(upper, b) && !IsSignature(upper, name)
    ensures Holds(a, name, payload) <==> Holds(b, name, payload)
  {
    var p := Plain(upper);
    StreamInjective(Entries(Filter(p, Sort(ByFilename, a))), Entries(Filter(p, Sort(ByFilename, b))));
    HoldsEntry(p, a, name, payload);
    HoldsEntry(p, b, name, payload);
  }

  // -------------------------------------------------------- acceptance spelled out

  /** A file of an acceptable archive: it stays below the directory it is unpacked in, and is what it declares. */
  predicate Harmless(m: Member) {
    && (m.filename == [] || m.filename[0] != '/') && ".." !in Split(m.filename, '/')
    && (exists part :: part in Split(m.filename, '/') && part != "" && part != ".")
    && !m.isLink && !m.encrypted && |m.payload| == m.size
  }

  lemma SoundIsHarmless(m: Member)
    ensures Sound(m) <==> Harmless(m)
  {
    FilterMembers(Meaningful, Split(m.filename, '/'));
    var parts := PathParts(m.filename);
    if parts != [] { assert parts[0] in parts; }
  }

  function FileNameOf(m: Member): string { NameOf(m.filename) }

  /** An archive is acceptable exactly if it is within its limits, and its files are harmless and differently named. */
  lemma AcceptableExact(ms: seq<Member>)
    ensures Acceptable(ms) <==>
            && |ms| <= 1024 && Sum(FileSize, ms) <= 17179869184
            && (forall m :: m in ms && !m.isDir ==> Harmless(m)) && DistinctBy(FileNameOf, Filter(IsFile, ms))
  {
    var files, listed := SortedFiles(ms), Filter(IsFile, ms);
    ChosenSorted(IsFile, ms);
    FilterMembers(IsFile, ms);
    forall m | m in ms ensures Sound(m) <==> Harmless(m) { SoundIsHarmless(m); }
    forall m ensures m in files <==> m in ms && IsFile(m) {
      assert m in files <==> m in multiset(files);
      assert m in listed <==> m in multiset(listed);
    }
    if DistinctBy(FileNameOf, files) { DistinctMoves(FileNameOf, files, listed); }
    if DistinctBy(FileNameOf, listed) { DistinctMoves(FileNameOf, listed, files); }
  }

  /** The name of a path without empty parts and dots is the path, and naming a name changes nothing. */
  lemma NameOfPlain(filename: string)
    ensures (forall part :: part in Split(filename, '/') ==> part != "" && part != ".") ==> NameOf(filename) == filename
    ensures PathParts(filename) != [] ==> PathParts(NameOf(filename)) == PathParts(filename)
  {
    var all, parts := Split(filename, '/'), PathParts(filename);
    SplitJoins(filename, '/');
    if forall part :: part in all ==> Meaningful(part) { FilterAll(Meaningful, all); }
    FilterMembers(Meaningful, all);
    if parts != [] {
      JoinSplits(parts, '/');
      FilterAll(Meaningful, parts);
    }
  }

  lemma {:induction false} FilterAll<T>(p: T -> bool, s: seq<T>)
    requires forall x :: x in s ==> p(x)
    ensures Filter(p, s) == s
  {
    if s != [] {
      FilterAll(p, s[1..]);
      assert s == [s[0]] + s[1..];
    }
  }
}
