/** What a comparison of two builds says about the archives behind its rows. */
module ArchiveEvidence {
  import opened ArchiveDigest
  import opened Bytes
  import opened Hex
  import opened JsonValues
  import opened Reproducibility
  import opened Sequences
  import opened Sorting
  import opened TarDigest
  import opened Wrappers

  type Hash = seq<Byte> -> seq<Byte>

  /** Two different inputs on which the hash agrees. */
  predicate Collide(hash: Hash, a: seq<Byte>, b: seq<Byte>) { a != b && hash(a) == hash(b) }

  function ZipFields(complete: string, unsigned: string): Json {
    Obj(map["scheme" := Str("zip-entry-content-v1"), "sha256" := Str(complete),
            "unsigned_payload_sha256" := Str(unsigned)])
  }

  /** The record of a ZIP archive in the manifest. */
  function ZipNormalized(hash: Hash, upper: string -> string, ms: seq<Member>): Json {
    ZipFields(ToHex(hash(CompleteStream(ms))), ToHex(hash(UnsignedStream(upper, ms))))
  }

  /** The record of a tar archive, which has no unsigned digest. */
  function TarNormalized(hash: Hash, ms: seq<TarMember>): Json {
    Obj(map["scheme" := Str("tar-entry-content-mode-v1"), "sha256" := Str(ToHex(hash(TarStreamOf(Sort(ByName, ms)))))])
  }

  /** The files of an archive that are no signatures, by name and payload. */
  function UnsignedFiles(upper: string -> string, ms: seq<Member>): seq<Entry> {
    UnsignedEntries(upper, Entries(SortedFiles(ms)))
  }

  lemma UnsignedFilesRead(upper: string -> string, ms: seq<Member>)
    requires Readable(Entries(SortedFiles(ms)))
    ensures Readable(UnsignedFiles(upper, ms)) && UnsignedStream(upper, ms) == Stream(UnsignedFiles(upper, ms))
  {
    var es := Entries(SortedFiles(ms));
    FilterMembers((e: Entry) => !IsSignature(upper, e.name), es);
    UnsignedOf(upper, Sort(ByFilename, ms));
  }

  lemma SameDigest(hash: Hash, a: seq<Byte>, b: seq<Byte>)
    ensures ToHex(hash(a)) == ToHex(hash(b)) ==> a == b || Collide(hash, a, b)
  {
    FromToHex(hash(a));
    FromToHex(hash(b));
  }

  lemma ZipGets(complete: string, unsigned: string)
    ensures var v := ZipFields(complete, unsigned);
            && Get(v, "scheme") == Str("zip-entry-content-v1") && Get(v, "sha256") == Str(complete)
            && Get(v, "unsigned_payload_sha256") == Str(unsigned)
  {
  }

  /** Two ZIP records agree on a field exactly if one of their digests is the same. */
  lemma ZipCommonField(c: string, u: string, d: string, w: string)
    ensures CommonField(ZipFields(c, u), ZipFields(d, w)).Some? <==> u == w || c == d
  {
    ZipGets(c, u);
    ZipGets(d, w);
  }

  /**
   Two ZIP artifacts with different files are reported as equal after
   normalization if they hold the same files apart from signatures; and if they
   are so reported, they do, or two of the streams that were hashed collide.
   */
  lemma NormalizedZipsMatch(
    hash: Hash, upper: string -> string, a: Artifact, b: Artifact, ms: seq<Member>, ns: seq<Member>)
    requires a.normalized == ZipNormalized(hash, upper, ms) && b.normalized == ZipNormalized(hash, upper, ns)
    requires a.sha256 != b.sha256 && Readable(Entries(SortedFiles(ms))) && Readable(Entries(SortedFiles(ns)))
    ensures UnsignedFiles(upper, ms) == UnsignedFiles(upper, ns) ==> ReportedNormalized(a, b)
    ensures ReportedNormalized(a, b) ==>
              || UnsignedFiles(upper, ms) == UnsignedFiles(upper, ns)
              || Collide(hash, UnsignedStream(upper, ms), UnsignedStream(upper, ns))
              || Collide(hash, CompleteStream(ms), CompleteStream(ns))
  {
    ZipCommonField(ToHex(hash(CompleteStream(ms))), ToHex(hash(UnsignedStream(upper, ms))),
                   ToHex(hash(CompleteStream(ns))), ToHex(hash(UnsignedStream(upper, ns))));
    UnsignedFilesRead(upper, ms);
    UnsignedFilesRead(upper, ns);
    SameDigest(hash, UnsignedStream(upper, ms), UnsignedStream(upper, ns));
    SameDigest(hash, CompleteStream(ms), CompleteStream(ns));
    if CompleteStream(ms) == CompleteStream(ns) { CompleteDeterminesUnsigned(upper, ms, ns); }
    if UnsignedStream(upper, ms) == UnsignedStream(upper, ns) {
      StreamInjective(UnsignedFiles(upper, ms), UnsignedFiles(upper, ns));
    }
  }

  /** Any two tar artifacts with different files are so reported, whatever they hold. */
  lemma TarsAlwaysNormalized(hash: Hash, a: Artifact, b: Artifact, ms: seq<TarMember>, ns: seq<TarMember>)
    requires a.normalized == TarNormalized(hash, ms) && b.normalized == TarNormalized(hash, ns) && a.sha256 != b.sha256
    ensures ReportedNormalized(a, b) && !SharesDigest(a, b)
  {
    AbsentFieldsAgree("", a, b);
  }
}
