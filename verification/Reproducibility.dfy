/** Comparing two builds of a release, and validating the record of a comparison. */
module Reproducibility {
  import opened Hex
  import opened JsonValues
  import opened Sequences
  import opened Sorting
  import opened Strings
  import opened Wrappers
  import ArchiveDigest

  /** A SHA-256 digest in lowercase hex. */
  predicate IsDigest(s: string) { |s| == 64 && forall i :: 0 <= i < |s| ==> IsHexDigit(s[i]) }

  /** A complete lowercase source digest, of either length. */
  predicate IsRevision(s: string) { |s| in {40, 64} && forall i :: 0 <= i < |s| ==> IsHexDigit(s[i]) }

  predicate DigestValue(v: Json) { v.Str? && IsDigest(v.s) }

  /** An artifact row: its size, mode and digest, and what it says of its normalized content (null if nothing). */
  datatype Artifact = Artifact(path: string, bytes: int, mode: string, sha256: string, normalized: Json)

  /** What the statements below need of the rows of a manifest. */
  predicate ValidManifest(rows: seq<Artifact>) {
    && rows != []
    && (forall i :: 0 <= i < |rows| ==> IsDigest(rows[i].sha256))
    && forall i, j :: 0 <= i < j < |rows| ==> rows[i].path != rows[j].path
  }

  function Lookup(rows: seq<Artifact>, path: string): Option<Artifact> {
    if rows == [] then None else if rows[0].path == path then Some(rows[0]) else Lookup(rows[1..], path)
  }

  /** A field of an object; an absent one reads as null. */
  function Get(v: Json, key: string): Json
    requires v.Obj?
  {
    if key in v.fields then v.fields[key] else Null
  }

  // ------------------------------------------------------------ comparing

  datatype Row =
    | Missing(path: string, first: bool, second: bool, present: string)
    | Exact(path: string, sha256: string)
    | Normalized(path: string, scheme: Json, field: string, digest: Json, firstFile: string, secondFile: string)
    | Explained(path: string, explanation: string, evidence: seq<string>, firstFile: string, secondFile: string)
    | Different(path: string, firstFile: string, secondFile: string)

  /** The first normalized field on which two records of one scheme agree. */
  function CommonField(a: Json, b: Json): Option<string> {
    if !(a.Obj? && b.Obj? && Alike(Get(a, "scheme"), Get(b, "scheme"))) then None
    else if Alike(Get(a, "unsigned_payload_sha256"), Get(b, "unsigned_payload_sha256"))
      then Some("unsigned_payload_sha256")
    else if Alike(Get(a, "sha256"), Get(b, "sha256")) then Some("sha256")
    else None
  }

  function RowFor(name: string, a: Option<Artifact>, b: Option<Artifact>): Row
    requires a.Some? || b.Some?
  {
    if a.None? || b.None? then Missing(name, a.Some?, b.Some?, if a.Some? then a.value.sha256 else b.value.sha256)
    else if a.value.sha256 == b.value.sha256 then Exact(name, a.value.sha256)
    else
      match CommonField(a.value.normalized, b.value.normalized)
      case Some(field) =>
        Normalized(name, Get(a.value.normalized, "scheme"), field, Get(a.value.normalized, field),
                   a.value.sha256, b.value.sha256)
      case None => Different(name, a.value.sha256, b.value.sha256)
  }

  datatype Counts = Counts(exact: nat, normalized: nat, explained: nat, unexplained: nat)

  function Counted(c: Counts, r: Row): Counts {
    match r
    case Exact(_, _) => c.(exact := c.exact + 1)
    case Normalized(_, _, _, _, _, _) => c.(normalized := c.normalized + 1)
    case Explained(_, _, _, _, _) => c.(explained := c.explained + 1)
    case _ => c.(unexplained := c.unexplained + 1)
  }

  function Tally(rows: seq<Row>): Counts {
    if rows == [] then Counts(0, 0, 0, 0) else Counted(Tally(rows[..|rows| - 1]), rows[|rows| - 1])
  }

  /** A report's address as the library takes it apart. */
  datatype Uri = Uri(scheme: string, netloc: string)

  /** Who reproduced a build, where and when, and their report; what is missing or not text is given as empty. */
  datatype Independence = Independence(
    separatelyAdministered: bool, administrator: string, environment: string, executedAt: string,
    reportSha256: string, reportUri: Uri)

  /** The report: what it is about, its rows, its summary, and what it claims of independence. */
  datatype Report = Report(
    schema: string, revision: string, firstBuilder: Option<string>, secondBuilder: Option<string>,
    rows: seq<Row>, compared: nat, counts: Counts, independent: bool, evidence: Option<Independence>)

  const COMPARISON_SCHEMA: string := "komms-reproducibility-comparison/v1"

  /** The evidence of one build: its revision, its builder and its artifacts. */
  datatype Evidence = Evidence(schema: string, revision: string, builder: Option<string>, artifacts: seq<Artifact>)

  const EVIDENCE_SCHEMA: string := "komms-release-evidence/v1"
  const MAX_ARTIFACT_FILES: nat := 512

  function Paths(rows: seq<Artifact>): (r: seq<string>)
    ensures |r| == |rows| && forall i :: 0 <= i < |rows| ==> r[i] == rows[i].path
  {
    seq(|rows|, i requires 0 <= i < |rows| => rows[i].path)
  }

  /** The paths of the second manifest that the first lacks. */
  function Lacking(left: seq<Artifact>, right: seq<Artifact>): seq<string> {
    if right == [] then []
    else (if right[0].path in Paths(left) then [] else [right[0].path]) + Lacking(left, right[1..])
  }

  /** All paths of both, in order. */
  function Names(left: seq<Artifact>, right: seq<Artifact>): seq<string> {
    Sort(AtMost, Paths(left) + Lacking(left, right))
  }

  lemma {:induction false} LookupFinds(rows: seq<Artifact>, path: string)
    ensures Lookup(rows, path).Some? <==> path in Paths(rows)
    ensures Lookup(rows, path).Some? ==> Lookup(rows, path).value in rows && Lookup(rows, path).value.path == path
  {
    if rows != [] {
      LookupFinds(rows[1..], path);
      assert Paths(rows) == [rows[0].path] + Paths(rows[1..]);
    }
  }

  lemma {:induction false} LackingMembers(left: seq<Artifact>, right: seq<Artifact>)
    ensures forall p :: p in Lacking(left, right) <==> p in Paths(right) && p !in Paths(left)
  {
    if right != [] {
      LackingMembers(left, right[1..]);
      assert Paths(right) == [right[0].path] + Paths(right[1..]);
    }
  }

  lemma NamesMembers(left: seq<Artifact>, right: seq<Artifact>)
    ensures forall p :: p in Names(left, right) <==> p in Paths(left) || p in Paths(right)
  {
    LackingMembers(left, right);
    SortMembers(AtMost, Paths(left) + Lacking(left, right));
  }

  function RowsFor(left: seq<Artifact>, right: seq<Artifact>, names: seq<string>): (r: seq<Row>)
    requires forall p :: p in names ==> p in Paths(left) || p in Paths(right)
    ensures |r| == |names|
  {
    if names == [] then []
    else
      var last := names[|names| - 1];
      LookupFinds(left, last);
      LookupFinds(right, last);
      RowsFor(left, right, names[..|names| - 1]) + [RowFor(last, Lookup(left, last), Lookup(right, last))]
  }

  /** The report that comparing two builds gives; it never claims independence. */
  function Comparison(first: Evidence, second: Evidence): Report {
    var left, right := first.artifacts, second.artifacts;
    NamesMembers(left, right);
    var rows := RowsFor(left, right, Names(left, right));
    Report(COMPARISON_SCHEMA, first.revision, first.builder, second.builder, rows, |rows|, Tally(rows), false, None)
  }

  lemma {:induction false} TallyAdds(rows: seq<Row>)
    requires forall r :: r in rows ==> !r.Explained?
    ensures var c := Tally(rows); c.explained == 0 && c.unexplained == |rows| - c.exact - c.normalized
  {
    if rows != [] { TallyAdds(rows[..|rows| - 1]); }
  }

  lemma {:induction false} RowsUnexplained(left: seq<Artifact>, right: seq<Artifact>, names: seq<string>)
    requires forall p :: p in names ==> p in Paths(left) || p in Paths(right)
    ensures forall r :: r in RowsFor(left, right, names) ==> !r.Explained?
  {
    if names != [] { RowsUnexplained(left, right, names[..|names| - 1]); }
  }

  lemma RowsGrow(left: seq<Artifact>, right: seq<Artifact>, names: seq<string>, i: nat)
    requires i < |names| && forall p :: p in names ==> p in Paths(left) || p in Paths(right)
    ensures Lookup(left, names[i]).Some? || Lookup(right, names[i]).Some?
    ensures RowsFor(left, right, names[..i + 1]) ==
            RowsFor(left, right, names[..i]) + [RowFor(names[i], Lookup(left, names[i]), Lookup(right, names[i]))]
  {
    LookupFinds(left, names[i]);
    LookupFinds(right, names[i]);
    assert names[..i + 1][..i] == names[..i] && names[..i + 1][i] == names[i];
  }

  lemma TallyGrows(rows: seq<Row>, row: Row)
    ensures Tally(rows + [row]) == Counted(Tally(rows), row)
  {
  }

  lemma TallyOf(left: seq<Artifact>, right: seq<Artifact>, names: seq<string>)
    requires forall p :: p in names ==> p in Paths(left) || p in Paths(right)
    ensures var c := Tally(RowsFor(left, right, names));
            c.explained == 0 && c.unexplained == |names| - c.exact - c.normalized
  {
    RowsUnexplained(left, right, names);
    TallyAdds(RowsFor(left, right, names));
  }

  /** One row for every path, and how many of them are exact or normalized. */
  method CompareRows(left: seq<Artifact>, right: seq<Artifact>, names: seq<string>)
    returns (rows: seq<Row>, exact: nat, normalized: nat)
    requires forall p :: p in names ==> p in Paths(left) || p in Paths(right)
    ensures rows == RowsFor(left, right, names)
    ensures exact == Tally(rows).exact && normalized == Tally(rows).normalized
  {
    rows, exact, normalized := [], 0, 0;
    for i := 0 to |names|
      invariant rows == RowsFor(left, right, names[..i])
      invariant exact == Tally(rows).exact && normalized == Tally(rows).normalized
    {
      LookupFinds(left, names[i]);
      LookupFinds(right, names[i]);
      var row := RowFor(names[i], Lookup(left, names[i]), Lookup(right, names[i]));
      RowsGrow(left, right, names, i);
      TallyGrows(rows, row);
      rows := rows + [row];
      if row.Exact? { exact := exact + 1; }
      if row.Normalized? { normalized := normalized + 1; }
    }
    assert names[..|names|] == names;
  }

  // ------------------------------------------------------ validated manifests

  predicate SoundRow(r: Artifact) {
    && Below(r.path, "artifacts") && r.bytes >= 0 && IsDigest(r.sha256)
    && |r.mode| == 4 && forall i :: 0 <= i < 4 ==> '0' <= r.mode[i] <= '7'
  }

  predicate AllSound(rows: seq<Artifact>) { forall i :: 0 <= i < |rows| ==> SoundRow(rows[i]) }

  function Bytes(r: Artifact): int { r.bytes }

  /** Sound rows with distinct paths, within the limits on their number and their total size. */
  ghost predicate ValidRows(rows: seq<Artifact>) {
    && ValidManifest(rows) && AllSound(rows)
    && |rows| <= MAX_ARTIFACT_FILES && Sum(Bytes, rows) <= ArchiveDigest.MAX_ARTIFACT_BYTES
  }

  lemma {:induction false} SumGrows(rows: seq<Artifact>, n: nat)
    requires n <= |rows| && forall i :: 0 <= i < |rows| ==> rows[i].bytes >= 0
    ensures 0 <= Sum(Bytes, rows[..n]) <= Sum(Bytes, rows)
  {
    if rows != [] {
      var k := if n == 0 then 0 else n - 1;
      SumGrows(rows[1..], k);
      if n > 0 { assert rows[..n][1..] == rows[1..][..k]; }
    }
  }

  method ValidatedRows(rows: seq<Artifact>) returns (ok: bool)
    ensures ok <==> ValidRows(rows)
  {
    if rows == [] || |rows| > MAX_ARTIFACT_FILES { return false; }
    var total := 0;
    for i := 0 to |rows|
      invariant total == Sum(Bytes, rows[..i]) <= ArchiveDigest.MAX_ARTIFACT_BYTES
      invariant forall k :: 0 <= k < i ==> SoundRow(rows[k])
      invariant forall j, k :: 0 <= j < k < i ==> rows[j].path != rows[k].path
    {
      if !SoundRow(rows[i]) || (exists j :: 0 <= j < i && rows[j].path == rows[i].path) { return false; }
      SumNext(rows, i);
      total := total + rows[i].bytes;
      if total > ArchiveDigest.MAX_ARTIFACT_BYTES {
        TooMuch(rows, i + 1);
        return false;
      }
    }
    assert rows[..|rows|] == rows;
    return true;
  }

  lemma SumNext(rows: seq<Artifact>, i: nat)
    requires i < |rows|
    ensures Sum(Bytes, rows[..i + 1]) == Sum(Bytes, rows[..i]) + rows[i].bytes
  {
    assert rows[..i + 1] == rows[..i] + [rows[i]];
    SumConcat(Bytes, rows[..i], [rows[i]]);
    assert [rows[i]][1..] == [];
  }

  lemma TooMuch(rows: seq<Artifact>, n: nat)
    requires n <= |rows| && Sum(Bytes, rows[..n]) > ArchiveDigest.MAX_ARTIFACT_BYTES
    ensures !ValidRows(rows)
  {
    if forall i :: 0 <= i < |rows| ==> rows[i].bytes >= 0 { SumGrows(rows, n); }
  }

  predicate OctalText(s: string) { |s| == 4 && forall c :: c in s ==> c in "01234567" }

  predicate LowerHex(s: string, n: nat) { |s| == n && forall c :: c in s ==> '0' <= c <= '9' || 'a' <= c <= 'f' }

  function PathOf(r: Artifact): string { r.path }

  /** The rows of a manifest are valid exactly if there are some, not too many, each as prescribed, none twice. */
  lemma ValidRowsExact(rows: seq<Artifact>)
    ensures ValidRows(rows) <==>
            && 1 <= |rows| <= 512 && Sum(Bytes, rows) <= 17179869184 && DistinctBy(PathOf, rows)
            && AllSpelled(rows)
  {
    RowsSpelled(rows);
    if AllSound(rows) { SoundManifest(rows); }
  }

  predicate AllSpelled(rows: seq<Artifact>) { forall r :: r in rows ==> RowSpelled(r) }

  lemma SoundManifest(rows: seq<Artifact>)
    requires AllSound(rows)
    ensures ValidManifest(rows) <==> rows != [] && DistinctBy(PathOf, rows)
  {
    assert forall i :: 0 <= i < |rows| ==> IsDigest(rows[i].sha256);
    if DistinctBy(PathOf, rows) {
      assert forall i, j :: 0 <= i < j < |rows| ==> PathOf(rows[i]) != PathOf(rows[j]);
    }
  }

  lemma RowsSpelled(rows: seq<Artifact>)
    ensures AllSound(rows) <==> AllSpelled(rows)
  {
    forall r | r in rows ensures SoundRow(r) <==> RowSpelled(r) { SoundRowExact(r); }
    assert forall i :: 0 <= i < |rows| ==> rows[i] in rows;
  }

  predicate RowSpelled(r: Artifact) {
    Below(r.path, "artifacts") && r.bytes >= 0 && OctalText(r.mode) && LowerHex(r.sha256, 64)
  }

  lemma SoundRowExact(r: Artifact)
    ensures SoundRow(r) <==> RowSpelled(r)
  {
    assert forall c: char :: c in "01234567" <==> '0' <= c <= '7';
    assert forall i :: 0 <= i < |r.mode| ==> r.mode[i] in r.mode;
    assert forall i :: 0 <= i < |r.sha256| ==> r.sha256[i] in r.sha256;
  }

  /** Both are evidence of one complete revision, with valid rows; exact trims and lowers a revision. */
  ghost predicate Comparing(first: Evidence, second: Evidence, exact: string -> string) {
    && first.schema == EVIDENCE_SCHEMA && second.schema == EVIDENCE_SCHEMA && first.revision == second.revision
    && IsRevision(exact(first.revision)) && ValidRows(first.artifacts) && ValidRows(second.artifacts)
  }

  /** What is compared: two documents of the one schema, about the same complete revision, with valid rows. */
  lemma ComparingExact(first: Evidence, second: Evidence, exact: string -> string)
    ensures Comparing(first, second, exact) <==>
            && first.schema == "komms-release-evidence/v1" && second.schema == "komms-release-evidence/v1"
            && first.revision == second.revision && ValidRows(first.artifacts) && ValidRows(second.artifacts)
            && (LowerHex(exact(first.revision), 40) || LowerHex(exact(first.revision), 64))
  {
    var s := exact(first.revision);
    assert forall i :: 0 <= i < |s| ==> s[i] in s;
  }

  /** Refuses everything but two valid builds of one revision. */
  method CompareEvidence(first: Evidence, second: Evidence, exact: string -> string) returns (report: Option<Report>)
    ensures report == if Comparing(first, second, exact) then Some(Comparison(first, second)) else None
  {
    if first.schema != EVIDENCE_SCHEMA || second.schema != EVIDENCE_SCHEMA { return None; }
    if first.revision != second.revision || !IsRevision(exact(first.revision)) { return None; }
    var validFirst := ValidatedRows(first.artifacts);
    if !validFirst { return None; }
    var validSecond := ValidatedRows(second.artifacts);
    if !validSecond { return None; }
    var compared := Compared(first, second);
    return Some(compared);
  }

  method Compared(first: Evidence, second: Evidence) returns (report: Report)
    ensures report == Comparison(first, second)
  {
    var left, right := first.artifacts, second.artifacts;
    var names := Names(left, right);
    NamesMembers(left, right);
    var rows, exact, normalized := CompareRows(left, right, names);
    TallyOf(left, right, names);
    return Report(COMPARISON_SCHEMA, first.revision, first.builder, second.builder, rows, |names|,
                  Counts(exact, normalized, 0, |names| - exact - normalized), false, None);
  }

  // ----------------------------------------------------------- validating

  predicate Blank(s: string) { forall i :: 0 <= i < |s| ==> s[i] in " \t\n\r" }

  /** One of the two digests of a row is well formed and the artifact's own. */
  predicate NamesFile(expected: string, first: string, second: string) {
    (expected == first && IsDigest(first)) || (expected == second && IsDigest(second))
  }

  /** The row is sufficient evidence about the artifact with the expected digest. */
  predicate RowOk(r: Row, expected: string) {
    match r
    case Exact(_, sha256) => sha256 == expected
    case Normalized(_, scheme, field, digest, first, second) =>
      && NamesFile(expected, first, second)
      && scheme.Str? && scheme.s != "" && (field == "sha256" || field == "unsigned_payload_sha256")
      && DigestValue(digest)
    case Explained(_, explanation, evidence, first, second) =>
      && NamesFile(expected, first, second)
      && !Blank(explanation) && evidence != [] && forall i :: 0 <= i < |evidence| ==> !Blank(evidence[i])
    case Different(_, first, second) =>
      IsDigest(first) && IsDigest(second) && first != second && NamesFile(expected, first, second)
    case Missing(_, first, second, present) => first != second && present == expected
  }

  ghost predicate RowsOk(rows: seq<Row>, artifacts: seq<Artifact>) {
    && (forall i :: 0 <= i < |rows| ==>
         Lookup(artifacts, rows[i].path).Some? && RowOk(rows[i], Lookup(artifacts, rows[i].path).value.sha256))
    && forall i, j :: 0 <= i < j < |rows| ==> rows[i].path != rows[j].path
  }

  /** Every artifact has a row. */
  predicate Covers(rows: seq<Row>, artifacts: seq<Artifact>) {
    forall i :: 0 <= i < |artifacts| ==> exists j :: 0 <= j < |rows| && rows[j].path == artifacts[i].path
  }

  /** The evidence of independence is complete. */
  predicate Complete(e: Independence) {
    && e.separatelyAdministered && !Blank(e.administrator) && !Blank(e.environment) && !Blank(e.executedAt)
    && IsDigest(e.reportSha256) && e.reportUri.scheme == "https" && e.reportUri.netloc != ""
  }

  predicate IndependenceShown(r: Report) {
    && r.evidence.Some? && Complete(r.evidence.value)
    && r.firstBuilder.Some? && r.secondBuilder.Some? && r.firstBuilder != r.secondBuilder
  }

  ghost predicate ValidReport(r: Report, revision: string, artifacts: seq<Artifact>, requireIndependent: bool) {
    && r.schema == COMPARISON_SCHEMA && r.revision == revision
    && r.rows != [] && RowsOk(r.rows, artifacts)
    && r.compared == |r.rows| && r.counts == Tally(r.rows)
    && (r.independent ==> IndependenceShown(r) && Covers(r.rows, artifacts) && r.counts.unexplained == 0)
    && (requireIndependent ==> r.independent)
  }

  method CheckRows(rows: seq<Row>, artifacts: seq<Artifact>) returns (c: Option<Counts>)
    ensures c == if RowsOk(rows, artifacts) then Some(Tally(rows)) else None
  {
    var counts := Counts(0, 0, 0, 0);
    for i := 0 to |rows|
      invariant counts == Tally(rows[..i]) && RowsOk(rows[..i], artifacts)
    {
      var row := rows[i];
      if exists j :: 0 <= j < i && rows[j].path == row.path { return None; }
      var expected := Lookup(artifacts, row.path);
      if expected.None? || !RowOk(row, expected.value.sha256) { return None; }
      assert rows[..i + 1] == rows[..i] + [row];
      TallyGrows(rows[..i], row);
      counts := Counted(counts, row);
    }
    assert rows[..|rows|] == rows;
    return Some(counts);
  }

  /** Accepts exactly the valid reports, and says whether they are independent. */
  method ValidateRecord(r: Report, revision: string, artifacts: seq<Artifact>, requireIndependent: bool)
    returns (independent: Option<bool>)
    ensures independent == if ValidReport(r, revision, artifacts, requireIndependent) then Some(r.independent) else None
  {
    if r.schema != COMPARISON_SCHEMA || r.revision != revision { return None; }
    if r.rows == [] { return None; }
    var counts := CheckRows(r.rows, artifacts);
    if counts.None? { return None; }
    if r.compared != |r.rows| || r.counts != counts.value { return None; }
    if r.independent {
      if r.evidence.None? || !Complete(r.evidence.value) { return None; }
      if r.firstBuilder.None? || r.secondBuilder.None? || r.firstBuilder == r.secondBuilder { return None; }
    }
    if r.independent {
      if !Covers(r.rows, artifacts) { return None; }
      if counts.value.unexplained != 0 { return None; }
    }
    if requireIndependent && !r.independent { return None; }
    return Some(r.independent);
  }

  lemma {:induction false} NothingUnexplained(rows: seq<Row>)
    requires Tally(rows).unexplained == 0
    ensures forall r :: r in rows ==> !r.Missing? && !r.Different?
  {
    if rows != [] {
      NothingUnexplained(rows[..|rows| - 1]);
      assert rows == rows[..|rows| - 1] + [rows[|rows| - 1]];
    }
  }

  // ------------------------------------------------ what an accepted row says

  /** An exact row carries the artifact's own digest. */
  predicate SaysSame(row: Row, a: Artifact) { row.path == a.path && row.Exact? && row.sha256 == a.sha256 }

  /** The artifact is one of the two files that the row compares. */
  predicate Compares(row: Row, a: Artifact)
    requires row.Normalized? || row.Explained? || row.Different?
  {
    row.path == a.path && IsDigest(a.sha256) && (row.firstFile == a.sha256 || row.secondFile == a.sha256)
  }

  /** A normalized row says by which scheme and in which field the two files have which digest in common. */
  predicate SaysNormalized(row: Row, a: Artifact) {
    && row.Normalized? && Compares(row, a)
    && row.scheme.Str? && |row.scheme.s| > 0 && row.field in {"sha256", "unsigned_payload_sha256"}
    && row.digest.Str? && IsDigest(row.digest.s)
  }

  /** An explained row gives a reason, and evidence of which none is blank. */
  predicate SaysWhy(row: Row, a: Artifact) {
    && row.Explained? && Compares(row, a)
    && HasText(row.explanation) && row.evidence != [] && forall e :: e in row.evidence ==> HasText(e)
  }

  predicate HasText(s: string) { exists c :: c in s && c !in " \t\n\r" }

  lemma BlankOrText(s: string)
    ensures Blank(s) <==> !HasText(s)
  {
    if !Blank(s) {
      var i :| 0 <= i < |s| && s[i] !in " \t\n\r";
      assert s[i] in s;
    }
  }

  /** A row of a difference names two digests, a row of an absence the one file there is. */
  predicate Admits(row: Row, a: Artifact) {
    || (row.Different? && Compares(row, a) && IsDigest(row.firstFile) && IsDigest(row.secondFile)
        && row.firstFile != row.secondFile)
    || (row.Missing? && row.path == a.path && row.present == a.sha256 && (row.first <==> !row.second))
  }

  lemma RowOkExact(row: Row, a: Artifact)
    requires row.path == a.path
    ensures RowOk(row, a.sha256) <==> SaysSame(row, a) || SaysNormalized(row, a) || SaysWhy(row, a) || Admits(row, a)
  {
    if row.Explained? {
      BlankOrText(row.explanation);
      AllText(row.evidence);
    }
  }

  lemma AllText(texts: seq<string>)
    ensures (forall i :: 0 <= i < |texts| ==> !Blank(texts[i])) <==> forall e :: e in texts ==> HasText(e)
  {
    forall e | e in texts ensures Blank(e) <==> !HasText(e) { BlankOrText(e); }
    assert forall i :: 0 <= i < |texts| ==> texts[i] in texts;
  }

  ghost predicate AboutOne(row: Row, artifacts: seq<Artifact>) {
    exists a :: a in artifacts && (SaysSame(row, a) || SaysNormalized(row, a) || SaysWhy(row, a) || Admits(row, a))
  }

  /** Rows are accepted exactly if each says one of these things about an artifact, no two of them about the same. */
  lemma RowsExact(rows: seq<Row>, artifacts: seq<Artifact>)
    requires ValidManifest(artifacts)
    ensures RowsOk(rows, artifacts) <==>
            && (forall row :: row in rows ==> AboutOne(row, artifacts))
            && forall i, j :: 0 <= i < j < |rows| ==> rows[i].path != rows[j].path
  {
    forall row | row in rows
      ensures AboutOne(row, artifacts) <==>
              Lookup(artifacts, row.path).Some? && RowOk(row, Lookup(artifacts, row.path).value.sha256)
    {
      RowExact(row, artifacts);
    }
  }

  lemma RowExact(row: Row, artifacts: seq<Artifact>)
    requires ValidManifest(artifacts)
    ensures AboutOne(row, artifacts) <==>
            Lookup(artifacts, row.path).Some? && RowOk(row, Lookup(artifacts, row.path).value.sha256)
  {
    var found := Lookup(artifacts, row.path);
    if found.Some? {
      LookupFinds(artifacts, row.path);
      RowOkExact(row, found.value);
    }
    forall a | a in artifacts && a.path == row.path ensures found == Some(a) { LookupUnique(artifacts, a); }
  }

  /** A record with an exact row of another digest than the artifact's is refused, whatever else it holds. */
  lemma ForeignDigestRefused(
    r: Report, revision: string, artifacts: seq<Artifact>, requireIndependent: bool, row: Row, a: Artifact)
    requires ValidManifest(artifacts) && a in artifacts
    requires row in r.rows && row.path == a.path && row.Exact? && row.sha256 != a.sha256
    ensures !ValidReport(r, revision, artifacts, requireIndependent)
  {
    RowsExact(r.rows, artifacts);
    LookupUnique(artifacts, a);
    RowExact(row, artifacts);
  }

  /** The row vouches for the artifact: it is the same, the same after normalization, or different for a reason. */
  ghost predicate VouchedFor(r: Report, a: Artifact) {
    exists row :: row in r.rows && (SaysSame(row, a) || SaysNormalized(row, a) || SaysWhy(row, a))
  }

  /**
   A record accepted as independent vouches for every artifact of the release; two
   builders made it, and it says who administered which environment and when.
   */
  lemma IndependentAccounts(r: Report, revision: string, artifacts: seq<Artifact>)
    requires ValidReport(r, revision, artifacts, true) && ValidManifest(artifacts)
    ensures r.firstBuilder.Some? && r.secondBuilder.Some? && r.firstBuilder != r.secondBuilder
    ensures r.evidence.Some? && r.evidence.value.separatelyAdministered && IsDigest(r.evidence.value.reportSha256)
    ensures r.evidence.value.reportUri.scheme == "https" && |r.evidence.value.reportUri.netloc| > 0
    ensures HasText(r.evidence.value.administrator) && HasText(r.evidence.value.environment)
    ensures HasText(r.evidence.value.executedAt)
    ensures r.revision == revision && r.compared == |artifacts|
    ensures forall a :: a in artifacts ==> VouchedFor(r, a)
  {
    NothingUnexplained(r.rows);
    forall a | a in artifacts ensures VouchedFor(r, a) { ArtifactVouchedFor(r, revision, artifacts, a); }
    SameNumber(r.rows, artifacts);
    BlankOrText(r.evidence.value.administrator);
    BlankOrText(r.evidence.value.environment);
    BlankOrText(r.evidence.value.executedAt);
  }

  lemma ArtifactVouchedFor(r: Report, revision: string, artifacts: seq<Artifact>, a: Artifact)
    requires ValidReport(r, revision, artifacts, true) && ValidManifest(artifacts) && a in artifacts
    ensures VouchedFor(r, a)
  {
    NothingUnexplained(r.rows);
    var i :| 0 <= i < |artifacts| && artifacts[i] == a;
    var j :| 0 <= j < |r.rows| && r.rows[j].path == artifacts[i].path;
    LookupUnique(artifacts, a);
    RowOkExact(r.rows[j], a);
    assert r.rows[j] in r.rows;
  }

  function RowPaths(rows: seq<Row>): (r: seq<string>)
    ensures |r| == |rows| && forall i :: 0 <= i < |rows| ==> r[i] == rows[i].path
  {
    seq(|rows|, i requires 0 <= i < |rows| => rows[i].path)
  }

  /** As many rows as artifacts: each has one, and none is about anything else. */
  lemma SameNumber(rows: seq<Row>, artifacts: seq<Artifact>)
    requires ValidManifest(artifacts) && RowsOk(rows, artifacts) && Covers(rows, artifacts)
    ensures |rows| == |artifacts|
  {
    var ps, qs := RowPaths(rows), Paths(artifacts);
    DistinctSize(ps);
    DistinctSize(qs);
    assert Elements(ps) == Elements(qs) by {
      forall p | p in ps ensures p in qs {
        var j :| 0 <= j < |rows| && rows[j].path == p;
        LookupFinds(artifacts, p);
      }
      forall p | p in qs ensures p in ps {
        var i :| 0 <= i < |artifacts| && artifacts[i].path == p;
        var j :| 0 <= j < |rows| && rows[j].path == artifacts[i].path;
        assert ps[j] == p;
      }
    }
  }

  // -------------------------------------------------- what a comparison says

  /** The manifest lists the path with the digest. */
  ghost predicate Lists(rows: seq<Artifact>, path: string, a: Artifact) { a in rows && a.path == path }

  /** What the report has to say of a path that both manifests list. */
  ghost predicate SaysOfBoth(row: Row, a: Artifact, b: Artifact) {
    && (row.Exact? <==> a.sha256 == b.sha256)
    && (row.Exact? ==> row.sha256 == a.sha256)
    && (row.Normalized? <==> a.sha256 != b.sha256 && CommonField(a.normalized, b.normalized).Some?)
    && (row.Normalized? ==>
          && row.field == CommonField(a.normalized, b.normalized).value && a.normalized.Obj?
          && row.scheme == Get(a.normalized, "scheme") && row.digest == Get(a.normalized, row.field))
    && (row.Normalized? || row.Different? ==> row.firstFile == a.sha256 && row.secondFile == b.sha256)
    && !row.Missing? && !row.Explained?
  }

  /** Python takes the two records to agree in the field. */
  predicate AgreeIn(a: Json, b: Json, key: string)
    requires a.Obj? && b.Obj?
  {
    Normal(Get(a, key)) == Normal(Get(b, key))
  }

  /** Two records have a field in common if they agree in the scheme and in that field, the unsigned digest first. */
  lemma CommonFieldExact(a: Json, b: Json, field: string)
    ensures CommonField(a, b) == Some(field) <==>
            && a.Obj? && b.Obj? && AgreeIn(a, b, "scheme") && AgreeIn(a, b, field)
            && (field == "unsigned_payload_sha256"
                || (field == "sha256" && !AgreeIn(a, b, "unsigned_payload_sha256")))
  {
    if a.Obj? && b.Obj? {
      AlikeIsNormal(Get(a, "scheme"), Get(b, "scheme"));
      AlikeIsNormal(Get(a, "unsigned_payload_sha256"), Get(b, "unsigned_payload_sha256"));
      AlikeIsNormal(Get(a, "sha256"), Get(b, "sha256"));
    }
  }

  /** Of a path that one manifest lists, the row says which one, and with what digest. */
  ghost predicate SaysOfOne(row: Row, a: Artifact, inFirst: bool) {
    row.Missing? && row.first == inFirst && row.second == !inFirst && row.present == a.sha256
  }

  lemma RowForSays(left: seq<Artifact>, right: seq<Artifact>, path: string)
    requires ValidManifest(left) && ValidManifest(right) && (path in Paths(left) || path in Paths(right))
    ensures Lookup(left, path).Some? || Lookup(right, path).Some?
    ensures var row := RowFor(path, Lookup(left, path), Lookup(right, path));
            && row.path == path
            && (forall a, b :: Lists(left, path, a) && Lists(right, path, b) ==> SaysOfBoth(row, a, b))
            && (forall a :: Lists(left, path, a) && path !in Paths(right) ==> SaysOfOne(row, a, true))
            && (forall b :: Lists(right, path, b) && path !in Paths(left) ==> SaysOfOne(row, b, false))
  {
    LookupFinds(left, path);
    LookupFinds(right, path);
    forall a | Lists(left, path, a) ensures Lookup(left, path) == Some(a) { LookupUnique(left, a); }
    forall b | Lists(right, path, b) ensures Lookup(right, path) == Some(b) { LookupUnique(right, b); }
  }

  /** The report has exactly one row for every path of either manifest, which says so of it. */
  lemma ComparisonSays(first: Evidence, second: Evidence, path: string)
    requires ValidManifest(first.artifacts) && ValidManifest(second.artifacts)
    requires path in Paths(first.artifacts) || path in Paths(second.artifacts)
    ensures exists i :: 0 <= i < |Comparison(first, second).rows|
                        && SaysOf(Comparison(first, second).rows[i], first.artifacts, second.artifacts, path)
  {
    var left, right := first.artifacts, second.artifacts;
    var names := Names(left, right);
    NamesMembers(left, right);
    var i :| 0 <= i < |names| && names[i] == path;
    RowsForAt(left, right, names, i);
    RowForSays(left, right, path);
    assert SaysOf(Comparison(first, second).rows[i], left, right, path);
  }

  ghost predicate SaysOf(row: Row, left: seq<Artifact>, right: seq<Artifact>, path: string) {
    && row.path == path
    && (forall a, b :: Lists(left, path, a) && Lists(right, path, b) ==> SaysOfBoth(row, a, b))
    && (forall a :: Lists(left, path, a) && path !in Paths(right) ==> SaysOfOne(row, a, true))
    && (forall b :: Lists(right, path, b) && path !in Paths(left) ==> SaysOfOne(row, b, false))
  }

  /** The summary counts the rows by status. */
  lemma {:induction false} TallyCounts(rows: seq<Row>)
    ensures var c := Tally(rows);
            && c.exact == |Filter((r: Row) => r.Exact?, rows)|
            && c.normalized == |Filter((r: Row) => r.Normalized?, rows)|
            && c.explained == |Filter((r: Row) => r.Explained?, rows)|
            && c.unexplained == |Filter((r: Row) => r.Missing? || r.Different?, rows)|
  {
    if rows != [] {
      var front, last := rows[..|rows| - 1], rows[|rows| - 1];
      TallyCounts(front);
      assert rows == front + [last];
      FilterGrows((r: Row) => r.Exact?, front, last);
      FilterGrows((r: Row) => r.Normalized?, front, last);
      FilterGrows((r: Row) => r.Explained?, front, last);
      FilterGrows((r: Row) => r.Missing? || r.Different?, front, last);
    }
  }

  lemma FilterGrows(p: Row -> bool, rows: seq<Row>, row: Row)
    ensures |Filter(p, rows + [row])| == |Filter(p, rows)| + (if p(row) then 1 else 0)
  {
    FilterConcat(p, rows, [row]);
    assert [row][1..] == [];
  }

  // ------------------------------------------------ reports that validate

  /** The two artifacts are reported as equal after normalization. */
  predicate ReportedNormalized(a: Artifact, b: Artifact) {
    a.sha256 != b.sha256 && CommonField(a.normalized, b.normalized).Some?
  }

  /** Where two artifacts are reported so, they have a scheme, and the digest they share is one. */
  predicate SharesDigest(a: Artifact, b: Artifact) {
    ReportedNormalized(a, b) ==>
      && Get(a.normalized, "scheme").Str? && Get(a.normalized, "scheme").s != ""
      && DigestValue(Get(a.normalized, CommonField(a.normalized, b.normalized).value))
  }

  lemma RowForOk(left: seq<Artifact>, right: seq<Artifact>, name: string)
    requires ValidManifest(left) && ValidManifest(right) && (name in Paths(left) || name in Paths(right))
    ensures var a, b := Lookup(left, name), Lookup(right, name);
            && (a.Some? || b.Some?)
            && (a.Some? ==>
                 (RowOk(RowFor(name, a, b), a.value.sha256) <==> (b.Some? ==> SharesDigest(a.value, b.value))))
  {
    LookupFinds(left, name);
    LookupFinds(right, name);
  }

  lemma {:induction false} LackingDistinct(left: seq<Artifact>, right: seq<Artifact>)
    requires forall i, j :: 0 <= i < j < |right| ==> right[i].path != right[j].path
    ensures Distinct(Lacking(left, right))
  {
    if right != [] {
      LackingDistinct(left, right[1..]);
      LackingMembers(left, right[1..]);
      forall i | 0 <= i < |right[1..]| ensures Paths(right[1..])[i] != right[0].path {
        assert right[1..][i] == right[i + 1];
      }
    }
  }

  lemma NamesDistinct(left: seq<Artifact>, right: seq<Artifact>)
    requires ValidManifest(left) && ValidManifest(right)
    ensures Distinct(Names(left, right)) && Names(left, right) != []
  {
    LackingDistinct(left, right);
    LackingMembers(left, right);
    var all := Paths(left) + Lacking(left, right);
    forall i, j | 0 <= i < j < |all| ensures all[i] != all[j] {
      if i < |left| <= j { assert all[j] in Lacking(left, right) && all[i] in Paths(left); }
    }
    SortDistinct(AtMost, all);
    SortMembers(AtMost, all);
  }

  lemma {:induction false} RowsForAt(left: seq<Artifact>, right: seq<Artifact>, names: seq<string>, i: nat)
    requires (forall p :: p in names ==> p in Paths(left) || p in Paths(right)) && i < |names|
    ensures Lookup(left, names[i]).Some? || Lookup(right, names[i]).Some?
    ensures RowsFor(left, right, names)[i] == RowFor(names[i], Lookup(left, names[i]), Lookup(right, names[i]))
  {
    LookupFinds(left, names[i]);
    LookupFinds(right, names[i]);
    if i < |names| - 1 { RowsForAt(left, right, names[..|names| - 1], i); }
  }

  /** The second manifest has no path the first lacks, and nothing is reported as normalized without a digest. */
  ghost predicate Comparable(left: seq<Artifact>, right: seq<Artifact>) {
    forall b :: b in right ==> Lookup(left, b.path).Some? && SharesDigest(Lookup(left, b.path).value, b)
  }

  lemma {:induction false} LookupUnique(rows: seq<Artifact>, b: Artifact)
    requires b in rows && forall i, j :: 0 <= i < j < |rows| ==> rows[i].path != rows[j].path
    ensures Lookup(rows, b.path) == Some(b)
  {
    if rows[0] != b {
      assert b in rows[1..];
      var i :| 0 <= i < |rows| && rows[i] == b;
      LookupUnique(rows[1..], b);
    }
  }

  predicate ComparableAt(left: seq<Artifact>, right: seq<Artifact>, p: string) {
    && Lookup(left, p).Some?
    && (Lookup(right, p).Some? ==> SharesDigest(Lookup(left, p).value, Lookup(right, p).value))
  }

  lemma ComparableByName(left: seq<Artifact>, right: seq<Artifact>)
    requires ValidManifest(left) && ValidManifest(right)
    ensures Comparable(left, right) <==> forall p :: p in Names(left, right) ==> ComparableAt(left, right, p)
  {
    NamesMembers(left, right);
    forall p ensures Lookup(left, p).Some? <==> p in Paths(left) { LookupFinds(left, p); }
    forall p | Lookup(right, p).Some?
      ensures Lookup(right, p).value in right && Lookup(right, p).value.path == p
    {
      LookupFinds(right, p);
    }
    forall b | b in right ensures Lookup(right, b.path) == Some(b) && b.path in Names(left, right) {
      LookupUnique(right, b);
      LookupFinds(right, b.path);
    }
  }

  /**
   The report of a comparison is a valid record for the first build if and only
   if the two manifests are comparable.
   */
  lemma ComparisonValidates(first: Evidence, second: Evidence)
    requires ValidManifest(first.artifacts) && ValidManifest(second.artifacts)
    ensures ValidReport(Comparison(first, second), first.revision, first.artifacts, false) <==>
            Comparable(first.artifacts, second.artifacts)
  {
    var left, right := first.artifacts, second.artifacts;
    NamesMembers(left, right);
    NamesDistinct(left, right);
    ComparableByName(left, right);
    RowsOkByName(left, right, Names(left, right));
  }

  /** The row of a name is acceptable for the first manifest exactly if the name is comparable. */
  lemma RowOkByName(left: seq<Artifact>, right: seq<Artifact>, names: seq<string>, i: nat)
    requires ValidManifest(left) && ValidManifest(right) && i < |names|
    requires forall p :: p in names ==> p in Paths(left) || p in Paths(right)
    ensures var row := RowsFor(left, right, names)[i];
            && row.path == names[i]
            && ((Lookup(left, row.path).Some? && RowOk(row, Lookup(left, row.path).value.sha256))
                <==> ComparableAt(left, right, names[i]))
  {
    RowsForAt(left, right, names, i);
    assert names[i] in names;
    RowForOk(left, right, names[i]);
  }

  lemma RowsOkByName(left: seq<Artifact>, right: seq<Artifact>, names: seq<string>)
    requires ValidManifest(left) && ValidManifest(right) && Distinct(names)
    requires forall p :: p in names ==> p in Paths(left) || p in Paths(right)
    ensures RowsOk(RowsFor(left, right, names), left) <==> forall p :: p in names ==> ComparableAt(left, right, p)
  {
    var rows := RowsFor(left, right, names);
    forall i | 0 <= i < |names|
      ensures rows[i].path == names[i]
      ensures (Lookup(left, rows[i].path).Some? && RowOk(rows[i], Lookup(left, rows[i].path).value.sha256))
              <==> ComparableAt(left, right, names[i])
    {
      RowOkByName(left, right, names, i);
    }
    if RowsOk(rows, left) {
      forall p | p in names ensures ComparableAt(left, right, p) {
        var i :| 0 <= i < |names| && names[i] == p;
      }
    }
  }

  /**
   Two records of one scheme that both lack an unsigned digest, as tar records
   do, are reported as equal after normalization whatever their digests say, and
   the row carries no digest.
   */
  lemma AbsentFieldsAgree(name: string, a: Artifact, b: Artifact)
    requires a.sha256 != b.sha256 && a.normalized.Obj? && b.normalized.Obj?
    requires Alike(Get(a.normalized, "scheme"), Get(b.normalized, "scheme"))
    requires "unsigned_payload_sha256" !in a.normalized.fields && "unsigned_payload_sha256" !in b.normalized.fields
    ensures RowFor(name, Some(a), Some(b)) ==
            Normalized(name, Get(a.normalized, "scheme"), "unsigned_payload_sha256", Null, a.sha256, b.sha256)
    ensures !SharesDigest(a, b)
  {
  }

  /** A record with a scheme and both digests, as ZIP files have. */
  predicate ZipRecord(v: Json) {
    && v.Obj? && Get(v, "scheme").Str? && Get(v, "scheme").s != ""
    && DigestValue(Get(v, "sha256")) && DigestValue(Get(v, "unsigned_payload_sha256"))
  }

  /** Between ZIP records the report is always valid, and a normalized row means a digest really is shared. */
  lemma ZipRecordsShare(a: Artifact, b: Artifact)
    requires ZipRecord(a.normalized) && ZipRecord(b.normalized)
    ensures SharesDigest(a, b)
    ensures ReportedNormalized(a, b) <==>
            && a.sha256 != b.sha256 && Get(a.normalized, "scheme") == Get(b.normalized, "scheme")
            && (Get(a.normalized, "unsigned_payload_sha256") == Get(b.normalized, "unsigned_payload_sha256")
                || Get(a.normalized, "sha256") == Get(b.normalized, "sha256"))
  {
  }
}
