/** Which signing roles have verified which release artifacts. */
module ReleaseSigning {
  import opened Reproducibility
  import opened Sequences
  import opened Sorting
  import opened Strings
  import opened Wrappers

  /** A validated policy: roles in order, artifact classes, and what each channel requires. */
  datatype Class = Class(id: string, role: string, formats: seq<string>)
  datatype Channel = Channel(required: seq<string>, requiresArtifactRoles: bool)
  datatype Policy = Policy(roles: seq<string>, classes: seq<Class>, channels: map<string, Channel>)

  /** A row of the artifact manifest. */
  datatype Item = Item(path: string, sha256: string)

  datatype Status = Open | Verified | Failed | Blocked

  /** A row of the signing record; a field that is missing or not text is given as empty. */
  datatype RoleRow = RoleRow(
    id: string, status: Status, fingerprint: string, digests: seq<string>, evidence: seq<string>,
    verifiedAt: string, verifier: string, result: string)

  datatype Summary = Summary(verified: nat, failed: nat, blocked: nat, open: nat)

  /** The signing record: its revision, the manifest file it is bound to, its rows and their summary. */
  datatype Record = Record(
    schema: string, revision: string, manifestPath: string, manifestSha256: string, rows: seq<RoleRow>,
    summary: Summary)

  datatype Manifest = Manifest(schema: string, revision: string, items: seq<Item>)

  /** A file by its name and the digest of its content. */
  datatype File = File(name: string, sha256: string)

  const RELEASE_MANIFEST: string := "release-manifest"
  const SIGNING_SCHEMA: string := "komms-release-signing/v1"
  const ARTIFACT_SCHEMA: string := "komms-release-artifacts/v1"

  predicate AlphaNumeric(c: char) { 'a' <= c <= 'z' || 'A' <= c <= 'Z' || '0' <= c <= '9' }

  /** A public fingerprint: a letter or digit, and then 7 to 255 characters of its alphabet. */
  predicate IsFingerprint(s: string) {
    && 8 <= |s| <= 256 && AlphaNumeric(s[0])
    && forall i :: 0 < i < |s| ==> AlphaNumeric(s[i]) || s[i] in ":._+/=-"
  }

  /** The record names the manifest file by its digest, and both are about one revision, the expected one if any. */
  predicate Bound(r: Record, m: Manifest, file: File, expected: Option<string>) {
    && r.schema == SIGNING_SCHEMA && IsRevision(r.revision) && (expected.Some? ==> r.revision == expected.value)
    && r.manifestPath == file.name && r.manifestSha256 == file.sha256
    && m.schema == ARTIFACT_SCHEMA && m.revision == r.revision
  }

  /** What reading a policy insists on. */
  predicate ValidPolicy(p: Policy) {
    && (forall i :: 0 <= i < |p.roles| ==> p.roles[i] != "")
    && Distinct(p.roles)
    && p.classes != []
    && (forall i, j :: 0 <= i < j < |p.classes| ==> p.classes[i].id != p.classes[j].id)
    && (forall i :: 0 <= i < |p.classes| ==> p.classes[i].id != "" && p.classes[i].role in p.roles)
    && (forall i :: 0 <= i < |p.classes| ==> p.classes[i].formats != [] && "" !in p.classes[i].formats)
    && (forall c, i :: c in p.channels && 0 <= i < |p.channels[c].required| ==> p.channels[c].required[i] in p.roles)
  }

  // ---------------------------------------------------------- classification

  predicate Contains(t: string, s: string) { s <= t || (t != [] && Contains(t[1..], s)) }

  predicate Names(c: Class, name: string) { Contains(name, "-" + c.id + "-") }

  function FileName(path: string): string {
    var parts := Split(path, '/');
    parts[|parts| - 1]
  }

  function ClassesOf(classes: seq<Class>, name: string): seq<Class> {
    if classes == [] then []
    else if Names(classes[0], name) then [classes[0]] + ClassesOf(classes[1..], name) else ClassesOf(classes[1..], name)
  }

  predicate HasFormat(c: Class, name: string) {
    exists i :: 0 <= i < |c.formats| && EndsWith(name, "." + c.formats[i])
  }

  /** The item is well formed and belongs to one class in one of its formats; unless strict, it may belong to none. */
  predicate Classified(p: Policy, strict: bool, it: Item) {
    var cs := ClassesOf(p.classes, FileName(it.path));
    && IsDigest(it.sha256) && Below(it.path, "artifacts")
    && |cs| <= 1 && (strict ==> |cs| == 1) && (|cs| == 1 ==> HasFormat(cs[0], FileName(it.path)))
  }

  /** The role of the one class that the item is in, if there is exactly one. */
  function RoleOf(p: Policy, it: Item): Option<string> {
    var cs := ClassesOf(p.classes, FileName(it.path));
    if |cs| == 1 then Some(cs[0].role) else None
  }

  datatype Coverage = Coverage(known: set<string>, byRole: map<string, set<string>>, covered: set<string>)

  predicate ClassifiedAll(p: Policy, strict: bool, items: seq<Item>) {
    && (forall i :: 0 <= i < |items| ==> Classified(p, strict, items[i]))
    && forall i, j :: 0 <= i < j < |items| ==> items[i].path != items[j].path
  }

  /** The digests of the items of a role. */
  function DigestsOf(p: Policy, items: seq<Item>, role: string): set<string> {
    set i | 0 <= i < |items| && RoleOf(p, items[i]) == Some(role) :: items[i].sha256
  }

  function CoveredClasses(p: Policy, items: seq<Item>): set<string> {
    set i | 0 <= i < |items| && |ClassesOf(p.classes, FileName(items[i].path))| == 1 ::
      ClassesOf(p.classes, FileName(items[i].path))[0].id
  }

  function KnownDigests(items: seq<Item>): set<string> { set i | 0 <= i < |items| :: items[i].sha256 }

  /** The table says of each role the digests of its items, and has no row for a role without items. */
  ghost predicate Tabulates(p: Policy, items: seq<Item>, byRole: map<string, set<string>>) {
    && (forall r :: r in byRole ==> byRole[r] == DigestsOf(p, items, r))
    && (forall r :: r in byRole <==> exists i :: 0 <= i < |items| && RoleOf(p, items[i]) == Some(r))
  }

  function RolesOf(p: Policy, items: seq<Item>): set<string> {
    set i | 0 <= i < |items| && RoleOf(p, items[i]).Some? :: RoleOf(p, items[i]).value
  }

  /** What the items cover: all their digests, the digests of each role, and the classes. */
  function CoverageOf(p: Policy, items: seq<Item>): Coverage {
    Coverage(KnownDigests(items), map r | r in RolesOf(p, items) :: DigestsOf(p, items, r), CoveredClasses(p, items))
  }

  lemma CoverageTabulates(p: Policy, items: seq<Item>)
    ensures Tabulates(p, items, CoverageOf(p, items).byRole)
  {
  }

  lemma TabulatesOnce(p: Policy, items: seq<Item>, byRole: map<string, set<string>>)
    requires Tabulates(p, items, byRole)
    ensures byRole == CoverageOf(p, items).byRole
  {
    assert byRole.Keys == RolesOf(p, items);
  }

  /** One item taken into account. */
  method Cover(p: Policy, c: Coverage, it: Item, ghost items: seq<Item>, ghost strict: bool) returns (d: Coverage)
    requires c == CoverageOf(p, items) && Classified(p, strict, it)
    ensures d == CoverageOf(p, items + [it])
  {
    CoverageTabulates(p, items);
    var cs := ClassesOf(p.classes, FileName(it.path));
    GrowKnown(items, it);
    GrowCovered(p, items, it);
    d := c.(known := c.known + {it.sha256});
    if cs != [] {
      var role := cs[0].role;
      GrowTable(p, items, it, c.byRole);
      d := d.(byRole := c.byRole[role := (if role in c.byRole then c.byRole[role] else {}) + {it.sha256}],
              covered := c.covered + {cs[0].id});
    } else {
      KeepTable(p, items, it, c.byRole);
    }
    TabulatesOnce(p, items + [it], d.byRole);
  }

  lemma ClassifiedGrows(p: Policy, strict: bool, items: seq<Item>, it: Item)
    requires ClassifiedAll(p, strict, items)
    ensures ClassifiedAll(p, strict, items + [it]) <==>
            Classified(p, strict, it) && !exists j :: 0 <= j < |items| && items[j].path == it.path
  {
    var all := items + [it];
    assert all[|items|] == it && forall i :: 0 <= i < |items| ==> all[i] == items[i];
  }

  lemma ClassifiedPrefix(p: Policy, strict: bool, items: seq<Item>, n: nat)
    requires n <= |items|
    ensures ClassifiedAll(p, strict, items) ==> ClassifiedAll(p, strict, items[..n])
  {
  }

  method ClassifiedArtifacts(p: Policy, items: seq<Item>, strict: bool) returns (c: Option<Coverage>)
    ensures c == if items != [] && ClassifiedAll(p, strict, items) then Some(CoverageOf(p, items)) else None
  {
    if items == [] { return None; }
    var coverage := Coverage({}, map[], {});
    for i := 0 to |items|
      invariant ClassifiedAll(p, strict, items[..i]) && coverage == CoverageOf(p, items[..i])
    {
      assert items[..i + 1] == items[..i] + [items[i]];
      ClassifiedGrows(p, strict, items[..i], items[i]);
      if !Classified(p, strict, items[i]) || (exists j :: 0 <= j < i && items[..i][j].path == items[i].path) {
        ClassifiedPrefix(p, strict, items, i + 1);
        return None;
      }
      coverage := Cover(p, coverage, items[i], items[..i], strict);
    }
    assert items[..|items|] == items;
    return Some(coverage);
  }

  lemma GrowKnown(items: seq<Item>, it: Item)
    ensures KnownDigests(items + [it]) == KnownDigests(items) + {it.sha256}
  {
    var all := items + [it];
    assert all[|items|] == it && forall i :: 0 <= i < |items| ==> all[i] == items[i];
  }

  lemma GrowCovered(p: Policy, items: seq<Item>, it: Item)
    ensures var cs := ClassesOf(p.classes, FileName(it.path));
            CoveredClasses(p, items + [it]) == CoveredClasses(p, items) + (if |cs| == 1 then {cs[0].id} else {})
  {
    var all := items + [it];
    assert all[|items|] == it && forall i :: 0 <= i < |items| ==> all[i] == items[i];
  }

  lemma GrowDigests(p: Policy, items: seq<Item>, it: Item, r: string)
    ensures DigestsOf(p, items + [it], r) == DigestsOf(p, items, r)
            + (if RoleOf(p, it) == Some(r) then {it.sha256} else {})
  {
    var all := items + [it];
    assert all[|items|] == it && forall i :: 0 <= i < |items| ==> all[i] == items[i];
  }

  lemma GrowTable(p: Policy, items: seq<Item>, it: Item, t: map<string, set<string>>)
    requires Tabulates(p, items, t) && RoleOf(p, it).Some?
    ensures var r := RoleOf(p, it).value;
            Tabulates(p, items + [it], t[r := (if r in t then t[r] else {}) + {it.sha256}])
  {
    var r := RoleOf(p, it).value;
    var all := items + [it];
    assert all[|items|] == it && forall i :: 0 <= i < |items| ==> all[i] == items[i];
    forall q ensures DigestsOf(p, all, q) == DigestsOf(p, items, q) + (if q == r then {it.sha256} else {}) {
      GrowDigests(p, items, it, q);
    }
  }

  lemma KeepTable(p: Policy, items: seq<Item>, it: Item, t: map<string, set<string>>)
    requires Tabulates(p, items, t) && RoleOf(p, it).None?
    ensures Tabulates(p, items + [it], t)
  {
    var all := items + [it];
    assert all[|items|] == it && forall i :: 0 <= i < |items| ==> all[i] == items[i];
    forall q ensures DigestsOf(p, all, q) == DigestsOf(p, items, q) {
      GrowDigests(p, items, it, q);
    }
  }

  // --------------------------------------------------------------- the record

  function ExpectedDigests(c: Coverage, role: string): set<string> {
    if role == RELEASE_MANIFEST then c.known else if role in c.byRole then c.byRole[role] else {}
  }

  /** Who verified the role, when, and what shows it. */
  predicate Evidenced(r: RoleRow) {
    r.evidence != [] && "" !in r.evidence && r.verifiedAt != "" && r.verifier != "" && r.result != ""
  }

  /** A verified role lists exactly the digests expected of it, and there are some. */
  predicate RowSound(c: Coverage, r: RoleRow) {
    r.status == Verified ==>
      && IsFingerprint(r.fingerprint) && Evidenced(r) && Distinct(r.digests)
      && ExpectedDigests(c, r.id) != {} && (set d | d in r.digests) == ExpectedDigests(c, r.id)
  }

  function CountStatus(rows: seq<RoleRow>, s: Status): nat {
    if rows == [] then 0 else CountStatus(rows[..|rows| - 1], s) + (if rows[|rows| - 1].status == s then 1 else 0)
  }

  function SummaryOf(rows: seq<RoleRow>): Summary {
    Summary(CountStatus(rows, Verified), CountStatus(rows, Failed), CountStatus(rows, Blocked), CountStatus(rows, Open))
  }

  function VerifiedRoles(rows: seq<RoleRow>): set<string> {
    set i | 0 <= i < |rows| && rows[i].status == Verified :: rows[i].id
  }

  function Required(p: Policy, c: Coverage, channel: string): set<string>
    requires channel in p.channels
  {
    (set r | r in p.channels[channel].required)
      + (if p.channels[channel].requiresArtifactRoles then c.byRole.Keys else {})
  }

  function ClassIds(p: Policy): set<string> { set i | 0 <= i < |p.classes| :: p.classes[i].id }

  predicate RolesInOrder(p: Policy, rows: seq<RoleRow>) {
    |rows| == |p.roles| && forall i :: 0 <= i < |rows| ==> rows[i].id == p.roles[i]
  }

  /** What the record must satisfy over the coverage that its manifest gives. */
  predicate RecordSound(p: Policy, c: Coverage, rows: seq<RoleRow>, summary: Summary, channel: string) {
    && (channel == "stable" ==> c.covered == ClassIds(p))
    && RolesInOrder(p, rows)
    && (forall i :: 0 <= i < |rows| ==> RowSound(c, rows[i]))
    && summary == SummaryOf(rows)
    && channel in p.channels && Required(p, c, channel) <= VerifiedRoles(rows)
  }

  /** The rows one after the other: the summary they add up to, and the roles they verify. */
  method CheckRoles(c: Coverage, rows: seq<RoleRow>) returns (r: Option<(Summary, set<string>)>)
    ensures r == if forall i :: 0 <= i < |rows| ==> RowSound(c, rows[i])
                 then Some((SummaryOf(rows), VerifiedRoles(rows))) else None
  {
    var counts, verified: set<string> := Summary(0, 0, 0, 0), {};
    for i := 0 to |rows|
      invariant forall k :: 0 <= k < i ==> RowSound(c, rows[k])
      invariant counts == SummaryOf(rows[..i]) && verified == VerifiedRoles(rows[..i])
    {
      var row := rows[i];
      if row.status == Verified {
        if !IsFingerprint(row.fingerprint) { return None; }
        var expected := ExpectedDigests(c, row.id);
        if expected == {} || !Distinct(row.digests) || (set d | d in row.digests) != expected { return None; }
        if !Evidenced(row) { return None; }
      }
      CountsGrow(rows[..i], row);
      assert rows[..i + 1] == rows[..i] + [row];
      match row.status {
        case Verified =>
          counts := counts.(verified := counts.verified + 1);
          verified := verified + {row.id};
        case Failed => counts := counts.(failed := counts.failed + 1);
        case Blocked => counts := counts.(blocked := counts.blocked + 1);
        case Open => counts := counts.(open := counts.open + 1);
      }
    }
    assert rows[..|rows|] == rows;
    return Some((counts, verified));
  }

  lemma CountsGrow(rows: seq<RoleRow>, r: RoleRow)
    ensures forall s :: CountStatus(rows + [r], s) == CountStatus(rows, s) + (if r.status == s then 1 else 0)
    ensures VerifiedRoles(rows + [r]) == VerifiedRoles(rows) + (if r.status == Verified then {r.id} else {})
  {
    var all := rows + [r];
    assert all[..|rows|] == rows && all[|rows|] == r;
    assert forall i :: 0 <= i < |rows| ==> all[i] == rows[i];
  }

  /** Accepts exactly the bound records that are sound over a manifest whose items can be classified. */
  method Validate(p: Policy, r: Record, m: Manifest, file: File, expected: Option<string>, channel: string)
    returns (ok: bool)
    ensures ok <==> Bound(r, m, file, expected) && Accepted(p, m.items, r.rows, r.summary, channel)
  {
    if !ValidPolicy(p) { return false; }
    if r.schema != SIGNING_SCHEMA || !IsRevision(r.revision) { return false; }
    if expected.Some? && r.revision != expected.value { return false; }
    if r.manifestPath != file.name || r.manifestSha256 != file.sha256 { return false; }
    if m.schema != ARTIFACT_SCHEMA || m.revision != r.revision { return false; }
    var rows := r.rows;
    var coverage := ClassifiedArtifacts(p, m.items, channel != "validation");
    if coverage.None? { return false; }
    var c := coverage.value;
    if channel == "stable" && c.covered != ClassIds(p) { return false; }
    if !RolesInOrder(p, rows) { return false; }
    var counts := CheckRoles(c, rows);
    if counts.None? { return false; }
    if r.summary != counts.value.0 { return false; }
    if channel !in p.channels { return false; }
    return Required(p, c, channel) <= counts.value.1;
  }

  predicate Accepted(p: Policy, items: seq<Item>, rows: seq<RoleRow>, summary: Summary, channel: string) {
    && ValidPolicy(p) && items != [] && ClassifiedAll(p, channel != "validation", items)
    && RecordSound(p, CoverageOf(p, items), rows, summary, channel)
  }

  // ------------------------------------------------------------- guarantees

  /** The row verifies the digest. */
  predicate Vouches(r: RoleRow, role: string, digest: string) {
    r.id == role && r.status == Verified && digest in r.digests
  }

  lemma RoleVouches(p: Policy, items: seq<Item>, rows: seq<RoleRow>, summary: Summary, channel: string, i: nat)
    requires RecordSound(p, CoverageOf(p, items), rows, summary, channel)
    requires p.channels[channel].requiresArtifactRoles && i < |items| && RoleOf(p, items[i]).Some?
    ensures exists k :: 0 <= k < |rows| && Vouches(rows[k], RoleOf(p, items[i]).value, items[i].sha256)
  {
    var c, role, digest := CoverageOf(p, items), RoleOf(p, items[i]).value, items[i].sha256;
    assert role in c.byRole;
    assert role in Required(p, c, channel);
    assert role in VerifiedRoles(rows);
    var k :| 0 <= k < |rows| && rows[k].status == Verified && rows[k].id == role;
    assert RowSound(c, rows[k]);
    assert digest in DigestsOf(p, items, role) && digest in KnownDigests(items);
    assert digest in (set d | d in rows[k].digests);
    assert Vouches(rows[k], role, digest);
  }

  /**
   On a channel that is not for validation and requires artifact roles, an
   accepted record means: every artifact is in exactly one class, a verified row
   of that class's role lists its digest, and no verified platform role lists a
   digest that is not of one of its own artifacts.
   */
  lemma AcceptedCovers(p: Policy, items: seq<Item>, rows: seq<RoleRow>, summary: Summary, channel: string)
    requires Accepted(p, items, rows, summary, channel) && channel != "validation"
    requires p.channels[channel].requiresArtifactRoles
    ensures forall i :: 0 <= i < |items| ==> RoleOf(p, items[i]).Some?
    ensures forall i :: 0 <= i < |items| ==>
              exists k :: 0 <= k < |rows| && Vouches(rows[k], RoleOf(p, items[i]).value, items[i].sha256)
    ensures forall k, d :: 0 <= k < |rows| && PlatformRow(rows[k]) && d in rows[k].digests ==>
              exists i :: 0 <= i < |items| && RoleOf(p, items[i]) == Some(rows[k].id) && items[i].sha256 == d
  {
    forall i | 0 <= i < |items|
      ensures RoleOf(p, items[i]).Some?
      ensures exists k :: 0 <= k < |rows| && Vouches(rows[k], RoleOf(p, items[i]).value, items[i].sha256)
    {
      assert Classified(p, true, items[i]);
      RoleVouches(p, items, rows, summary, channel, i);
    }
    forall k, d | 0 <= k < |rows| && PlatformRow(rows[k]) && d in rows[k].digests
      ensures exists i :: 0 <= i < |items| && RoleOf(p, items[i]) == Some(rows[k].id) && items[i].sha256 == d
    {
      NoForeignDigest(p, items, rows[k], d);
    }
  }

  /** The verified row of a role that signs the artifacts of its classes. */
  predicate PlatformRow(r: RoleRow) { r.status == Verified && r.id != RELEASE_MANIFEST }

  lemma NoForeignDigest(p: Policy, items: seq<Item>, r: RoleRow, d: string)
    requires RowSound(CoverageOf(p, items), r) && PlatformRow(r) && d in r.digests
    ensures exists i :: 0 <= i < |items| && RoleOf(p, items[i]) == Some(r.id) && items[i].sha256 == d
  {
    assert d in (set x | x in r.digests);
    assert d in ExpectedDigests(CoverageOf(p, items), r.id);
    assert d in DigestsOf(p, items, r.id);
  }

  /** The item is in the class and in no other. */
  predicate SoleClass(p: Policy, it: Item, id: string) {
    var cs := ClassesOf(p.classes, FileName(it.path));
    |cs| == 1 && cs[0].id == id
  }

  predicate HasItem(p: Policy, items: seq<Item>, id: string) {
    exists i :: 0 <= i < |items| && SoleClass(p, items[i], id)
  }

  lemma CoveredHasItem(p: Policy, items: seq<Item>, id: string)
    ensures id in CoveredClasses(p, items) <==> HasItem(p, items, id)
  {
    if id in CoveredClasses(p, items) {
      var i :| 0 <= i < |items| && |ClassesOf(p.classes, FileName(items[i].path))| == 1 &&
        ClassesOf(p.classes, FileName(items[i].path))[0].id == id;
      assert SoleClass(p, items[i], id);
    }
    if HasItem(p, items, id) {
      var i :| 0 <= i < |items| && SoleClass(p, items[i], id);
      assert ClassesOf(p.classes, FileName(items[i].path))[0].id in CoveredClasses(p, items);
    }
  }

  /** A stable record also means that every class of the policy has an artifact. */
  lemma StableCoversClasses(p: Policy, items: seq<Item>, rows: seq<RoleRow>, summary: Summary)
    requires Accepted(p, items, rows, summary, "stable")
    ensures forall k :: 0 <= k < |p.classes| ==> HasItem(p, items, p.classes[k].id)
  {
    forall k | 0 <= k < |p.classes| ensures HasItem(p, items, p.classes[k].id) {
      assert p.classes[k].id in ClassIds(p);
      CoveredHasItem(p, items, p.classes[k].id);
    }
  }

  // ---------------------------------------------------------- prepared records

  const NOT_SUPPLIED: string := "No signing-role enrollment or verification evidence has been supplied."

  /** The rows of a record as it is first prepared: every role of the policy, none verified yet. */
  function PreparedRows(p: Policy): seq<RoleRow> {
    seq(|p.roles|, i requires 0 <= i < |p.roles| => RoleRow(p.roles[i], Open, "", [], [], "", "", NOT_SUPPLIED))
  }

  function Prepared(p: Policy, revision: string, file: File): Record {
    Record(SIGNING_SCHEMA, revision, file.name, file.sha256, PreparedRows(p), Summary(0, 0, 0, |p.roles|))
  }

  /** Prepares a record for a valid policy, a complete revision and a manifest of that revision, or refuses. */
  method Prepare(p: Policy, revision: string, m: Manifest, file: File) returns (r: Option<Record>)
    ensures r == if IsRevision(revision) && ValidPolicy(p) && m.schema == ARTIFACT_SCHEMA && m.revision == revision
                    && m.items != [] && ClassifiedAll(p, false, m.items)
                 then Some(Prepared(p, revision, file)) else None
    ensures r.Some? ==> Bound(r.value, m, file, Some(revision))
  {
    if !IsRevision(revision) || !ValidPolicy(p) { return None; }
    if m.schema != ARTIFACT_SCHEMA || m.revision != revision { return None; }
    var coverage := ClassifiedArtifacts(p, m.items, false);
    if coverage.None? { return None; }
    var rows: seq<RoleRow> := [];
    for i := 0 to |p.roles|
      invariant rows == PreparedRows(p)[..i]
    {
      rows := rows + [RoleRow(p.roles[i], Open, "", [], [], "", "", NOT_SUPPLIED)];
    }
    assert rows == PreparedRows(p);
    return Some(Record(SIGNING_SCHEMA, revision, file.name, file.sha256, rows, Summary(0, 0, 0, |p.roles|)));
  }

  lemma {:induction false} AllOpen(rows: seq<RoleRow>)
    requires forall i :: 0 <= i < |rows| ==> rows[i].status == Open
    ensures SummaryOf(rows) == Summary(0, 0, 0, |rows|) && VerifiedRoles(rows) == {}
  {
    if rows != [] { AllOpen(rows[..|rows| - 1]); }
  }

  /** No role is required of the manifest's items on the channel. */
  predicate NothingRequired(p: Policy, items: seq<Item>, channel: string)
    requires channel in p.channels
  {
    && p.channels[channel].required == []
    && (p.channels[channel].requiresArtifactRoles ==> forall i :: 0 <= i < |items| ==> RoleOf(p, items[i]).None?)
  }

  lemma RequiredNothing(p: Policy, items: seq<Item>, channel: string)
    requires channel in p.channels
    ensures Required(p, CoverageOf(p, items), channel) == {} <==> NothingRequired(p, items, channel)
  {
    var c, required := CoverageOf(p, items), p.channels[channel].required;
    if required != [] { assert required[0] in Required(p, c, channel); }
    if p.channels[channel].requiresArtifactRoles {
      assert forall i :: 0 <= i < |items| && RoleOf(p, items[i]).Some? ==> RoleOf(p, items[i]).value in c.byRole.Keys;
      assert forall r :: r in c.byRole.Keys ==> r in Required(p, c, channel);
    }
  }

  /**
   A record as prepared says what it contains, and passes exactly on a channel
   that requires nothing of the manifest it was prepared for.
   */
  lemma PreparedAccepted(p: Policy, items: seq<Item>, channel: string)
    requires ValidPolicy(p) && items != [] && ClassifiedAll(p, channel != "validation", items)
    ensures Accepted(p, items, PreparedRows(p), Summary(0, 0, 0, |p.roles|), channel) <==>
            && channel in p.channels && NothingRequired(p, items, channel)
            && (channel == "stable" ==> CoveredClasses(p, items) == ClassIds(p))
  {
    var rows, summary := PreparedRows(p), Summary(0, 0, 0, |p.roles|);
    AllOpen(rows);
    if channel in p.channels { RequiredNothing(p, items, channel); }
  }

  /** So where artifact roles are required for stable releases, no prepared record is a stable release. */
  lemma PreparedNotStable(p: Policy, items: seq<Item>)
    requires ValidPolicy(p) && "stable" in p.channels && p.channels["stable"].requiresArtifactRoles
    ensures !Accepted(p, items, PreparedRows(p), Summary(0, 0, 0, |p.roles|), "stable")
  {
    var rows, summary := PreparedRows(p), Summary(0, 0, 0, |p.roles|);
    if Accepted(p, items, rows, summary, "stable") {
      StableCoversClasses(p, items, rows, summary);
      assert HasItem(p, items, p.classes[0].id);
      var i :| 0 <= i < |items| && SoleClass(p, items[i], p.classes[0].id);
      AcceptedCovers(p, items, rows, summary, "stable");
      assert false;
    }
  }

  // -------------------------------------------------------- acceptance spelled out

  predicate Surrounds(t: string, s: string, before: string, after: string) { t == before + s + after }

  /** A text contains another exactly if it is that with something before and behind it. */
  lemma {:induction false} ContainsSpelled(t: string, s: string)
    ensures Contains(t, s) <==> exists before, after :: Surrounds(t, s, before, after)
  {
    if s <= t {
      assert Surrounds(t, s, [], t[|s|..]);
    } else if t != [] {
      ContainsSpelled(t[1..], s);
      forall b, a | Surrounds(t[1..], s, b, a) ensures Surrounds(t, s, [t[0]] + b, a) {
        assert t == [t[0]] + t[1..] && [t[0]] + (b + s + a) == [t[0]] + b + s + a;
      }
      forall b, a | Surrounds(t, s, b, a) ensures b != [] && Surrounds(t[1..], s, b[1..], a) {
        assert b == [] ==> s <= t;
        assert t[1..] == (b + s + a)[1..];
      }
    }
  }

  /** The file name is what stands behind the last slash. */
  lemma FileNameSpelled(path: string)
    ensures '/' !in FileName(path)
    ensures FileName(path) == path || EndsWith(path, "/" + FileName(path))
  {
    var parts := Split(path, '/');
    SplitJoins(path, '/');
    var front, last := parts[..|parts| - 1], parts[|parts| - 1];
    assert parts == front + [last] && last == FileName(path);
    if front != [] {
      JoinConcat(front, [last], '/');
      assert path == Join(front, '/') + ("/" + last);
    }
  }

  lemma {:induction false} ClassesOfMembers(classes: seq<Class>, name: string)
    ensures forall c :: c in ClassesOf(classes, name) <==> c in classes && Contains(name, "-" + c.id + "-")
  {
    if classes != [] {
      ClassesOfMembers(classes[1..], name);
      assert classes == [classes[0]] + classes[1..];
    }
  }

  /** The class is named in the artifact's file name. */
  predicate NamedIn(c: Class, it: Item) { Contains(FileName(it.path), "-" + c.id + "-") }

  /** An artifact has the role of a class exactly if its file name names that class and no other. */
  lemma RoleSpelled(p: Policy, it: Item, role: string)
    requires ValidPolicy(p)
    ensures RoleOf(p, it) == Some(role) <==>
            exists c :: c in p.classes && NamedIn(c, it) && c.role == role
                        && forall other :: other in p.classes && NamedIn(other, it) ==> other == c
  {
    var cs := ClassesOf(p.classes, FileName(it.path));
    ClassesOfMembers(p.classes, FileName(it.path));
    assert DistinctBy(IdOf, p.classes);
    ClassesOfDistinct(p.classes, FileName(it.path));
    if |cs| == 1 { assert cs[0] in cs && forall c :: c in cs ==> c == cs[0]; }
    if |cs| >= 2 { assert cs[0] in cs && cs[1] in cs && IdOf(cs[0]) != IdOf(cs[1]); }
  }

  lemma {:induction false} ClassesOfDistinct(classes: seq<Class>, name: string)
    requires DistinctBy(IdOf, classes)
    ensures DistinctBy(IdOf, ClassesOf(classes, name))
  {
    if classes != [] {
      var rest := ClassesOf(classes[1..], name);
      ClassesOfDistinct(classes[1..], name);
      ClassesOfMembers(classes[1..], name);
      forall c | c in rest ensures c.id != classes[0].id {
        var k :| 0 <= k < |classes[1..]| && classes[1..][k] == c;
        assert IdOf(classes[0]) != IdOf(classes[k + 1]);
      }
      var all := [classes[0]] + rest;
      forall i, j | 0 <= i < j < |all| ensures IdOf(all[i]) != IdOf(all[j]) {
        assert all[j] == rest[j - 1] && rest[j - 1] in rest;
        if i > 0 { assert all[i] == rest[i - 1] && IdOf(rest[i - 1]) != IdOf(rest[j - 1]); }
      }
    }
  }

  function IdOf(c: Class): string { c.id }

  predicate Letter(c: char) { 'a' <= c <= 'z' || 'A' <= c <= 'Z' || '0' <= c <= '9' }

  /** A letter or digit, and then seven or more letters, digits or marks. */
  predicate KeyText(s: string) {
    8 <= |s| <= 256 && Letter(s[0]) && forall c :: c in s ==> Letter(c) || c in ":._+/=-"
  }

  /** The file name ends in a dot and one of the formats of a class that it names. */
  predicate InFormat(p: Policy, it: Item) {
    exists c, f :: c in p.classes && NamedIn(c, it) && f in c.formats && EndsWith(FileName(it.path), "." + f)
  }

  /** Outside validation every artifact of an accepted record is a safe path with a digest, in a format of its class. */
  lemma AcceptedItems(p: Policy, items: seq<Item>, rows: seq<RoleRow>, summary: Summary, channel: string)
    requires Accepted(p, items, rows, summary, channel)
    ensures |items| > 0 && forall i, j :: 0 <= i < j < |items| ==> items[i].path != items[j].path
    ensures forall it :: it in items ==> Below(it.path, "artifacts") && LowerHex(it.sha256, 64)
    ensures channel != "validation" ==> forall it :: it in items ==> InFormat(p, it)
  {
    forall it | it in items
      ensures Below(it.path, "artifacts") && LowerHex(it.sha256, 64)
      ensures channel != "validation" ==> InFormat(p, it)
    {
      var i :| 0 <= i < |items| && items[i] == it;
      assert Classified(p, channel != "validation", items[i]);
      assert forall k :: 0 <= k < |it.sha256| ==> it.sha256[k] in it.sha256;
      if channel != "validation" { ClassifiedInFormat(p, it); }
    }
  }

  lemma ClassifiedInFormat(p: Policy, it: Item)
    requires Classified(p, true, it)
    ensures InFormat(p, it)
  {
    var cs := ClassesOf(p.classes, FileName(it.path));
    ClassesOfMembers(p.classes, FileName(it.path));
    var k :| 0 <= k < |cs[0].formats| && EndsWith(FileName(it.path), "." + cs[0].formats[k]);
    assert cs[0] in cs && cs[0] in p.classes && NamedIn(cs[0], it) && cs[0].formats[k] in cs[0].formats;
  }

  /** A record is bound to a manifest file by its name and digest, and to one complete revision by all three. */
  lemma BoundExact(r: Record, m: Manifest, file: File, expected: Option<string>)
    ensures Bound(r, m, file, expected) <==>
            && r.schema == "komms-release-signing/v1" && m.schema == "komms-release-artifacts/v1"
            && (LowerHex(r.revision, 40) || LowerHex(r.revision, 64)) && m.revision == r.revision
            && (expected.None? || expected.value == r.revision)
            && r.manifestPath == file.name && r.manifestSha256 == file.sha256
  {
    assert forall i :: 0 <= i < |r.revision| ==> r.revision[i] in r.revision;
  }

  /** A policy is read exactly if its roles are named and differ, and its classes and channels refer to them. */
  lemma PolicyExact(p: Policy)
    ensures ValidPolicy(p) <==>
            && "" !in p.roles && |Elements(p.roles)| == |p.roles| && |p.classes| > 0 && DistinctBy(IdOf, p.classes)
            && (forall c :: c in p.classes ==> c.id != "" && c.role in p.roles && |c.formats| > 0 && "" !in c.formats)
            && (forall ch :: ch in p.channels ==> Elements(p.channels[ch].required) <= Elements(p.roles))
  {
    DistinctBySize(p.roles);
    assert "" !in p.roles <==> forall i :: 0 <= i < |p.roles| ==> p.roles[i] != "";
    assert forall i :: 0 <= i < |p.classes| ==> p.classes[i] in p.classes;
    forall ch | ch in p.channels
      ensures Elements(p.channels[ch].required) <= Elements(p.roles) <==>
              forall i :: 0 <= i < |p.channels[ch].required| ==> p.channels[ch].required[i] in p.roles
    {
      var required := p.channels[ch].required;
      assert forall i :: 0 <= i < |required| ==> required[i] in Elements(required);
    }
  }

  /** What a verified row has to show: a key, what shows it, who found it and when, and which files. */
  predicate ShowsVerification(r: RoleRow) {
    && KeyText(r.fingerprint) && |r.evidence| > 0 && (forall e :: e in r.evidence ==> |e| > 0)
    && |r.verifiedAt| > 0 && |r.verifier| > 0 && |r.result| > 0 && |r.digests| > 0 && Distinct(r.digests)
  }

  /**
   In an accepted record the rows follow the roles, every verified one shows its
   verification, the manifest role lists exactly the digests of all artifacts, all
   roles of the channel are verified, and the summary accounts for every row.
   */
  lemma AcceptedShows(p: Policy, items: seq<Item>, rows: seq<RoleRow>, summary: Summary, channel: string)
    requires Accepted(p, items, rows, summary, channel)
    ensures |rows| == |p.roles| && forall k :: 0 <= k < |rows| ==> rows[k].id == p.roles[k]
    ensures forall r :: r in rows && r.status == Verified ==> ShowsVerification(r)
    ensures forall r, d :: r in rows && r.status == Verified && r.id == "release-manifest" ==>
              (d in r.digests <==> exists it :: it in items && it.sha256 == d)
    ensures channel in p.channels
    ensures forall role :: role in p.channels[channel].required ==>
              exists r :: r in rows && r.id == role && r.status == Verified
    ensures summary.verified + summary.failed + summary.blocked + summary.open == |rows|
  {
    var c := CoverageOf(p, items);
    forall r | r in rows && r.status == Verified ensures ShowsVerification(r) && RowSound(c, r) {
      var k :| 0 <= k < |rows| && rows[k] == r;
      assert RowSound(c, rows[k]);
      assert r.digests == [] ==> (set d | d in r.digests) == {};
    }
    forall r, d | r in rows && r.status == Verified && r.id == "release-manifest"
      ensures d in r.digests <==> exists it :: it in items && it.sha256 == d
    {
      ManifestRowLists(items, c, r, d);
    }
    forall role | role in p.channels[channel].required
      ensures exists r :: r in rows && r.id == role && r.status == Verified
    {
      assert role in Required(p, c, channel) && role in VerifiedRoles(rows);
      var k :| 0 <= k < |rows| && rows[k].status == Verified && rows[k].id == role;
      assert rows[k] in rows;
    }
    StatusesAddUp(rows);
  }

  lemma ManifestRowLists(items: seq<Item>, c: Coverage, r: RoleRow, d: string)
    requires RowSound(c, r) && r.status == Verified && r.id == "release-manifest" && c.known == KnownDigests(items)
    ensures d in r.digests <==> exists it :: it in items && it.sha256 == d
  {
    assert d in r.digests <==> d in (set x | x in r.digests);
    if it :| it in items && it.sha256 == d {
      var i :| 0 <= i < |items| && items[i] == it;
      assert items[i].sha256 in KnownDigests(items);
    }
    if d in KnownDigests(items) {
      var i :| 0 <= i < |items| && items[i].sha256 == d;
      assert items[i] in items;
    }
  }

  lemma {:induction false} StatusesAddUp(rows: seq<RoleRow>)
    ensures var s := SummaryOf(rows); s.verified + s.failed + s.blocked + s.open == |rows|
    ensures SummaryOf(rows).verified == |Filter((r: RoleRow) => r.status == Verified, rows)|
    ensures SummaryOf(rows).failed == |Filter((r: RoleRow) => r.status == Failed, rows)|
    ensures SummaryOf(rows).blocked == |Filter((r: RoleRow) => r.status == Blocked, rows)|
  {
    CountIsFilter(rows, Verified);
    CountIsFilter(rows, Failed);
    CountIsFilter(rows, Blocked);
    if rows != [] { StatusesAddUp(rows[..|rows| - 1]); }
  }

  lemma {:induction false} CountIsFilter(rows: seq<RoleRow>, s: Status)
    ensures CountStatus(rows, s) == |Filter((r: RoleRow) => r.status == s, rows)|
  {
    if rows != [] {
      var front, last := rows[..|rows| - 1], rows[|rows| - 1];
      CountIsFilter(front, s);
      assert rows == front + [last];
      FilterConcat((r: RoleRow) => r.status == s, front, [last]);
      assert [last][1..] == [];
    }
  }
}
