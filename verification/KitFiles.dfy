/** The files of the conformance kit: loading its cases, and storing their answers. */
module KitFiles {
  import opened JsonValues
  import opened KitRuns
  import opened Sequences
  import opened Sorting
  import opened Strings
  import opened Wrappers

  const MAX_CASES: nat := 1024
  const MAX_ID: nat := 96

  // ------------------------------------------------------------- documents

  const CASE_KEYS: set<string> := {"id", "purpose", "operation", "arguments", "expected"}
  const DOCUMENT_KEYS: set<string> := {"format_version", "profile", "cases"}

  function ParseCase(v: Json): Option<Case> {
    if !(v.Obj? && v.fields.Keys == CASE_KEYS) then None else
    var f := v.fields;
    if f["id"].Str? && f["purpose"].Str? && f["operation"].Str?
    then Some(Case(f["id"].s, f["purpose"].s, f["operation"].s, f["arguments"], f["expected"])) else None
  }

  function CaseJson(c: Case): Json {
    Obj(map["id" := Str(c.id), "purpose" := Str(c.purpose), "operation" := Str(c.operation),
            "arguments" := c.arguments, "expected" := c.expected])
  }

  lemma CaseReads(c: Case)
    ensures ParseCase(CaseJson(c)) == Some(c)
  {
    assert CaseJson(c).fields.Keys == CASE_KEYS;
  }

  function ParseCases(vs: seq<Json>): Option<seq<Case>> {
    if vs == [] then Some([])
    else
      var c :- ParseCase(vs[0]);
      var rest :- ParseCases(vs[1..]);
      Some([c] + rest)
  }

  function CasesJson(cases: seq<Case>): seq<Json> {
    if cases == [] then [] else [CaseJson(cases[0])] + CasesJson(cases[1..])
  }

  lemma {:induction false} CasesRead(cases: seq<Case>)
    ensures ParseCases(CasesJson(cases)) == Some(cases)
  {
    if cases != [] {
      CaseReads(cases[0]);
      CasesRead(cases[1..]);
      assert cases == [cases[0]] + cases[1..];
    }
  }

  lemma {:induction false} ParsedLength(vs: seq<Json>)
    ensures ParseCases(vs).Some? ==> |ParseCases(vs).value| == |vs|
  {
    if vs != [] { ParsedLength(vs[1..]); }
  }

  /** A document of the kit's own profile; what its version and profile are compared with, Python compares. */
  predicate DocumentShape(doc: Json, profile: Json) {
    && doc.Obj? && doc.fields.Keys == DOCUMENT_KEYS
    && Alike(doc.fields["format_version"], Int(1)) && Alike(doc.fields["profile"], profile)
    && doc.fields["cases"].List?
  }

  function ParseDocument(doc: Json, profile: Json): Option<seq<Case>> {
    if DocumentShape(doc, profile) then ParseCases(doc.fields["cases"].items) else None
  }

  /** The document with other cases. */
  function WithCases(doc: Json, cases: seq<Case>): Json
    requires doc.Obj?
  {
    Obj(doc.fields["cases" := List(CasesJson(cases))])
  }

  lemma DocumentReads(doc: Json, profile: Json, cases: seq<Case>)
    requires ParseDocument(doc, profile).Some?
    ensures ParseDocument(WithCases(doc, cases), profile) == Some(cases)
  {
    CasesRead(cases);
    assert WithCases(doc, cases).fields.Keys == DOCUMENT_KEYS;
  }

  // ----------------------------------------------------------------- cases

  /** The case documents by path. */
  type Files = map<string, seq<Case>>

  predicate IdCharacter(c: char) { 'a' <= c <= 'z' || '0' <= c <= '9' || c == '-' || c == '.' }

  predicate WellFormedCase(c: Case) {
    && 0 < |c.id| <= MAX_ID && (forall i :: 0 <= i < |c.id| ==> IdCharacter(c.id[i]))
    && c.purpose != "" && c.operation != "" && c.arguments.Obj?
  }

  function Flatten(fs: Files, paths: seq<string>): seq<Case>
    requires forall p :: p in paths ==> p in fs
  {
    if paths == [] then [] else fs[paths[0]] + Flatten(fs, paths[1..])
  }

  ghost predicate GoodCases(cases: seq<Case>) {
    (forall c :: c in cases ==> WellFormedCase(c)) && DistinctIds(cases) && |cases| <= MAX_CASES
  }

  lemma {:induction false} FlattenSplits(fs: Files, a: seq<string>, b: seq<string>)
    requires forall p :: p in a + b ==> p in fs
    ensures Flatten(fs, a + b) == Flatten(fs, a) + Flatten(fs, b)
  {
    if a == [] {
      assert a + b == b;
    } else {
      var rest := a[1..];
      assert a + b == [a[0]] + (rest + b) && a == [a[0]] + rest;
      assert forall p :: p in rest + b ==> p in a + b;
      FlattenSplits(fs, rest, b);
      FlattenFront(fs, a[0], rest);
      FlattenFront(fs, a[0], rest + b);
      Regrouped(fs[a[0]], Flatten(fs, rest), Flatten(fs, b));
    }
  }

  lemma FlattenFront(fs: Files, p: string, rest: seq<string>)
    requires p in fs && forall q :: q in rest ==> q in fs
    ensures Flatten(fs, [p] + rest) == fs[p] + Flatten(fs, rest)
  {
    assert ([p] + rest)[1..] == rest;
  }

  lemma GoodPrefix(a: seq<Case>, b: seq<Case>)
    ensures GoodCases(a + b) ==> GoodCases(a)
  {
    assert forall i :: 0 <= i < |a| ==> (a + b)[i] == a[i];
    assert forall c :: c in a ==> c in a + b;
  }

  /** One more case keeps the list good exactly when it is well formed, new and not one too many. */
  lemma GoodExtended(cases: seq<Case>, c: Case)
    requires GoodCases(cases)
    ensures GoodCases(cases + [c]) <==>
            WellFormedCase(c) && (forall x :: x in cases ==> x.id != c.id) && |cases| < MAX_CASES
  {
    var all := cases + [c];
    if GoodCases(all) {
      assert all[|cases|] == c;
      forall x | x in cases ensures x.id != c.id {
        var i :| 0 <= i < |cases| && cases[i] == x;
        assert all[i] == x;
      }
    }
  }

  /** The document's cases checked one after the other. */
  method LoadDocument(cases: seq<Case>, document: seq<Case>) returns (r: Option<seq<Case>>)
    requires GoodCases(cases)
    ensures r == if GoodCases(cases + document) then Some(cases + document) else None
  {
    var out := cases;
    for i := 0 to |document|
      invariant out == cases + document[..i] && GoodCases(out)
    {
      var c := document[i];
      GoodExtended(out, c);
      if !(WellFormedCase(c) && (forall x :: x in out ==> x.id != c.id) && |out| < MAX_CASES) {
        assert cases + document == (out + [c]) + document[i + 1..];
        GoodPrefix(out + [c], document[i + 1..]);
        return None;
      }
      out := out + [c];
    }
    assert out == cases + document;
    return Some(out);
  }

  /** Each document gets as many of the cases, in order, as it had. */
  function Stored(fs: Files, paths: seq<string>, cases: seq<Case>): Files
    requires forall p :: p in paths ==> p in fs
    decreases |paths|
  {
    if paths == [] then fs
    else
      var n := if |fs[paths[0]]| <= |cases| then |fs[paths[0]]| else |cases|;
      Stored(fs[paths[0] := cases[..n]], paths[1..], cases[n..])
  }

  lemma {:induction false} StoredElsewhere(fs: Files, paths: seq<string>, cases: seq<Case>, q: string)
    requires (forall p :: p in paths ==> p in fs) && q !in paths && q in fs
    ensures q in Stored(fs, paths, cases) && Stored(fs, paths, cases)[q] == fs[q]
    ensures forall p :: p in fs ==> p in Stored(fs, paths, cases)
    decreases |paths|
  {
    if paths != [] {
      var n := if |fs[paths[0]]| <= |cases| then |fs[paths[0]]| else |cases|;
      StoredElsewhere(fs[paths[0] := cases[..n]], paths[1..], cases[n..], q);
    }
  }

  /** Cases cut up by the old counts come back in the same order when the files are read again. */
  lemma {:induction false} StoredFlattens(fs: Files, paths: seq<string>, cases: seq<Case>)
    requires Distinct(paths) && (forall p :: p in paths ==> p in fs) && |cases| == |Flatten(fs, paths)|
    ensures forall p :: p in paths ==> p in Stored(fs, paths, cases)
    ensures Flatten(Stored(fs, paths, cases), paths) == cases
    decreases |paths|
  {
    if paths != [] {
      var n, q, rest := |fs[paths[0]]|, paths[0], paths[1..];
      var next := fs[q := cases[..n]];
      assert q !in rest;
      SameFlatten(fs, next, rest);
      StoredFlattens(next, rest, cases[n..]);
      StoredElsewhere(next, rest, cases[n..], q);
      assert cases == cases[..n] + cases[n..];
    }
  }

  lemma {:induction false} SameFlatten(fs: Files, gs: Files, paths: seq<string>)
    requires forall p :: p in paths ==> p in fs && p in gs && gs[p] == fs[p]
    ensures Flatten(gs, paths) == Flatten(fs, paths)
  {
    if paths != [] { SameFlatten(fs, gs, paths[1..]); }
  }

  // --------------------------------------------------------------- loading

  /** The documents by path, as they are read from disk. */
  type Documents = map<string, Json>

  /** Those that can be read, by the cases they hold. */
  function View(docs: Documents, profile: Json): Files {
    map p | p in docs && ParseDocument(docs[p], profile).Some? :: ParseDocument(docs[p], profile).value
  }

  /** Safe and distinct paths of documents whose cases, taken together, are good. */
  ghost predicate Loadable(docs: Documents, paths: seq<string>, profile: Json) {
    && paths != [] && Distinct(paths)
    && (forall p :: p in paths ==> Below(p, "cases") && p in View(docs, profile))
    && GoodCases(Flatten(View(docs, profile), paths))
  }

  method LoadCases(docs: Documents, paths: seq<string>, profile: Json) returns (r: Option<seq<Case>>)
    ensures r.Some? <==> Loadable(docs, paths, profile)
    ensures r.Some? ==> r.value == Flatten(View(docs, profile), paths)
  {
    if paths == [] { return None; }
    ghost var fs := View(docs, profile);
    var cases: seq<Case> := [];
    for i := 0 to |paths|
      invariant Distinct(paths[..i]) && forall p :: p in paths[..i] ==> Below(p, "cases") && p in fs
      invariant cases == Flatten(fs, paths[..i]) && GoodCases(cases)
    {
      var relative := paths[i];
      assert relative in paths;
      if !Below(relative, "cases") || relative in paths[..i] || relative !in docs { return None; }
      var document := ParseDocument(docs[relative], profile);
      if document.None? { return None; }
      FlattenNext(fs, paths, i);
      NotLoadable(docs, paths, profile, i + 1);
      var next := LoadDocument(cases, document.value);
      if next.None? { return None; }
      cases := next.value;
    }
    assert paths[..|paths|] == paths;
    return Some(cases);
  }

  lemma FlattenNext(fs: Files, paths: seq<string>, i: nat)
    requires i < |paths| && forall p :: p in paths[..i + 1] ==> p in fs
    ensures paths[..i + 1] == paths[..i] + [paths[i]] && forall p :: p in paths[..i] ==> p in fs
    ensures Flatten(fs, paths[..i + 1]) == Flatten(fs, paths[..i]) + fs[paths[i]]
  {
    assert paths[..i + 1] == paths[..i] + [paths[i]];
    FlattenSplits(fs, paths[..i], [paths[i]]);
    assert Flatten(fs, [paths[i]]) == fs[paths[i]] by { assert [paths[i]][1..] == []; }
  }

  /** Cases that are not good together are not good with more behind them. */
  lemma NotLoadable(docs: Documents, paths: seq<string>, profile: Json, n: nat)
    requires n <= |paths| && forall p :: p in paths[..n] ==> p in View(docs, profile)
    ensures Loadable(docs, paths, profile) ==> GoodCases(Flatten(View(docs, profile), paths[..n]))
  {
    var fs := View(docs, profile);
    if forall p :: p in paths ==> p in fs {
      assert paths == paths[..n] + paths[n..];
      FlattenSplits(fs, paths[..n], paths[n..]);
      GoodPrefix(Flatten(fs, paths[..n]), Flatten(fs, paths[n..]));
    }
  }

  // ----------------------------------------------------- the kit's metadata

  const KIT_KEYS: set<string> := {"format", "format_version", "profile", "kit_version", "case_files"}
  const PROFILE := Str("komms-stable-v1")

  function ParsePaths(vs: seq<Json>): Option<seq<string>> {
    if vs == [] then Some([])
    else if !vs[0].Str? then None
    else
      var rest :- ParsePaths(vs[1..]);
      Some([vs[0].s] + rest)
  }

  /** The paths that the metadata lists, if it is of the supported format and profile. */
  function KitPaths(kit: Json): Option<seq<string>> {
    if kit.Obj? && kit.fields.Keys == KIT_KEYS && kit.fields["format"] == Str("komms-conformance-kit")
       && Alike(kit.fields["format_version"], Int(1)) && kit.fields["profile"] == PROFILE
       && kit.fields["case_files"].List?
    then ParsePaths(kit.fields["case_files"].items) else None
  }

  method LoadKit(kit: Json, docs: Documents) returns (r: Option<seq<Case>>)
    ensures r.Some? <==> KitPaths(kit).Some? && Loadable(docs, KitPaths(kit).value, PROFILE)
    ensures r.Some? ==> r.value == Flatten(View(docs, PROFILE), KitPaths(kit).value)
  {
    var paths := KitPaths(kit);
    if paths.None? { return None; }
    r := LoadCases(docs, paths.value, PROFILE);
  }

  // --------------------------------------------------------------- storing

  /** The number of cases that a document had. */
  function CaseCount(docs: Documents, p: string, profile: Json): nat
    requires p in View(docs, profile)
  {
    |docs[p].fields["cases"].items|
  }

  /** Each document is read again and gets as many of the cases, in order, as it had. */
  function StoredDocuments(docs: Documents, paths: seq<string>, profile: Json, cases: seq<Case>): Documents
    requires forall p :: p in paths ==> p in View(docs, profile)
    decreases |paths|
  {
    if paths == [] then docs
    else
      var p := paths[0];
      assert p in paths;
      var n := if CaseCount(docs, p, profile) <= |cases| then CaseCount(docs, p, profile) else |cases|;
      StoreOne(docs, p, profile, cases[..n]);
      StoredDocuments(docs[p := WithCases(docs[p], cases[..n])], paths[1..], profile, cases[n..])
  }

  lemma StoreOne(docs: Documents, p: string, profile: Json, cases: seq<Case>)
    requires p in View(docs, profile)
    ensures View(docs[p := WithCases(docs[p], cases)], profile) == View(docs, profile)[p := cases]
    ensures CaseCount(docs, p, profile) == |View(docs, profile)[p]|
  {
    DocumentReads(docs[p], profile, cases);
    ParsedLength(docs[p].fields["cases"].items);
  }

  /** One document written back; the rest of the cases are for the rest of the paths. */
  method StoreDocument(docs: Documents, paths: seq<string>, profile: Json, cases: seq<Case>)
    returns (out: Documents, n: nat)
    requires paths != [] && forall p :: p in paths ==> p in View(docs, profile)
    ensures n <= |cases| && forall p :: p in paths ==> p in View(out, profile)
    ensures StoredDocuments(docs, paths, profile, cases) == StoredDocuments(out, paths[1..], profile, cases[n..])
  {
    var p := paths[0];
    assert p in paths;
    var document := docs[p];
    var count := |document.fields["cases"].items|;
    n := if count <= |cases| then count else |cases|;
    StoreOne(docs, p, profile, cases[..n]);
    out := docs[p := WithCases(document, cases[..n])];
  }

  method StoreCases(docs: Documents, paths: seq<string>, profile: Json, cases: seq<Case>) returns (out: Documents)
    requires forall p :: p in paths ==> p in View(docs, profile)
    ensures out == StoredDocuments(docs, paths, profile, cases)
  {
    out := docs;
    var offset: nat := 0;
    ghost var rest, tail, goal := paths, cases, StoredDocuments(docs, paths, profile, cases);
    for i := 0 to |paths|
      invariant rest == paths[i..] && offset <= |cases| && tail == cases[offset..]
      invariant forall p :: p in rest ==> p in View(out, profile)
      invariant goal == StoredDocuments(out, rest, profile, tail)
    {
      var next, taken := StoreDocument(out, paths[i..], profile, cases[offset..]);
      assert rest[1..] == paths[i + 1..] && tail[taken..] == cases[offset + taken..];
      out, offset, rest, tail := next, offset + taken, rest[1..], tail[taken..];
    }
  }

  /** Seen by the cases they hold, the documents stored are those that cutting up the list gives. */
  lemma {:induction false} StoredView(docs: Documents, paths: seq<string>, profile: Json, cases: seq<Case>)
    requires forall p :: p in paths ==> p in View(docs, profile)
    ensures View(StoredDocuments(docs, paths, profile, cases), profile) == Stored(View(docs, profile), paths, cases)
    decreases |paths|
  {
    if paths != [] {
      var p := paths[0];
      assert p in paths;
      var n := if CaseCount(docs, p, profile) <= |cases| then CaseCount(docs, p, profile) else |cases|;
      StoreOne(docs, p, profile, cases[..n]);
      StoredView(docs[p := WithCases(docs[p], cases[..n])], paths[1..], profile, cases[n..]);
    }
  }

  // ------------------------------------------------------------- guarantees

  /**
   A kit that loads is written, loaded again and checked: the same cases come
   back with the new answers, and the check reports nothing.
   */
  lemma WrittenKitChecks(adapter: Adapter, docs: Documents, paths: seq<string>, profile: Json)
    requires Loadable(docs, paths, profile) && WriteRun(adapter, Flatten(View(docs, profile), paths), map[]).Some?
    ensures var cases := Flatten(View(docs, profile), paths);
            var w := WriteRun(adapter, cases, map[]).value;
            && |w.responses| == |cases|
            && var answered := Answered(cases, w.responses);
            && var stored := StoredDocuments(docs, paths, profile, answered);
            && Loadable(stored, paths, profile)
            && Flatten(View(stored, profile), paths) == answered
            && CheckRun(adapter, answered) == Some([])
  {
    var fs := View(docs, profile);
    var cases := Flatten(fs, paths);
    WriteThenCheck(adapter, cases);
    var answered := Answered(cases, WriteRun(adapter, cases, map[]).value.responses);
    StoredFlattens(fs, paths, answered);
    StoredView(docs, paths, profile, answered);
    AnsweredGood(cases, WriteRun(adapter, cases, map[]).value.responses);
  }

  lemma AnsweredGood(cases: seq<Case>, responses: seq<Json>)
    requires GoodCases(cases) && |cases| == |responses|
    ensures GoodCases(Answered(cases, responses))
  {
    var answered := Answered(cases, responses);
    forall c | c in answered ensures WellFormedCase(c) {
      var i :| 0 <= i < |answered| && answered[i] == c;
      assert cases[i] in cases;
    }
  }

  // -------------------------------------------------------- acceptance spelled out

  /** The lists of cases that a kit may hold. */
  lemma GoodCasesExact(cases: seq<Case>)
    ensures GoodCases(cases) <==>
            && |cases| <= 1024 && (forall i, j :: 0 <= i < j < |cases| ==> cases[i].id != cases[j].id)
            && forall c :: c in cases ==>
                 && 1 <= |c.id| <= 96 && (forall x :: x in c.id ==> 'a' <= x <= 'z' || '0' <= x <= '9' || x in "-.")
                 && |c.purpose| > 0 && |c.operation| > 0 && c.arguments.Obj?
  {
    assert forall x: char :: IdCharacter(x) <==> 'a' <= x <= 'z' || '0' <= x <= '9' || x in "-.";
  }

  /** A value is read as a case exactly if it is the case written out. */
  lemma CaseReadsExact(v: Json, c: Case)
    ensures ParseCase(v) == Some(c) <==> v == CaseJson(c)
  {
    CaseReads(c);
    if ParseCase(v) == Some(c) {
      assert v.fields.Keys == CASE_KEYS == CaseJson(c).fields.Keys;
      assert v.fields == CaseJson(c).fields;
    }
  }

  lemma {:induction false} CasesReadExact(vs: seq<Json>, cases: seq<Case>)
    ensures ParseCases(vs) == Some(cases) <==> vs == CasesJson(cases)
  {
    CasesRead(cases);
    if vs != [] && ParseCases(vs) == Some(cases) {
      CaseReadsExact(vs[0], cases[0]);
      CasesReadExact(vs[1..], cases[1..]);
      assert vs == [vs[0]] + vs[1..];
    }
  }

  function DocumentJson(version: Json, profile: Json, cases: seq<Case>): Json {
    Obj(map["format_version" := version, "profile" := profile, "cases" := List(CasesJson(cases))])
  }

  /** A document is read as some cases exactly if it holds them written out, for version 1 and the profile. */
  lemma DocumentReadsExact(doc: Json, profile: Json, cases: seq<Case>)
    ensures ParseDocument(doc, profile) == Some(cases) <==>
            exists v, p :: doc == DocumentJson(v, p, cases) && Normal(v) == Float(1.0) && Normal(p) == Normal(profile)
  {
    if ParseDocument(doc, profile) == Some(cases) {
      var v, p := doc.fields["format_version"], doc.fields["profile"];
      CasesReadExact(doc.fields["cases"].items, cases);
      AlikeIsNormal(v, Int(1));
      AlikeIsNormal(p, profile);
      assert doc.fields == DocumentJson(v, p, cases).fields;
      assert doc == DocumentJson(v, p, cases);
    }
    forall v, p | doc == DocumentJson(v, p, cases) && Normal(v) == Float(1.0) && Normal(p) == Normal(profile)
      ensures ParseDocument(doc, profile) == Some(cases)
    {
      assert doc.fields.Keys == DOCUMENT_KEYS;
      AlikeIsNormal(v, Int(1));
      AlikeIsNormal(p, profile);
      CasesReadExact(doc.fields["cases"].items, cases);
    }
  }

  function PathsJson(paths: seq<string>): seq<Json> {
    if paths == [] then [] else [Str(paths[0])] + PathsJson(paths[1..])
  }

  lemma {:induction false} PathsReadExact(vs: seq<Json>, paths: seq<string>)
    ensures ParsePaths(vs) == Some(paths) <==> vs == PathsJson(paths)
    decreases |vs| + |paths|
  {
    if vs != [] && paths != [] {
      PathsReadExact(vs[1..], paths[1..]);
      assert vs == [vs[0]] + vs[1..] && paths == [paths[0]] + paths[1..];
      assert PathsJson(paths)[1..] == PathsJson(paths[1..]);
    }
  }

  function KitJson(version: Json, kitVersion: Json, paths: seq<string>): Json {
    Obj(map["format" := Str("komms-conformance-kit"), "format_version" := version,
            "profile" := Str("komms-stable-v1"), "kit_version" := kitVersion,
            "case_files" := List(PathsJson(paths))])
  }

  /** Metadata lists some paths exactly if it is written so, for version 1 of the format and the one profile. */
  lemma KitReadsExact(kit: Json, paths: seq<string>)
    ensures KitPaths(kit) == Some(paths) <==>
            exists v, k :: kit == KitJson(v, k, paths) && Normal(v) == Float(1.0)
  {
    if KitPaths(kit) == Some(paths) {
      var v, k := kit.fields["format_version"], kit.fields["kit_version"];
      PathsReadExact(kit.fields["case_files"].items, paths);
      AlikeIsNormal(v, Int(1));
      assert kit.fields == KitJson(v, k, paths).fields;
      assert kit == KitJson(v, k, paths);
    }
    forall v, k | kit == KitJson(v, k, paths) && Normal(v) == Float(1.0) ensures KitPaths(kit) == Some(paths) {
      assert kit.fields.Keys == KIT_KEYS;
      AlikeIsNormal(v, Int(1));
      PathsReadExact(kit.fields["case_files"].items, paths);
    }
  }

  /** A file of the directory for cases, or of one below it. */
  ghost predicate CasePath(p: string) { exists parts :: SpelledBelow(p, "cases", parts) }

  /** The files are of that directory, none is listed twice, and all can be read. */
  ghost predicate Listed(docs: Documents, paths: seq<string>, profile: Json) {
    && |paths| > 0 && |Elements(paths)| == |paths| && (forall p :: p in paths ==> CasePath(p))
    && forall p :: p in paths ==> p in docs && ParseDocument(docs[p], profile).Some?
  }

  lemma CasePathExact(p: string)
    ensures Below(p, "cases") <==> CasePath(p)
  {
    BelowSpelled(p, "cases");
  }

  /** A kit loads exactly if its files are listed so and hold good cases. */
  lemma LoadableExact(docs: Documents, paths: seq<string>, profile: Json)
    ensures Loadable(docs, paths, profile) <==>
            Listed(docs, paths, profile) && GoodCases(Flatten(View(docs, profile), paths))
  {
    ListedExact(docs, paths, profile);
  }

  lemma ListedExact(docs: Documents, paths: seq<string>, profile: Json)
    ensures Listed(docs, paths, profile) <==>
            && paths != [] && Distinct(paths)
            && forall p :: p in paths ==> Below(p, "cases") && p in View(docs, profile)
  {
    DistinctBySize(paths);
    forall p | p in paths ensures Below(p, "cases") <==> CasePath(p) { CasePathExact(p); }
  }
}
