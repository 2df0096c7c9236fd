/** Loading the conformance kit, writing its answers and checking them. */
module KitRuns {
  import opened JsonValues
  import opened KitExpressions
  import opened KitTheorems
  import opened Sequences
  import opened Wrappers

  /** A null answer is one that has not been committed yet. */
  datatype Case = Case(id: string, purpose: string, operation: string, arguments: Json, expected: Json)

  datatype Request = Request(id: string, operation: string, arguments: Json)

  /** A stateless, deterministic adapter: a validated response object for a request, or a failure. */
  type Adapter = Request -> Option<map<string, Json>>

  /** What its process answers to a request, if it answers with one line of JSON. */
  type Process = Request -> Option<Json>

  // -------------------------------------------------------------- responses

  predicate ErrorShape(v: Json) {
    v.Obj? && v.fields.Keys == {"code", "message"} && v.fields["code"].Str? && v.fields["message"].Str?
  }

  /** The answer to the request with the id, with a result or an error according to its success. */
  predicate ResponseShape(v: Json, id: string) {
    && v.Obj? && "id" in v.fields && v.fields["id"] == Str(id) && "ok" in v.fields && v.fields["ok"].Bool?
    && (v.fields["ok"].b ==> v.fields.Keys == {"id", "ok", "result"})
    && (!v.fields["ok"].b ==> v.fields.Keys == {"id", "ok", "error"} && ErrorShape(v.fields["error"]))
  }

  function WithoutId(m: map<string, Json>): map<string, Json> { map k | k in m && k != "id" :: m[k] }

  /** The adapter that the process is once its responses are checked and their ids removed. */
  function Checked(process: Process): Adapter {
    r =>
      var v := process(r);
      if v.Some? && ResponseShape(v.value, r.id) then Some(WithoutId(v.value.fields)) else None
  }

  method ReadResponse(process: Process, request: Request) returns (r: Option<map<string, Json>>)
    ensures r == Checked(process)(request)
    ensures r.Some? ==> "id" !in r.value && !Exactly(Obj(r.value))
  {
    var raw := process(request);
    if raw.None? || !raw.value.Obj? { return None; }
    var f := raw.value.fields;
    if "id" !in f || f["id"] != Str(request.id) { return None; }
    if "ok" !in f || !f["ok"].Bool? { return None; }
    if f["ok"].b {
      if f.Keys != {"id", "ok", "result"} { return None; }
    } else {
      if f.Keys != {"id", "ok", "error"} { return None; }
      if !ErrorShape(f["error"]) { return None; }
    }
    NeverPinned(raw.value, request.id);
    return Some(WithoutId(f));
  }

  /** Every response says whether it succeeded, and Python takes that for a number: no stored answer is pinned. */
  lemma NeverPinned(v: Json, id: string)
    requires ResponseShape(v, id)
    ensures !Exactly(Obj(WithoutId(v.fields)))
  {
    assert "ok" in WithoutId(v.fields) && !Exactly(WithoutId(v.fields)["ok"]);
  }

  // -------------------------------------------------------------- resolving

  function RequestOf(c: Case, done: Answers): Option<Request> {
    var a :- ResolveValue(c.arguments, done);
    Some(Request(c.id, c.operation, a))
  }

  /** Requests in declared order, each resolved over the committed answers before it. */
  function BatchRequests(cases: seq<Case>, done: Answers): Option<seq<Request>> {
    if cases == [] then Some([])
    else if cases[0].expected.Null? then None
    else
      var r :- RequestOf(cases[0], done);
      var rest :- BatchRequests(cases[1..], done[cases[0].id := cases[0].expected]);
      Some([r] + rest)
  }

  method ResolvedCases(cases: seq<Case>) returns (r: Option<seq<Request>>)
    ensures r == BatchRequests(cases, map[])
  {
    var done: Answers := map[];
    var out: seq<Request> := [];
    for i := 0 to |cases|
      invariant Continues(BatchRequests(cases, map[]), out, BatchRequests(cases[i..], done))
    {
      assert cases[i..][0] == cases[i] && cases[i..][1..] == cases[i + 1..];
      if cases[i].expected.Null? { return None; }
      var request := RequestOf(cases[i], done);
      if request.None? { return None; }
      out := out + [request.value];
      done := done[cases[i].id := cases[i].expected];
    }
    assert out == BatchRequests(cases, map[]).value;
    return Some(out);
  }

  /** The answers of the cases in order; of two with one id the later stands. */
  function Committed(cases: seq<Case>, done: Answers): Answers {
    if cases == [] then done else Committed(cases[1..], done[cases[0].id := cases[0].expected])
  }

  /** Later cases, whatever they are, never change the requests of earlier ones. */
  lemma {:induction false} BatchPrefix(a: seq<Case>, b: seq<Case>, done: Answers)
    ensures BatchRequests(a + b, done).Some? ==> BatchRequests(a, done).Some?
    ensures BatchRequests(a + b, done).Some? ==>
              BatchRequests(b, Committed(a, done)).Some?
              && BatchRequests(a + b, done).value ==
                 BatchRequests(a, done).value + BatchRequests(b, Committed(a, done)).value
    decreases |a|
  {
    if a == [] {
      assert a + b == b;
    } else {
      var next := done[a[0].id := a[0].expected];
      BatchPrefix(a[1..], b, next);
      assert (a + b)[1..] == a[1..] + b && (a + b)[0] == a[0];
      if BatchRequests(a + b, done).Some? {
        Regrouped([RequestOf(a[0], done).value], BatchRequests(a[1..], next).value,
                  BatchRequests(b, Committed(a, done)).value);
      }
    }
  }

  /** The request of a case, with its arguments resolved over the answers before it. */
  ghost predicate Asks(r: Request, c: Case, before: Answers) {
    r.id == c.id && r.operation == c.operation && ResolveValue(c.arguments, before) == Some(r.arguments)
  }

  /**
   A batch is made if and only if every case has an answer and its arguments
   resolve over the answers of the cases before it; then it asks for each case in
   order, under its own id, for its own operation.
   */
  lemma {:induction false} BatchAsks(cases: seq<Case>, done: Answers)
    ensures BatchRequests(cases, done).Some? <==> forall i :: 0 <= i < |cases| ==> Askable(cases, done, i)
    ensures BatchRequests(cases, done).Some? ==> |BatchRequests(cases, done).value| == |cases|
    ensures BatchRequests(cases, done).Some? ==>
              forall i :: 0 <= i < |cases| ==>
                Asks(BatchRequests(cases, done).value[i], cases[i], Committed(cases[..i], done))
    decreases |cases|
  {
    if cases != [] {
      var next := done[cases[0].id := cases[0].expected];
      BatchAsks(cases[1..], next);
      assert cases[..0] == [];
      forall i | 0 < i < |cases|
        ensures Askable(cases, done, i) <==> Askable(cases[1..], next, i - 1)
        ensures Committed(cases[..i], done) == Committed(cases[1..][..i - 1], next)
      {
        assert cases[..i][1..] == cases[1..][..i - 1];
      }
      assert Askable(cases, done, 0) <==> !cases[0].expected.Null? && RequestOf(cases[0], done).Some?;
      assert forall i :: 0 <= i < |cases| - 1 ==> (Askable(cases[1..], next, i) <==> Askable(cases, done, i + 1));
    }
  }

  ghost predicate Askable(cases: seq<Case>, done: Answers, i: nat)
    requires i < |cases|
  {
    !cases[i].expected.Null? && ResolveValue(cases[i].arguments, Committed(cases[..i], done)).Some?
  }

  ghost predicate DistinctIds(cases: seq<Case>) {
    forall i, j :: 0 <= i < j < |cases| ==> cases[i].id != cases[j].id
  }

  lemma {:induction false} CommittedExtends(cases: seq<Case>, done: Answers)
    requires DistinctIds(cases) && forall c :: c in cases ==> c.id !in done
    ensures Extends(done, Committed(cases, done))
    decreases |cases|
  {
    if cases != [] {
      forall c | c in cases[1..] ensures c.id != cases[0].id {
        var i :| 0 <= i < |cases[1..]| && cases[1..][i] == c;
        assert cases[i + 1] == c;
      }
      CommittedExtends(cases[1..], done[cases[0].id := cases[0].expected]);
    }
  }

  /**
   With distinct ids, resolving any case over the answers of the whole kit gives
   the arguments it was sent with: a reference never sees its own or a later case.
   */
  lemma {:induction false} ResolvedOverAll(cases: seq<Case>, done: Answers, i: nat)
    requires DistinctIds(cases) && (forall c :: c in cases ==> c.id !in done)
    requires BatchRequests(cases, done).Some? && i < |cases|
    ensures |BatchRequests(cases, done).value| == |cases|
    ensures ResolveValue(cases[i].arguments, Committed(cases, done)) ==
            Some(BatchRequests(cases, done).value[i].arguments)
    decreases |cases|
  {
    var next := done[cases[0].id := cases[0].expected];
    forall c | c in cases[1..] ensures c.id !in next {
      var j :| 0 <= j < |cases[1..]| && cases[1..][j] == c;
      assert cases[j + 1] == c;
    }
    CommittedExtends(cases, done);
    if |cases| > 1 { ResolvedOverAll(cases[1..], next, if i == 0 then 0 else i - 1); }
    if i == 0 { ResolveMonotone(cases[0].arguments, done, Committed(cases, done)); }
  }

  // ----------------------------------------------------- writing and checking

  datatype Written = Written(requests: seq<Request>, responses: seq<Json>)

  /** Each request is resolved over the responses just received. */
  function WriteRun(adapter: Adapter, cases: seq<Case>, done: Answers): Option<Written> {
    if cases == [] then Some(Written([], []))
    else
      var request :- RequestOf(cases[0], done);
      var response :- adapter(request);
      var rest :- WriteRun(adapter, cases[1..], done[cases[0].id := Obj(response)]);
      Some(Written([request] + rest.requests, [Obj(response)] + rest.responses))
  }

  /** What was asked and answered so far, followed by what is still to come, is the whole. */
  ghost predicate WritesOn(whole: Option<Written>, requests: seq<Request>, responses: seq<Json>, rest: Option<Written>)
  {
    && whole.Some? == rest.Some?
    && (rest.Some? ==> whole.value == Written(requests + rest.value.requests, responses + rest.value.responses))
  }

  lemma WritesNext(whole: Option<Written>, requests: seq<Request>, responses: seq<Json>, adapter: Adapter,
      cases: seq<Case>, done: Answers)
    requires cases != [] && WritesOn(whole, requests, responses, WriteRun(adapter, cases, done))
    ensures var request := RequestOf(cases[0], done);
            var response := if request.Some? then adapter(request.value) else None;
            if response.None? then whole.None?
            else WritesOn(whole, requests + [request.value], responses + [Obj(response.value)],
                          WriteRun(adapter, cases[1..], done[cases[0].id := Obj(response.value)]))
  {
    if whole.Some? {
      var request := RequestOf(cases[0], done).value;
      var response := adapter(request).value;
      var rest := WriteRun(adapter, cases[1..], done[cases[0].id := Obj(response)]).value;
      Regrouped(requests, [request], rest.requests);
      Regrouped(responses, [Obj(response)], rest.responses);
    }
  }

  method WriteMode(process: Process, cases: seq<Case>) returns (r: Option<Written>)
    ensures r == WriteRun(Checked(process), cases, map[])
  {
    ghost var adapter := Checked(process);
    ghost var whole := WriteRun(adapter, cases, map[]);
    var done: Answers := map[];
    var requests: seq<Request>, responses: seq<Json> := [], [];
    for i := 0 to |cases|
      invariant WritesOn(whole, requests, responses, WriteRun(adapter, cases[i..], done))
    {
      WritesNext(whole, requests, responses, adapter, cases[i..], done);
      assert cases[i..][0] == cases[i] && cases[i..][1..] == cases[i + 1..];
      var request := RequestOf(cases[i], done);
      if request.None? { return None; }
      var response := ReadResponse(process, request.value);
      if response.None? { return None; }
      requests, responses := requests + [request.value], responses + [Obj(response.value)];
      done := done[cases[i].id := Obj(response.value)];
    }
    assert requests + [] == requests && responses + [] == responses;
    return Some(Written(requests, responses));
  }

  /** The responses to a batch of requests. */
  function Asked(adapter: Adapter, requests: seq<Request>): Option<seq<Json>> {
    if requests == [] then Some([])
    else
      var response :- adapter(requests[0]);
      var rest :- Asked(adapter, requests[1..]);
      Some([Obj(response)] + rest)
  }

  function Mismatches(cases: seq<Case>, responses: seq<Json>): seq<string>
    requires |cases| == |responses|
  {
    if cases == [] then []
    else
      (if Alike(cases[0].expected, responses[0]) then [] else [cases[0].id]) + Mismatches(cases[1..], responses[1..])
  }

  /**
   Nothing is reported exactly when every committed answer is the response, once
   truth values and numbers are written as their amounts.
   */
  lemma {:induction false} MismatchesNone(cases: seq<Case>, responses: seq<Json>)
    requires |cases| == |responses|
    ensures Mismatches(cases, responses) == [] <==>
            forall i :: 0 <= i < |cases| ==> Normal(cases[i].expected) == Normal(responses[i])
  {
    if cases != [] {
      MismatchesNone(cases[1..], responses[1..]);
      AlikeIsNormal(cases[0].expected, responses[0]);
      var n := |cases| - 1;
      assert forall i :: 0 < i <= n ==> cases[i] == cases[1..][i - 1] && responses[i] == responses[1..][i - 1];
      assert forall i :: 0 <= i < n ==> cases[1..][i] == cases[i + 1] && responses[1..][i] == responses[i + 1];
    }
  }

  /**
   A clean check pins a committed answer, so that no other response could have
   passed for it, if and only if the answer holds no truth value and no number
   with a whole value.
   */
  lemma CheckPins(c: Case)
    ensures (forall response :: Mismatches([c], [response]) == [] ==> response == c.expected) <==> Exactly(c.expected)
  {
    if Exactly(c.expected) {
      forall response | Mismatches([c], [response]) == [] ensures response == c.expected {
        PassesFor(c, response);
        ExactlyPins(c.expected, response);
      }
    } else {
      var other := AnotherAlike(c.expected);
      PassesFor(c, other);
      assert Mismatches([c], [other]) == [] && other != c.expected;
    }
  }

  lemma PassesFor(c: Case, response: Json)
    ensures Mismatches([c], [response]) == [] <==> Alike(c.expected, response)
  {
    MismatchesNone([c], [response]);
    AlikeIsNormal(c.expected, response);
  }

  /** So a committed `true` passes for a response of `1`. */
  lemma TrueForOne(c: Case)
    requires c.expected == Obj(map["result" := Bool(true)])
    ensures Mismatches([c], [Obj(map["result" := Int(1)])]) == []
  {
    MismatchesNone([c], [Obj(map["result" := Int(1)])]);
    AlikeIsNormal(c.expected, Obj(map["result" := Int(1)]));
  }

  lemma {:induction false} BatchLengths(cases: seq<Case>, done: Answers)
    requires BatchRequests(cases, done).Some?
    ensures |BatchRequests(cases, done).value| == |cases|
    decreases |cases|
  {
    if cases != [] { BatchLengths(cases[1..], done[cases[0].id := cases[0].expected]); }
  }

  lemma {:induction false} AskedLengths(adapter: Adapter, requests: seq<Request>)
    requires Asked(adapter, requests).Some?
    ensures |Asked(adapter, requests).value| == |requests|
  {
    if requests != [] { AskedLengths(adapter, requests[1..]); }
  }

  /** The ids whose committed answers differ from the adapter's, or a failure. */
  function CheckRun(adapter: Adapter, cases: seq<Case>): Option<seq<string>> {
    var requests :- BatchRequests(cases, map[]);
    var responses :- Asked(adapter, requests);
    BatchLengths(cases, map[]);
    AskedLengths(adapter, requests);
    Some(Mismatches(cases, responses))
  }

  method RunAdapter(process: Process, requests: seq<Request>) returns (r: Option<seq<Json>>)
    ensures r == Asked(Checked(process), requests)
  {
    ghost var adapter := Checked(process);
    var responses: seq<Json> := [];
    for i := 0 to |requests|
      invariant Continues(Asked(adapter, requests), responses, Asked(adapter, requests[i..]))
    {
      assert requests[i..][1..] == requests[i + 1..];
      var response := ReadResponse(process, requests[i]);
      if response.None? { return None; }
      responses := responses + [Obj(response.value)];
    }
    assert responses == Asked(adapter, requests).value;
    return Some(responses);
  }

  method Compare(cases: seq<Case>, responses: seq<Json>) returns (mismatches: seq<string>)
    requires |cases| == |responses|
    ensures mismatches == Mismatches(cases, responses)
  {
    mismatches := [];
    for i := 0 to |cases|
      invariant Mismatches(cases, responses) == mismatches + Mismatches(cases[i..], responses[i..])
    {
      assert cases[i..][1..] == cases[i + 1..] && responses[i..][1..] == responses[i + 1..];
      ghost var before, rest := mismatches, Mismatches(cases[i + 1..], responses[i + 1..]);
      if !Alike(cases[i].expected, responses[i]) {
        mismatches := mismatches + [cases[i].id];
        Regrouped(before, [cases[i].id], rest);
      } else {
        assert before + [] == before;
        Regrouped(before, [], rest);
      }
    }
  }

  method CheckMode(process: Process, cases: seq<Case>) returns (r: Option<seq<string>>)
    ensures r == CheckRun(Checked(process), cases)
  {
    var requests := ResolvedCases(cases);
    if requests.None? { return None; }
    var responses := RunAdapter(process, requests.value);
    if responses.None? { return None; }
    BatchLengths(cases, map[]);
    AskedLengths(Checked(process), requests.value);
    var mismatches := Compare(cases, responses.value);
    return Some(mismatches);
  }

  /** The cases with new answers. */
  function Answered(cases: seq<Case>, responses: seq<Json>): (r: seq<Case>)
    requires |cases| == |responses|
    ensures |r| == |cases|
    ensures forall i :: 0 <= i < |r| ==> r[i] == cases[i].(expected := responses[i])
  {
    seq(|cases|, i requires 0 <= i < |cases| => cases[i].(expected := responses[i]))
  }

  lemma {:induction false} WriteLengths(adapter: Adapter, cases: seq<Case>, done: Answers)
    requires WriteRun(adapter, cases, done).Some?
    ensures var w := WriteRun(adapter, cases, done).value; |w.requests| == |w.responses| == |cases|
    decreases |cases|
  {
    if cases != [] {
      var response := adapter(RequestOf(cases[0], done).value).value;
      WriteLengths(adapter, cases[1..], done[cases[0].id := Obj(response)]);
    }
  }

  /** What was written, checked: the same requests, the same responses, nothing to report. */
  lemma {:induction false} WrittenChecks(adapter: Adapter, cases: seq<Case>, done: Answers)
    requires WriteRun(adapter, cases, done).Some?
    ensures var w := WriteRun(adapter, cases, done).value;
            && |w.responses| == |cases|
            && BatchRequests(Answered(cases, w.responses), done) == Some(w.requests)
            && Asked(adapter, w.requests) == Some(w.responses)
            && Mismatches(Answered(cases, w.responses), w.responses) == []
    decreases |cases|
  {
    WriteLengths(adapter, cases, done);
    if cases != [] {
      var w := WriteRun(adapter, cases, done).value;
      var response := adapter(RequestOf(cases[0], done).value).value;
      WrittenChecks(adapter, cases[1..], done[cases[0].id := Obj(response)]);
      var all := Answered(cases, w.responses);
      assert w.responses[1..] == WriteRun(adapter, cases[1..], done[cases[0].id := Obj(response)]).value.responses;
      assert w.requests[1..] == WriteRun(adapter, cases[1..], done[cases[0].id := Obj(response)]).value.requests;
      assert all[1..] == Answered(cases[1..], w.responses[1..]);
      assert RequestOf(all[0], done) == RequestOf(cases[0], done);
      AlikeItself(w.responses[0]);
    }
  }

  /** Check mode finds nothing to report in the answers that write mode stored. */
  lemma WriteThenCheck(adapter: Adapter, cases: seq<Case>)
    requires WriteRun(adapter, cases, map[]).Some?
    ensures |WriteRun(adapter, cases, map[]).value.responses| == |cases|
    ensures CheckRun(adapter, Answered(cases, WriteRun(adapter, cases, map[]).value.responses)) == Some([])
  {
    WrittenChecks(adapter, cases, map[]);
  }

  // --------------------------------------------------- responses spelled out

  /** The two kinds of answer that are stored. */
  ghost predicate Answer(m: map<string, Json>) {
    || (exists x :: m == map["ok" := Bool(true), "result" := x])
    || (exists code, message ::
          m == map["ok" := Bool(false), "error" := Obj(map["code" := Str(code), "message" := Str(message)])])
  }

  /** A response is accepted exactly if it is one of these with the id of its request, and that is taken away. */
  lemma AcceptedExactly(process: Process, request: Request, m: map<string, Json>)
    ensures Checked(process)(request) == Some(m) <==>
            Answer(m) && process(request) == Some(Obj(m["id" := Str(request.id)]))
  {
    var v := process(request);
    if Checked(process)(request) == Some(m) {
      var f := v.value.fields;
      ShapeIsAnswer(v.value, request.id);
      assert m == WithoutId(f) && f == m["id" := Str(request.id)];
    }
    if Answer(m) && v == Some(Obj(m["id" := Str(request.id)])) {
      AnswerHasShape(m, request.id);
      assert WithoutId(m["id" := Str(request.id)]) == m;
    }
  }

  lemma ShapeIsAnswer(v: Json, id: string)
    requires ResponseShape(v, id)
    ensures Answer(WithoutId(v.fields))
  {
    var m := WithoutId(v.fields);
    if v.fields["ok"].b {
      assert m == map["ok" := Bool(true), "result" := v.fields["result"]];
    } else {
      var e := v.fields["error"];
      var code, message := e.fields["code"].s, e.fields["message"].s;
      assert e.fields == map["code" := Str(code), "message" := Str(message)];
      assert m == map["ok" := Bool(false), "error" := Obj(map["code" := Str(code), "message" := Str(message)])];
    }
  }

  lemma AnswerHasShape(m: map<string, Json>, id: string)
    requires Answer(m)
    ensures ResponseShape(Obj(m["id" := Str(id)]), id)
  {
    var f := m["id" := Str(id)];
    if m["ok"].b {
      assert f.Keys == {"id", "ok", "result"};
    } else {
      assert f.Keys == {"id", "ok", "error"} && m["error"].fields.Keys == {"code", "message"};
    }
  }

  /** The case under the id has an answer that is not the response. */
  ghost predicate Differs(c: Case, response: Json, id: string) {
    c.id == id && Normal(c.expected) != Normal(response)
  }

  /** An id is reported exactly if a case under it has an answer that is not the response to it. */
  lemma {:induction false} MismatchesSay(cases: seq<Case>, responses: seq<Json>, id: string)
    requires |cases| == |responses|
    ensures id in Mismatches(cases, responses) <==>
            exists i :: 0 <= i < |cases| && Differs(cases[i], responses[i], id)
  {
    if cases != [] {
      var cs, rs := cases[1..], responses[1..];
      MismatchesSay(cs, rs, id);
      AlikeIsNormal(cases[0].expected, responses[0]);
      if i :| 0 <= i < |cs| && Differs(cs[i], rs[i], id) { assert Differs(cases[i + 1], responses[i + 1], id); }
      if i :| 0 < i < |cases| && Differs(cases[i], responses[i], id) { assert Differs(cs[i - 1], rs[i - 1], id); }
    }
  }
}
