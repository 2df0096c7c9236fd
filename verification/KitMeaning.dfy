/** What the kit's hex expressions mean: octets, computed from how an expression is built. */
module KitMeaning {
  import opened Bytes
  import opened Hex
  import opened JsonValues
  import opened KitExpressions
  import opened KitTheorems
  import opened Wrappers
  import Unicode

  /** An expression for octets; a reference names an earlier answer and a path into it. */
  datatype Expr =
    | Literal(octets: seq<Byte>)
    | Utf8(text: string)
    | Repeated(octet: Byte, count: nat)
    | Concat(parts: seq<Expr>)
    | Pad(prefix: Expr, length: nat, octet: Byte)
    | Xor(source: Expr, offset: nat, mask: Byte)
    | Reference(id: string, path: seq<Step>)

  // ---------------------------------------------------------------- writing

  function ByteHex(b: Byte): Json { Str(HexByte(b)) }

  /** The expression as a kit document writes it. */
  function JsonOf(e: Expr): Json
    decreases e, 0
  {
    match e
    case Literal(s) => Str(ToHex(s))
    case Utf8(text) => Obj(map["$utf8_hex" := Str(text)])
    case Repeated(b, n) => Obj(map["$repeat_hex" := Obj(map["byte_hex" := ByteHex(b), "bytes" := Int(n)])])
    case Concat(parts) => Obj(map["$concat_hex" := List(JsonOfAll(parts))])
    case Pad(prefix, n, b) =>
      Obj(map["$pad_hex" := Obj(map["prefix_hex" := JsonOf(prefix), "length" := Int(n), "byte_hex" := ByteHex(b)])])
    case Xor(source, i, b) =>
      Obj(map["$xor_hex" := Obj(map["value" := JsonOf(source), "offset" := Int(i), "byte_hex" := ByteHex(b)])])
    case Reference(id, path) =>
      Obj(map["$case" := Obj(map["id" := Str(id), "pointer" := Str(JsonValues.Written(path))])])
  }

  function JsonOfAll(es: seq<Expr>): seq<Json>
    decreases es, 1
  {
    if es == [] then [] else [JsonOf(es[0])] + JsonOfAll(es[1..])
  }

  // ---------------------------------------------------------------- meaning

  function Copies(b: Byte, n: nat): seq<Byte> { seq(n, _ => b) }

  predicate Affordable(s: seq<Byte>) { |s| <= 4194304 }

  /** What stands in the answers at the end of the path, if it is hex. */
  function Referred(id: string, path: seq<Step>, done: Answers): Option<seq<Byte>> {
    if id !in done then None
    else
      match At(done[id], path)
      case Some(Str(s)) => if IsHex(s) then Some(FromHex(s)) else None
      case _ => None
  }

  function PaddedTo(s: Option<seq<Byte>>, n: nat, b: Byte): Option<seq<Byte>> {
    if s.Some? && |s.value| <= n <= 4194304 then Some(s.value + Copies(b, n - |s.value|)) else None
  }

  function ChangedAt(s: Option<seq<Byte>>, i: nat, mask: Byte): Option<seq<Byte>> {
    if s.Some? && i < |s.value| then Some(s.value[i := XorByte(s.value[i], mask)]) else None
  }

  /** The octets of an expression over the answers so far; nothing if a bound is exceeded or an operand is missing. */
  function Value(e: Expr, done: Answers): Option<seq<Byte>>
    decreases e, 0
  {
    match e
    case Literal(s) => Some(s)
    case Utf8(text) => if Affordable(Unicode.Utf8Of(text)) then Some(Unicode.Utf8Of(text)) else None
    case Repeated(b, n) => if n <= 4194304 then Some(Copies(b, n)) else None
    case Concat(parts) =>
      var s :- Values(parts, done);
      if Affordable(s) then Some(s) else None
    case Pad(prefix, n, b) => PaddedTo(Value(prefix, done), n, b)
    case Xor(source, i, b) => ChangedAt(Value(source, done), i, b)
    case Reference(id, path) => Referred(id, path, done)
  }

  function Values(es: seq<Expr>, done: Answers): Option<seq<Byte>>
    decreases es, 1
  {
    if es == [] then Some([])
    else
      var s :- Value(es[0], done);
      var rest :- Values(es[1..], done);
      Some(s + rest)
  }

  /** No part of the expression is a reference. */
  predicate Closed(e: Expr)
    decreases e
  {
    match e
    case Concat(parts) => forall i :: 0 <= i < |parts| ==> Closed(parts[i])
    case Pad(prefix, _, _) => Closed(prefix)
    case Xor(source, _, _) => Closed(source)
    case Reference(_, _) => false
    case _ => true
  }

  /** The resolver gives hex for the octets if there are any, and nothing if a closed expression has none. */
  ghost predicate Meets(r: Option<Json>, s: Option<seq<Byte>>, closed: bool) {
    && (s.Some? ==> r == Some(Str(ToHex(s.value))))
    && (closed && s.None? ==> r.None?)
  }

  // ---------------------------------------------------------- one operator

  lemma ByteReads(b: Byte)
    ensures IsHex(HexByte(b)) && FromHex(HexByte(b)) == [b] && OneByte(ByteHex(b))
  {
    ToHexFront(b, []);
    assert [b] + [] == [b] && HexByte(b) + [] == HexByte(b);
    FromToHex([b]);
  }

  /** A value that is hex for some octets is the hex that is written for them. */
  lemma HexIsWritten(v: Json, s: seq<Byte>)
    requires HexFor(v, s)
    ensures v == Str(ToHex(s))
  {
    ToFromHex(v.s);
  }

  lemma RepeatMeets(b: Byte, n: nat, done: Answers)
    ensures Meets(ResolveValue(JsonOf(Repeated(b, n)), done), Value(Repeated(b, n), done), true)
  {
    var e := Obj(map["byte_hex" := ByteHex(b), "bytes" := Int(n)]);
    assert e.fields.Keys == {"byte_hex", "bytes"};
    ByteReads(b);
    OneField("$repeat_hex", e);
    assert ResolveValue(JsonOf(Repeated(b, n)), done) == RepeatOf(e);
    if n <= MAX_EXPANDED_HEX_BYTES {
      RepeatMeans(e);
      assert seq(n, _ => FromHex(HexByte(b))[0]) == Copies(b, n);
      HexIsWritten(RepeatOf(e).value, Copies(b, n));
    }
  }

  lemma Utf8Meets(text: string, done: Answers)
    ensures Meets(ResolveValue(JsonOf(Utf8(text)), done), Value(Utf8(text), done), true)
  {
    OneField("$utf8_hex", Str(text));
    assert ResolveValue(JsonOf(Utf8(text)), done) == Utf8Hex(Str(text));
  }

  lemma PadResolves(prefix: Expr, n: nat, b: Byte, done: Answers)
    ensures var p := ResolveValue(JsonOf(prefix), done);
            ResolveValue(JsonOf(Pad(prefix, n, b)), done) ==
            if p.Some? then PadOf(p.value, Int(n), ByteHex(b)) else None
  {
    PadFormOf(JsonOf(prefix), Int(n), ByteHex(b));
  }

  lemma PadFormOf(prefix: Json, length: Json, padHex: Json)
    ensures var e := Obj(map["prefix_hex" := prefix, "length" := length, "byte_hex" := padHex]);
            FormOf(Obj(map["$pad_hex" := e])) == PadForm(prefix, length, padHex)
  {
    var e := Obj(map["prefix_hex" := prefix, "length" := length, "byte_hex" := padHex]);
    assert e.fields.Keys == {"prefix_hex", "length", "byte_hex"};
    assert PadExpression(e) == PadForm(prefix, length, padHex);
    OneField("$pad_hex", e);
  }

  lemma PadHex(s: seq<Byte>, t: string, u: string, n: nat, b: Byte)
    requires t == ToHex(s) && (|s| <= n ==> u == ToHex(s + Copies(b, n - |s|)))
    ensures PadOf(Str(t), Int(n), ByteHex(b)) == if |s| <= n <= 4194304 then Some(Str(u)) else None
  {
    PadGiven(t, |s|, n, b);
    if |s| <= n { PaddedHex(s, n - |s|, b); }
  }

  lemma PaddedHex(s: seq<Byte>, n: nat, b: Byte)
    ensures ToHex(s) + Repeat(HexByte(b), n) == ToHex(s + Copies(b, n))
  {
    CopiesHex(b, n);
    ToHexConcat(s, Copies(b, n));
  }

  lemma PadGiven(t: string, m: nat, n: nat, b: Byte)
    requires IsHex(t) && |t| == 2 * m
    ensures PadOf(Str(t), Int(n), ByteHex(b)) ==
            if m <= n <= 4194304 then Some(Str(t + Repeat(HexByte(b), n - m))) else None
  {
    ByteReads(b);
    assert |t| / 2 == m;
  }

  lemma {:induction false} CopiesHex(b: Byte, n: nat)
    ensures ToHex(Copies(b, n)) == Repeat(HexByte(b), n)
  {
    if n > 0 {
      CopiesHex(b, n - 1);
      assert Copies(b, n) == [b] + Copies(b, n - 1);
      ToHexFront(b, Copies(b, n - 1));
    }
  }

  lemma PadMeets(prefix: Expr, n: nat, b: Byte, done: Answers)
    requires Meets(ResolveValue(JsonOf(prefix), done), Value(prefix, done), Closed(prefix))
    ensures Meets(ResolveValue(JsonOf(Pad(prefix, n, b)), done), Value(Pad(prefix, n, b), done), Closed(prefix))
  {
    PadResolves(prefix, n, b, done);
    PadJoins(ResolveValue(JsonOf(prefix), done), Value(prefix, done), n, b, Closed(prefix));
  }

  lemma PadJoins(p: Option<Json>, s: Option<seq<Byte>>, n: nat, b: Byte, closed: bool)
    requires Meets(p, s, closed)
    ensures Meets(if p.Some? then PadOf(p.value, Int(n), ByteHex(b)) else None, PaddedTo(s, n, b), closed)
  {
    if s.Some? {
      var t := s.value;
      PadHex(t, ToHex(t), if |t| <= n then ToHex(t + Copies(b, n - |t|)) else "", n, b);
    }
  }

  lemma XorResolves(source: Expr, i: nat, b: Byte, done: Answers)
    ensures var s := ResolveValue(JsonOf(source), done);
            ResolveValue(JsonOf(Xor(source, i, b)), done) ==
            if s.Some? then XorOf(s.value, Int(i), ByteHex(b)) else None
  {
    XorFormOf(JsonOf(source), Int(i), ByteHex(b));
  }

  lemma XorFormOf(source: Json, offset: Json, maskHex: Json)
    ensures var e := Obj(map["value" := source, "offset" := offset, "byte_hex" := maskHex]);
            FormOf(Obj(map["$xor_hex" := e])) == XorForm(source, offset, maskHex)
  {
    var e := Obj(map["value" := source, "offset" := offset, "byte_hex" := maskHex]);
    assert e.fields.Keys == {"value", "offset", "byte_hex"};
    assert XorExpression(e) == XorForm(source, offset, maskHex);
    OneField("$xor_hex", e);
  }

  lemma XorHex(s: seq<Byte>, i: nat, b: Byte)
    ensures XorOf(Str(ToHex(s)), Int(i), ByteHex(b)) ==
            if i < |s| then Some(Str(ToHex(s[i := XorByte(s[i], b)]))) else None
  {
    FromToHex(s);
    ByteReads(b);
  }

  lemma XorMeets(source: Expr, i: nat, b: Byte, done: Answers)
    requires Meets(ResolveValue(JsonOf(source), done), Value(source, done), Closed(source))
    ensures Meets(ResolveValue(JsonOf(Xor(source, i, b)), done), Value(Xor(source, i, b), done), Closed(source))
  {
    XorResolves(source, i, b, done);
    XorJoins(ResolveValue(JsonOf(source), done), Value(source, done), i, b, Closed(source));
  }

  lemma XorJoins(v: Option<Json>, s: Option<seq<Byte>>, i: nat, b: Byte, closed: bool)
    requires Meets(v, s, closed)
    ensures Meets(if v.Some? then XorOf(v.value, Int(i), ByteHex(b)) else None, ChangedAt(s, i, b), closed)
  {
    if s.Some? { XorHex(s.value, i, b); }
  }

  lemma CaseResolves(id: string, path: seq<Step>, done: Answers)
    ensures ResolveValue(JsonOf(Reference(id, path)), done) == CaseOf(id, JsonValues.Written(path), done)
  {
    CaseFormOf(id, JsonValues.Written(path));
  }

  lemma CaseFormOf(id: string, pointer: string)
    ensures FormOf(Obj(map["$case" := Obj(map["id" := Str(id), "pointer" := Str(pointer)])])) == CaseForm(id, pointer)
  {
    var e := Obj(map["id" := Str(id), "pointer" := Str(pointer)]);
    assert e.fields.Keys == {"id", "pointer"};
    assert CaseExpression(e) == CaseForm(id, pointer);
    OneField("$case", e);
  }

  /** A reference resolves to what stands at its path in the answer it names, and to nothing without that answer. */
  lemma ReferenceMeans(id: string, path: seq<Step>, done: Answers)
    ensures id !in done ==> ResolveValue(JsonOf(Reference(id, path)), done).None?
    ensures id in done && At(done[id], path).Some? ==>
              ResolveValue(JsonOf(Reference(id, path)), done) == At(done[id], path)
  {
    CaseResolves(id, path, done);
    if id in done && At(done[id], path).Some? { PointerFollowsPath(done[id], path, At(done[id], path).value); }
  }

  lemma ReferenceMeets(id: string, path: seq<Step>, done: Answers)
    ensures Meets(ResolveValue(JsonOf(Reference(id, path)), done), Value(Reference(id, path), done), false)
  {
    ReferenceMeans(id, path, done);
    if Referred(id, path, done).Some? { ToFromHex(At(done[id], path).value.s); }
  }

  // -------------------------------------------------------- concatenations

  /** The parts resolve to hex whose concatenation is hex for the octets, or fail if a closed part has none. */
  ghost predicate PartsMeet(es: seq<Expr>, done: Answers, closed: bool) {
    var rs, s := ResolveItems(JsonOfAll(es), done), Values(es, done);
    && (s.Some? ==> rs.Some? && Concatenated(rs.value) == Some(ToHex(s.value)))
    && (closed && s.None? ==> rs.None?)
  }

  lemma PartsStep(e: Expr, es: seq<Expr>, done: Answers, closed: bool)
    requires Meets(ResolveValue(JsonOf(e), done), Value(e, done), closed) && PartsMeet(es, done, closed)
    ensures PartsMeet([e] + es, done, closed)
  {
    var all := [e] + es;
    assert all[1..] == es && JsonOfAll(all) == [JsonOf(e)] + JsonOfAll(es);
    ItemsFront(JsonOf(e), JsonOfAll(es), done);
    if Values(all, done).Some? {
      var s, rest := Value(e, done).value, Values(es, done).value;
      ToHexConcat(s, rest);
      ConcatenatedFront(ToHex(s), ResolveItems(JsonOfAll(es), done).value);
    }
  }

  lemma ItemsFront(v: Json, items: seq<Json>, done: Answers)
    ensures var r, rs := ResolveValue(v, done), ResolveItems(items, done);
            ResolveItems([v] + items, done) == if r.Some? && rs.Some? then Some([r.value] + rs.value) else None
  {
    assert ([v] + items)[1..] == items;
  }

  lemma ConcatenatedFront(t: string, parts: seq<Json>)
    requires IsHex(t)
    ensures var c := Concatenated(parts);
            Concatenated([Str(t)] + parts) == if c.Some? then Some(t + c.value) else None
  {
    assert ([Str(t)] + parts)[1..] == parts;
  }

  lemma ConcatMeets(parts: seq<Expr>, done: Answers, closed: bool)
    requires PartsMeet(parts, done, closed)
    ensures Meets(ResolveValue(JsonOf(Concat(parts)), done), Value(Concat(parts), done), closed)
  {
    OneField("$concat_hex", List(JsonOfAll(parts)));
    assert FormOf(JsonOf(Concat(parts))) == ConcatForm(JsonOfAll(parts));
  }

  lemma {:induction false} PartsMean(es: seq<Expr>, done: Answers, closed: bool)
    requires closed ==> forall i :: 0 <= i < |es| ==> Closed(es[i])
    ensures PartsMeet(es, done, closed)
    decreases es, 1
  {
    if es != [] {
      ExpressionMeans(es[0], done);
      PartsMean(es[1..], done, closed);
      PartsStep(es[0], es[1..], done, closed);
      assert es == [es[0]] + es[1..];
    }
  }

  /**
   Every expression that has octets resolves to hex for exactly those; and every
   expression without references that has none is refused.
   */
  lemma {:induction false} ExpressionMeans(e: Expr, done: Answers)
    ensures Meets(ResolveValue(JsonOf(e), done), Value(e, done), Closed(e))
    decreases e, 0
  {
    match e
    case Literal(s) =>
    case Utf8(text) => Utf8Meets(text, done);
    case Repeated(b, n) => RepeatMeets(b, n, done);
    case Concat(parts) =>
      PartsMean(parts, done, Closed(e));
      ConcatMeets(parts, done, Closed(e));
    case Pad(prefix, n, b) =>
      ExpressionMeans(prefix, done);
      PadMeets(prefix, n, b, done);
    case Xor(source, i, b) =>
      ExpressionMeans(source, done);
      XorMeets(source, i, b, done);
    case Reference(id, path) => ReferenceMeets(id, path, done);
  }
}
