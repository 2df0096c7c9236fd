/** What resolving a kit expression preserves, and the algebra of its hex operators. */
module KitTheorems {
  import opened Bytes
  import opened Hex
  import opened JsonValues
  import opened KitExpressions
  import opened Strings
  import opened Wrappers
  import Unicode

  // --------------------------------------------------- more answers to hand

  ghost predicate Extends(d: Answers, e: Answers) {
    forall id :: id in d ==> id in e && e[id] == d[id]
  }

  lemma {:induction false} ItemsMonotone(items: seq<Json>, d: Answers, e: Answers)
    requires Extends(d, e) && ResolveItems(items, d).Some?
    ensures ResolveItems(items, e) == ResolveItems(items, d)
    decreases items, 0
  {
    if items != [] {
      ResolveMonotone(items[0], d, e);
      ItemsMonotone(items[1..], d, e);
    }
  }

  /** An expression that resolves keeps its value when answers are added. */
  lemma {:induction false} ResolveMonotone(v: Json, d: Answers, e: Answers)
    requires Extends(d, e) && ResolveValue(v, d).Some?
    ensures ResolveValue(v, e) == ResolveValue(v, d)
    decreases v, 1
  {
    match FormOf(v)
    case Items(items) => ItemsMonotone(items, d, e);
    case ConcatForm(parts) => ItemsMonotone(parts, d, e);
    case PadForm(prefix, _, _) => ResolveMonotone(prefix, d, e);
    case XorForm(source, _, _) => ResolveMonotone(source, d, e);
    case Fields(m) =>
      forall k | k in m ensures ResolveValue(m[k], e) == ResolveValue(m[k], d) {
        ResolveMonotone(m[k], d, e);
      }
      assert ResolveValue(v, e).Some? && ResolveValue(v, e).value.fields == ResolveValue(v, d).value.fields;
    case _ =>
  }

  // ------------------------------------------------ values without operators

  /** No object in the value is an expression. */
  predicate OpFree(v: Json)
    decreases v
  {
    match v
    case List(items) => forall i :: 0 <= i < |items| ==> OpFree(items[i])
    case Obj(m) => !IsOperator(m) && forall k :: k in m ==> OpFree(m[k])
    case _ => true
  }

  lemma OperatorForms(m: map<string, Json>)
    ensures FormOf(Obj(m)).Fields? <==> !IsOperator(m)
    ensures FormOf(Obj(m)).Fields? ==> FormOf(Obj(m)).fields == m
  {
    assert OPERATORS[0] == "$utf8_hex" && OPERATORS[1] == "$repeat_hex" && OPERATORS[2] == "$concat_hex";
    assert OPERATORS[3] == "$pad_hex" && OPERATORS[4] == "$xor_hex" && OPERATORS[5] == "$case";
  }

  /** Being an expression depends on the keys alone. */
  lemma SameKeys(m: map<string, Json>, n: map<string, Json>)
    requires m.Keys == n.Keys
    ensures IsOperator(m) == IsOperator(n)
  {
  }

  lemma {:induction false} DescendOpFree(v: Json, raw: seq<string>)
    requires OpFree(v) && Descend(v, raw).Some?
    ensures OpFree(Descend(v, raw).value)
    decreases |raw|
  {
    if raw != [] { DescendOpFree(Child(v, Unescape(raw[0])).value, raw[1..]); }
  }

  ghost predicate AnswersOpFree(done: Answers) {
    forall id :: id in done ==> OpFree(done[id])
  }

  lemma {:induction false} ItemsOpFree(items: seq<Json>, done: Answers)
    requires AnswersOpFree(done) && ResolveItems(items, done).Some?
    ensures OpFree(List(ResolveItems(items, done).value))
    decreases items, 0
  {
    if items != [] {
      ResolveOpFree(items[0], done);
      ItemsOpFree(items[1..], done);
    }
  }

  lemma CaseOpFree(id: string, pointer: string, done: Answers)
    requires AnswersOpFree(done) && CaseOf(id, pointer, done).Some?
    ensures OpFree(CaseOf(id, pointer, done).value)
  {
    if pointer != [] { DescendOpFree(done[id], Split(pointer[1..], '/')); }
  }

  lemma {:induction false} RepeatOpFree(items: seq<Json>, n: nat)
    requires forall i :: 0 <= i < |items| ==> items[i].Str?
    ensures forall i :: 0 <= i < |Repeat(items, n)| ==> Repeat(items, n)[i].Str?
  {
    if n > 0 { RepeatOpFree(items, n - 1); }
  }

  /** Over answers without expressions, every resolved value is without expressions. */
  lemma {:induction false} ResolveOpFree(v: Json, done: Answers)
    requires AnswersOpFree(done) && ResolveValue(v, done).Some?
    ensures OpFree(ResolveValue(v, done).value)
    decreases v, 1
  {
    match FormOf(v)
    case Items(items) => ItemsOpFree(items, done);
    case RepeatForm(e) =>
      if e.fields["byte_hex"].List? { RepeatOpFree(e.fields["byte_hex"].items, e.fields["bytes"].i); }
    case CaseForm(id, pointer) => CaseOpFree(id, pointer, done);
    case Fields(m) => FieldsOpFree(v, m, done);
    case _ =>
  }

  lemma {:induction false} FieldsOpFree(v: Json, m: map<string, Json>, done: Answers)
    requires AnswersOpFree(done) && ResolveValue(v, done).Some? && FormOf(v) == Fields(m)
    ensures OpFree(ResolveValue(v, done).value)
    decreases v, 0
  {
    var r := ResolveValue(v, done).value.fields;
    OperatorForms(v.fields);
    assert r.Keys == m.Keys;
    SameKeys(m, r);
    forall k | k in m ensures OpFree(r[k]) {
      ResolveOpFree(m[k], done);
    }
  }

  lemma {:induction false} ItemsIdentity(items: seq<Json>, done: Answers)
    requires OpFree(List(items))
    ensures ResolveItems(items, done) == Some(items)
    decreases items, 0
  {
    if items != [] {
      assert OpFree(items[0]) && OpFree(List(items[1..]));
      ResolveIdentity(items[0], done);
      ItemsIdentity(items[1..], done);
      assert items == [items[0]] + items[1..];
    }
  }

  /** A value without expressions resolves to itself, whatever the answers. */
  lemma {:induction false} ResolveIdentity(v: Json, done: Answers)
    requires OpFree(v)
    ensures ResolveValue(v, done) == Some(v)
    decreases v, 1
  {
    match v
    case List(items) => ItemsIdentity(items, done);
    case Obj(m) =>
      OperatorForms(m);
      forall k | k in m ensures ResolveValue(m[k], done) == Some(m[k]) {
        ResolveIdentity(m[k], done);
      }
      assert ResolveValue(v, done).Some? && ResolveValue(v, done).value.fields == m;
    case _ =>
  }

  /** Resolving what has been resolved changes nothing. */
  lemma ResolveTwice(v: Json, done: Answers, later: Answers)
    requires AnswersOpFree(done) && ResolveValue(v, done).Some?
    ensures ResolveValue(ResolveValue(v, done).value, later) == ResolveValue(v, done)
  {
    ResolveOpFree(v, done);
    ResolveIdentity(ResolveValue(v, done).value, later);
  }

  // ------------------------------------------------------------ hex algebra

  /** A string of canonical hex for the given octets. */
  predicate HexFor(v: Json, s: seq<Byte>) { v.Str? && IsHex(v.s) && FromHex(v.s) == s }

  lemma Utf8HexMeans(text: Json)
    requires Utf8Hex(text).Some?
    ensures HexFor(Utf8Hex(text).value, Unicode.Utf8Of(text.s)) && |Unicode.Utf8Of(text.s)| <= MAX_EXPANDED_HEX_BYTES
  {
    FromToHex(Unicode.Utf8Of(text.s));
  }

  /** A repeated byte is hex for that many copies exactly when the byte was given as a string. */
  lemma RepeatMeans(e: Json)
    requires RepeatOf(e).Some?
    ensures var b, n := e.fields["byte_hex"], e.fields["bytes"].i;
            && n <= MAX_EXPANDED_HEX_BYTES
            && (RepeatOf(e).value.Str? <==> b.Str?)
            && (b.Str? ==> HexFor(RepeatOf(e).value, seq(n, _ => FromHex(b.s)[0])))
  {
    if e.fields["byte_hex"].Str? { RepeatHex(e.fields["byte_hex"].s, e.fields["bytes"].i); }
  }

  /** A list in place of the byte passes the check and comes out as a list. */
  lemma RepeatOfList()
    ensures var e := Obj(map["byte_hex" := List([Str("a"), Str("b")]), "bytes" := Int(1)]);
            RepeatOf(e) == Some(List([Str("a"), Str("b")]))
  {
    var pair := [Str("a"), Str("b")];
    var e := Obj(map["byte_hex" := List(pair), "bytes" := Int(1)]);
    assert "0123456789abcdef"[10..11] == "a" && "0123456789abcdef"[11..12] == "b";
    assert WithinDigits("a") && WithinDigits("b");
    assert e.fields.Keys == {"byte_hex", "bytes"};
    assert Repeat(pair, 1) == pair + Repeat(pair, 0) == pair;
  }

  function Octets(parts: seq<Json>): seq<Byte>
    requires forall i :: 0 <= i < |parts| ==> parts[i].Str? && IsHex(parts[i].s)
  {
    if parts == [] then [] else FromHex(parts[0].s) + Octets(parts[1..])
  }

  lemma {:induction false} ConcatenatedMeans(parts: seq<Json>)
    requires Concatenated(parts).Some?
    ensures forall i :: 0 <= i < |parts| ==> parts[i].Str? && IsHex(parts[i].s)
    ensures IsHex(Concatenated(parts).value) && FromHex(Concatenated(parts).value) == Octets(parts)
  {
    if parts != [] {
      ConcatenatedMeans(parts[1..]);
      FromHexConcat(parts[0].s, Concatenated(parts[1..]).value);
    }
  }

  lemma ConcatMeans(parts: seq<Json>)
    requires ConcatOf(parts).Some?
    ensures forall i :: 0 <= i < |parts| ==> parts[i].Str? && IsHex(parts[i].s)
    ensures HexFor(ConcatOf(parts).value, Octets(parts)) && |Octets(parts)| <= MAX_EXPANDED_HEX_BYTES
  {
    ConcatenatedMeans(parts);
  }

  /** Padding keeps its prefix and reaches exactly the length asked for. */
  lemma PadMeans(prefix: Json, length: Json, padHex: Json)
    requires PadOf(prefix, length, padHex).Some?
    ensures var p := FromHex(prefix.s);
            && |p| <= length.i <= MAX_EXPANDED_HEX_BYTES
            && HexFor(PadOf(prefix, length, padHex).value, p + seq(length.i - |p|, _ => FromHex(padHex.s)[0]))
  {
    var n := length.i - |prefix.s| / 2;
    RepeatHex(padHex.s, n);
    FromHexConcat(prefix.s, Repeat(padHex.s, n));
  }

  /** Exclusive or changes the one octet it names and no other. */
  lemma XorMeans(source: Json, offset: Json, maskHex: Json)
    requires XorOf(source, offset, maskHex).Some?
    ensures var raw := FromHex(source.s);
            && 0 <= offset.i < |raw|
            && HexFor(XorOf(source, offset, maskHex).value,
                      raw[offset.i := XorByte(raw[offset.i], FromHex(maskHex.s)[0])])
  {
    var raw := FromHex(source.s);
    FromToHex(raw[offset.i := XorByte(raw[offset.i], FromHex(maskHex.s)[0])]);
  }

  /** In the changed octet exactly the bits of the mask are turned over. */
  lemma XorTurnsBits(a: Byte, mask: Byte, i: nat)
    requires i < 8
    ensures Bit(XorByte(a, mask), i) == 1 <==> Bit(a, i) != Bit(mask, i)
  {
    XorBitAt(a, mask, 8, i);
  }

  /** The same exclusive or a second time brings the source back. */
  lemma XorOfTwice(source: Json, offset: Json, maskHex: Json)
    requires XorOf(source, offset, maskHex).Some?
    ensures XorOf(XorOf(source, offset, maskHex).value, offset, maskHex) == Some(source)
  {
    var raw, m := FromHex(source.s), FromHex(maskHex.s)[0];
    var once := raw[offset.i := XorByte(raw[offset.i], m)];
    XorMeans(source, offset, maskHex);
    XorByteTwice(raw[offset.i], m);
    assert once[offset.i := XorByte(once[offset.i], m)] == raw;
    ToFromHex(source.s);
  }

  // ----------------------------------------------------------- what is refused

  predicate HexText(v: Json) { v.Str? && IsHex(v.s) }
  predicate HexOctet(v: Json) { v.Str? && IsHex(v.s) && |v.s| == 2 }

  /** Only an object of exactly the right fields is taken for a padding. */
  lemma PadShape(e: Json, done: Answers)
    requires ResolveValue(Obj(map["$pad_hex" := e]), done).Some?
    ensures e.Obj? && e.fields.Keys == {"prefix_hex", "length", "byte_hex"}
  {
    OneField("$pad_hex", e);
    assert FormOf(Obj(map["$pad_hex" := e])) == PadExpression(e);
  }

  lemma XorShape(e: Json, done: Answers)
    requires ResolveValue(Obj(map["$xor_hex" := e]), done).Some?
    ensures e.Obj? && e.fields.Keys == {"value", "offset", "byte_hex"}
  {
    OneField("$xor_hex", e);
    assert FormOf(Obj(map["$xor_hex" := e])) == XorExpression(e);
  }

  /** Only an object of exactly two texts, the id of an answer and a pointer, is taken for a reference. */
  lemma CaseShape(e: Json, done: Answers)
    requires ResolveValue(Obj(map["$case" := e]), done).Some?
    ensures e.Obj? && e.fields.Keys == {"id", "pointer"} && e.fields["id"].Str? && e.fields["pointer"].Str?
    ensures e.fields["id"].s in done
  {
    OneField("$case", e);
    assert FormOf(Obj(map["$case" := e])) == CaseExpression(e);
  }

  lemma RepeatShape(e: Json, done: Answers)
    requires ResolveValue(Obj(map["$repeat_hex" := e]), done).Some?
    ensures e.Obj? && e.fields.Keys == {"byte_hex", "bytes"} && e.fields["bytes"].Int? && e.fields["bytes"].i >= 0
  {
    OneField("$repeat_hex", e);
    assert FormOf(Obj(map["$repeat_hex" := e])) == RepeatForm(e);
  }

  /** The only key of an object with one field. */
  lemma OneField(key: string, v: Json)
    ensures forall k :: Only(map[key := v], k) <==> k == key
  {
    assert |map[key := v]| == 1;
  }

  /** Operands that are no hex, octets that are more than one, and amounts that are no integers are refused. */
  lemma OperandsRequired(source: Json, amount: Json, octet: Json)
    ensures PadOf(source, amount, octet).Some? ==> HexText(source) && amount.Int? && HexOctet(octet)
    ensures XorOf(source, amount, octet).Some? ==> HexText(source) && amount.Int? && HexOctet(octet)
  {
  }
}
