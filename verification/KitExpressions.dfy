/** The conformance kit's data expressions: compact hex, and references to earlier answers. */
module KitExpressions {
  import opened Hex
  import opened JsonValues
  import opened Wrappers
  import Unicode

  const MAX_EXPANDED_HEX_BYTES: nat := 4 * 1024 * 1024

  type Answers = map<string, Json>

  // ---------------------------------------------------------------- forms

  /** What a value is to the resolver, by its single key if it has one. */
  datatype Form =
    | Scalar
    | Items(items: seq<Json>)
    | Utf8Form(text: Json)
    | RepeatForm(expression: Json)
    | ConcatForm(parts: seq<Json>)
    | PadForm(prefix: Json, length: Json, padHex: Json)
    | XorForm(source: Json, offset: Json, maskHex: Json)
    | CaseForm(id: string, pointer: string)
    | Fields(fields: map<string, Json>)
    | Malformed

  predicate Only(m: map<string, Json>, key: string) { |m| == 1 && key in m }

  const OPERATORS: seq<string> := ["$utf8_hex", "$repeat_hex", "$concat_hex", "$pad_hex", "$xor_hex", "$case"]

  predicate IsOperator(m: map<string, Json>) {
    exists i :: 0 <= i < |OPERATORS| && Only(m, OPERATORS[i])
  }

  function Expression(m: map<string, Json>): Form {
    if Only(m, "$utf8_hex") then Utf8Form(m["$utf8_hex"])
    else if Only(m, "$repeat_hex") then RepeatForm(m["$repeat_hex"])
    else if Only(m, "$concat_hex") then ConcatExpression(m["$concat_hex"])
    else if Only(m, "$pad_hex") then PadExpression(m["$pad_hex"])
    else if Only(m, "$xor_hex") then XorExpression(m["$xor_hex"])
    else if Only(m, "$case") then CaseExpression(m["$case"])
    else Fields(m)
  }

  function ConcatExpression(e: Json): Form {
    if e.List? then ConcatForm(e.items) else Malformed
  }

  function PadExpression(e: Json): Form {
    if e.Obj? && e.fields.Keys == {"prefix_hex", "length", "byte_hex"}
    then PadForm(e.fields["prefix_hex"], e.fields["length"], e.fields["byte_hex"]) else Malformed
  }

  function XorExpression(e: Json): Form {
    if e.Obj? && e.fields.Keys == {"value", "offset", "byte_hex"}
    then XorForm(e.fields["value"], e.fields["offset"], e.fields["byte_hex"]) else Malformed
  }

  function CaseExpression(e: Json): Form {
    if e.Obj? && e.fields.Keys == {"id", "pointer"} && e.fields["id"].Str? && e.fields["pointer"].Str?
    then CaseForm(e.fields["id"].s, e.fields["pointer"].s) else Malformed
  }

  function FormOf(v: Json): Form {
    match v
    case List(items) => Items(items)
    case Obj(m) => Expression(m)
    case _ => Scalar
  }

  // ------------------------------------------------------------ operators

  function Utf8Hex(text: Json): Option<Json> {
    if text.Str? && |Unicode.Utf8Of(text.s)| <= MAX_EXPANDED_HEX_BYTES
    then Some(Str(ToHex(Unicode.Utf8Of(text.s)))) else None
  }

  /** The program looks for each element of what it is given within the sixteen digits. */
  predicate WithinDigits(t: string) {
    exists i, j :: 0 <= i <= j <= 16 && "0123456789abcdef"[i..j] == t
  }

  /** The hex check as it is written: it lets through a list of digit strings as well as a string. */
  predicate PassesHexCheck(v: Json) {
    match v
    case Str(s) => IsHex(s)
    case List(items) => |items| % 2 == 0 && forall i :: 0 <= i < |items| ==> items[i].Str? && WithinDigits(items[i].s)
    case _ => false
  }

  predicate OneByte(v: Json) {
    PassesHexCheck(v) && (if v.Str? then |v.s| == 2 else |v.items| == 2)
  }

  function RepeatOf(e: Json): Option<Json> {
    if !(e.Obj? && e.fields.Keys == {"byte_hex", "bytes"}) then None else
    var byteHex, count := e.fields["byte_hex"], e.fields["bytes"];
    if OneByte(byteHex) && count.Int? && 0 <= count.i <= MAX_EXPANDED_HEX_BYTES
    then Some(if byteHex.Str? then Str(Repeat(byteHex.s, count.i)) else List(Repeat(byteHex.items, count.i)))
    else None
  }

  function Concatenated(parts: seq<Json>): Option<string> {
    if parts == [] then Some("")
    else if parts[0].Str? && IsHex(parts[0].s) then
      var rest :- Concatenated(parts[1..]);
      Some(parts[0].s + rest)
    else None
  }

  function ConcatOf(parts: seq<Json>): Option<Json> {
    var s :- Concatenated(parts);
    if |s| / 2 <= MAX_EXPANDED_HEX_BYTES then Some(Str(s)) else None
  }

  function PadOf(prefix: Json, length: Json, padHex: Json): Option<Json> {
    if !(prefix.Str? && IsHex(prefix.s) && padHex.Str? && OneByte(padHex) && length.Int?) then None
    else if length.i < |prefix.s| / 2 || length.i > MAX_EXPANDED_HEX_BYTES then None
    else Some(Str(prefix.s + Repeat(padHex.s, length.i - |prefix.s| / 2)))
  }

  function XorOf(source: Json, offset: Json, maskHex: Json): Option<Json> {
    if !(source.Str? && IsHex(source.s) && maskHex.Str? && OneByte(maskHex) && offset.Int?) then None
    else
      var raw := FromHex(source.s);
      if offset.i < 0 || offset.i >= |raw| then None
      else Some(Str(ToHex(raw[offset.i := XorByte(raw[offset.i], FromHex(maskHex.s)[0])])))
  }

  function CaseOf(id: string, pointer: string, done: Answers): Option<Json> {
    if id in done then PointerTo(done[id], pointer) else None
  }

  // ------------------------------------------------------------- resolving

  function ResolveItems(items: seq<Json>, done: Answers): Option<seq<Json>>
    decreases items, 0
  {
    if items == [] then Some([])
    else
      var first :- ResolveValue(items[0], done);
      var rest :- ResolveItems(items[1..], done);
      Some([first] + rest)
  }

  function ResolveValue(v: Json, done: Answers): Option<Json>
    decreases v, 1
  {
    match FormOf(v)
    case Scalar => Some(v)
    case Items(items) =>
      var rs :- ResolveItems(items, done);
      Some(List(rs))
    case Utf8Form(text) => Utf8Hex(text)
    case RepeatForm(e) => RepeatOf(e)
    case ConcatForm(parts) =>
      var rs :- ResolveItems(parts, done);
      ConcatOf(rs)
    case PadForm(prefix, length, padHex) =>
      var p :- ResolveValue(prefix, done);
      PadOf(p, length, padHex)
    case XorForm(source, offset, maskHex) =>
      var s :- ResolveValue(source, done);
      XorOf(s, offset, maskHex)
    case CaseForm(id, pointer) => CaseOf(id, pointer, done)
    case Fields(m) =>
      if forall k :: k in m ==> ResolveValue(m[k], done).Some?
      then Some(Obj(map k | k in m :: ResolveValue(m[k], done).value)) else None
    case Malformed => None
  }
}
