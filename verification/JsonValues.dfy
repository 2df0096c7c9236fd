/** Decoded JSON values, and the pointers of RFC 6901 into them. */
module JsonValues {
  import opened Strings
  import opened Wrappers

  /** A number that is not written as an integer is kept as its value. */
  datatype Json =
    | Null
    | Bool(b: bool)
    | Int(i: int)
    | Float(r: real)
    | Str(s: string)
    | List(items: seq<Json>)
    | Obj(fields: map<string, Json>)

  // -------------------------------------------------------------- equality

  /** The number that Python compares a value as: truth values are numbers there. */
  function Amount(v: Json): Option<real> {
    match v
    case Bool(b) => Some(if b then 1.0 else 0.0)
    case Int(i) => Some(i as real)
    case Float(r) => Some(r)
    case _ => None
  }

  /** Python's equality of decoded values. */
  predicate Alike(a: Json, b: Json)
    decreases a
  {
    match (a, b)
    case (Null, Null) => true
    case (Str(s), Str(t)) => s == t
    case (List(xs), List(ys)) => |xs| == |ys| && forall i :: 0 <= i < |xs| ==> Alike(xs[i], ys[i])
    case (Obj(m), Obj(n)) => m.Keys == n.Keys && forall k :: k in m ==> Alike(m[k], n[k])
    case _ => Amount(a).Some? && Amount(a) == Amount(b)
  }

  lemma {:induction false} AlikeItself(a: Json)
    ensures Alike(a, a)
  {
    match a
    case List(xs) => forall i | 0 <= i < |xs| ensures Alike(xs[i], xs[i]) { AlikeItself(xs[i]); }
    case Obj(m) => forall k | k in m ensures Alike(m[k], m[k]) { AlikeItself(m[k]); }
    case _ =>
  }

  /** The value with every truth value and every number written as its amount. */
  function Normal(a: Json): Json
    decreases a
  {
    match a
    case List(xs) => List(seq(|xs|, i requires 0 <= i < |xs| => Normal(xs[i])))
    case Obj(m) => Obj(map k | k in m :: Normal(m[k]))
    case _ => if Amount(a).Some? then Float(Amount(a).value) else a
  }

  /** Python equates exactly the values that are the same once written so. */
  lemma {:induction false} AlikeIsNormal(a: Json, b: Json)
    ensures Alike(a, b) <==> Normal(a) == Normal(b)
    decreases a
  {
    match (a, b)
    case (List(xs), List(ys)) =>
      var ns, ms := Normal(a).items, Normal(b).items;
      forall i | 0 <= i < |xs| && i < |ys| ensures Alike(xs[i], ys[i]) <==> ns[i] == ms[i] {
        AlikeIsNormal(xs[i], ys[i]);
      }
    case (Obj(m), Obj(n)) =>
      var f, g := Normal(a).fields, Normal(b).fields;
      assert f.Keys == m.Keys && g.Keys == n.Keys;
      forall k | k in m && k in n ensures Alike(m[k], n[k]) <==> f[k] == g[k] { AlikeIsNormal(m[k], n[k]); }
      if Normal(a) == Normal(b) { assert f == g; }
      if Alike(a, b) { assert f == g; }
    case _ =>
  }

  /** No truth value in it, and no number with a whole value. */
  predicate Exactly(a: Json)
    decreases a
  {
    match a
    case Bool(_) => false
    case Int(_) => false
    case Float(r) => r != r.Floor as real
    case List(xs) => forall i :: 0 <= i < |xs| ==> Exactly(xs[i])
    case Obj(m) => forall k :: k in m ==> Exactly(m[k])
    case _ => true
  }

  lemma {:induction false} ExactlyPins(a: Json, b: Json)
    requires Exactly(a) && Alike(a, b)
    ensures a == b
    decreases a
  {
    match (a, b)
    case (List(xs), List(ys)) => forall i | 0 <= i < |xs| ensures xs[i] == ys[i] { ExactlyPins(xs[i], ys[i]); }
    case (Obj(m), Obj(n)) => forall k | k in m ensures m[k] == n[k] { ExactlyPins(m[k], n[k]); }
    case _ =>
  }

  /** A different value that Python takes for the same. */
  lemma {:induction false} AnotherAlike(a: Json) returns (b: Json)
    requires !Exactly(a)
    ensures Alike(a, b) && a != b
    decreases a
  {
    match a
    case Bool(t) => b := Int(if t then 1 else 0);
    case Int(i) => b := Float(i as real);
    case Float(r) => b := Int(r.Floor);
    case List(xs) =>
      var i :| 0 <= i < |xs| && !Exactly(xs[i]);
      var y := AnotherAlike(xs[i]);
      b := List(xs[i := y]);
      forall j | 0 <= j < |xs| ensures Alike(xs[j], xs[i := y][j]) { AlikeItself(xs[j]); }
      assert b.items[i] == y;
    case Obj(m) =>
      var k :| k in m && !Exactly(m[k]);
      var y := AnotherAlike(m[k]);
      b := Obj(m[k := y]);
      forall j | j in m ensures Alike(m[j], m[k := y][j]) { AlikeItself(m[j]); }
      assert m.Keys == m[k := y].Keys && b.fields[k] == y;
  }

  /** Python's equality pins a value if and only if it holds no truth value and no number with a whole value. */
  lemma AlikePins(a: Json)
    ensures (forall b :: Alike(a, b) ==> a == b) <==> Exactly(a)
  {
    if Exactly(a) {
      forall b | Alike(a, b) ensures a == b { ExactlyPins(a, b); }
    } else {
      var other := AnotherAlike(a);
      assert Alike(a, other) && a != other;
    }
  }

  // --------------------------------------------------------------- tokens

  /** Section 3 of RFC 6901: `~` is written `~0` and `/` is written `~1`. */
  function Escape(t: string): string {
    if t == [] then []
    else if t[0] == '~' then ['~', '0'] + Escape(t[1..])
    else if t[0] == '/' then ['~', '1'] + Escape(t[1..])
    else [t[0]] + Escape(t[1..])
  }

  /** Replaces every `~d`, from the left, by `c`. */
  function Replace(t: string, d: char, c: char): string {
    if |t| < 2 then t
    else if t[0] == '~' && t[1] == d then [c] + Replace(t[2..], d, c)
    else [t[0]] + Replace(t[1..], d, c)
  }

  function Unescape(t: string): string { Replace(Replace(t, '1', '/'), '0', '~') }

  /** What `Escape` gives once the slashes are back: only the tildes are still escaped. */
  function HalfEscaped(t: string): string {
    if t == [] then []
    else if t[0] == '~' then ['~', '0'] + HalfEscaped(t[1..])
    else [t[0]] + HalfEscaped(t[1..])
  }

  lemma {:induction false} SlashesBack(t: string)
    ensures Replace(Escape(t), '1', '/') == HalfEscaped(t)
  {
    if t != [] {
      SlashesBack(t[1..]);
      var e, rest := Escape(t), Escape(t[1..]);
      if t[0] == '~' {
        assert e[1..] == ['0'] + rest && e[2..] == rest;
        assert e[1..][1..] == rest;
        assert Replace(e, '1', '/') == ['~'] + Replace(e[1..], '1', '/');
      } else if t[0] == '/' {
        assert e[2..] == rest;
      } else {
        assert e[1..] == rest;
      }
    }
  }

  lemma {:induction false} TildesBack(t: string)
    ensures Replace(HalfEscaped(t), '0', '~') == t
  {
    if t != [] {
      TildesBack(t[1..]);
      var e, rest := HalfEscaped(t), HalfEscaped(t[1..]);
      if t[0] == '~' {
        assert e[2..] == rest;
      } else {
        assert e[1..] == rest;
      }
      assert t == [t[0]] + t[1..];
    }
  }

  lemma UnescapeEscape(t: string)
    ensures Unescape(Escape(t)) == t
  {
    SlashesBack(t);
    TildesBack(t);
  }

  lemma {:induction false} EscapeHasNoSlash(t: string)
    ensures '/' !in Escape(t)
  {
    if t != [] { EscapeHasNoSlash(t[1..]); }
  }

  // ------------------------------------------------------------- pointers

  /** One step down, by the text of one unescaped part of a pointer. */
  function Child(v: Json, part: string): Option<Json> {
    match v
    case Obj(fields) => if part in fields then Some(fields[part]) else None
    case List(items) =>
      if part != [] && AllDigits(part) && Number(part) < |items| then Some(items[Number(part)]) else None
    case _ => None
  }

  function Descend(v: Json, raw: seq<string>): Option<Json>
    decreases |raw|
  {
    if raw == [] then Some(v)
    else
      var w :- Child(v, Unescape(raw[0]));
      Descend(w, raw[1..])
  }

  lemma DescendNext(v: Json, raw: seq<string>, i: nat)
    requires i < |raw|
    ensures var w := Child(v, Unescape(raw[i]));
            Descend(v, raw[i..]) == if w.Some? then Descend(w.value, raw[i + 1..]) else None
  {
    assert raw[i..][0] == raw[i] && raw[i..][1..] == raw[i + 1..];
  }

  function PointerTo(v: Json, pointer: string): Option<Json> {
    if pointer == [] then Some(v)
    else if pointer[0] != '/' then None
    else Descend(v, Split(pointer[1..], '/'))
  }

  method ChildAt(current: Json, part: string) returns (r: Option<Json>)
    ensures r == Child(current, part)
  {
    if current.Obj? {
      if part !in current.fields { return None; }
      return Some(current.fields[part]);
    } else if current.List? {
      if part == [] || !AllDigits(part) { return None; }
      var index := Number(part);
      if index >= |current.items| { return None; }
      return Some(current.items[index]);
    }
    return None;
  }

  method JsonPointer(value: Json, pointer: string) returns (r: Option<Json>)
    ensures r == PointerTo(value, pointer)
  {
    if pointer == "" { return Some(value); }
    if pointer[0] != '/' { return None; }
    var parts := Split(pointer[1..], '/');
    var current := value;
    for i := 0 to |parts|
      invariant Descend(value, parts) == Descend(current, parts[i..])
    {
      DescendNext(current, parts, i);
      var next := ChildAt(current, Unescape(parts[i]));
      if next.None? { return None; }
      current := next.value;
    }
    return Some(current);
  }

  /** A path into a value, and what stands at its end. */
  datatype Step = Key(name: string) | Index(i: nat)

  function At(v: Json, path: seq<Step>): Option<Json>
    decreases |path|
  {
    if path == [] then Some(v)
    else
      match (v, path[0])
      case (Obj(fields), Key(name)) => if name in fields then At(fields[name], path[1..]) else None
      case (List(items), Index(i)) => if i < |items| then At(items[i], path[1..]) else None
      case _ => None
  }

  function TextOf(s: Step): string {
    match s
    case Key(name) => name
    case Index(i) => Decimal(i)
  }

  /** The pointer that RFC 6901 writes for a path. */
  function Written(path: seq<Step>): string {
    if path == [] then [] else ['/'] + (Escape(TextOf(path[0])) + Written(path[1..]))
  }

  function Parts(path: seq<Step>): seq<string> {
    if path == [] then [] else [Escape(TextOf(path[0]))] + Parts(path[1..])
  }

  lemma {:induction false} WrittenSplits(path: seq<Step>)
    requires path != []
    ensures Written(path)[0] == '/' && Split(Written(path)[1..], '/') == Parts(path)
    decreases |path|
  {
    var head, rest := Escape(TextOf(path[0])), path[1..];
    EscapeHasNoSlash(TextOf(path[0]));
    var tail := Written(rest);
    assert Written(path)[1..] == head + tail;
    if rest == [] {
      assert head + tail == head;
      SplitAt(head, [], '/');
    } else {
      WrittenSplits(rest);
      HeadAndTail(head, tail);
      SplitAt(head, tail[1..], '/');
    }
  }

  lemma HeadAndTail(head: string, tail: string)
    requires tail != []
    ensures head + tail == head + [tail[0]] + tail[1..]
  {
  }

  lemma {:induction false} PartsDescend(v: Json, path: seq<Step>, r: Json)
    requires At(v, path) == Some(r)
    ensures Descend(v, Parts(path)) == Some(r)
    decreases |path|
  {
    if path != [] {
      UnescapeEscape(TextOf(path[0]));
      var w := if v.Obj? then v.fields[path[0].name] else v.items[path[0].i];
      if path[0].Index? { DecimalNumber(path[0].i); }
      assert Child(v, TextOf(path[0])) == Some(w);
      PartsDescend(w, path[1..], r);
      assert Parts(path)[1..] == Parts(path[1..]);
    }
  }

  /** The pointer written for a path leads to what stands at its end, whatever its keys contain. */
  lemma PointerFollowsPath(v: Json, path: seq<Step>, r: Json)
    requires At(v, path) == Some(r)
    ensures PointerTo(v, Written(path)) == Some(r)
  {
    if path != [] {
      WrittenSplits(path);
      PartsDescend(v, path, r);
    }
  }

  /** Whatever a pointer leads to stands at the end of some path. */
  lemma {:induction false} DescendHasPath(v: Json, raw: seq<string>, r: Json) returns (path: seq<Step>)
    requires Descend(v, raw) == Some(r)
    ensures At(v, path) == Some(r) && |path| == |raw|
    decreases |raw|
  {
    if raw == [] {
      path := [];
    } else {
      var part := Unescape(raw[0]);
      var w := Child(v, part).value;
      var tail := DescendHasPath(w, raw[1..], r);
      path := [if v.Obj? then Key(part) else Index(Number(part))] + tail;
      assert path[1..] == tail;
    }
  }

  // ------------------------------------------------------------ conformance

  /** Section 3 of RFC 6901: every `~` stands before a `0` or a `1`. */
  predicate WellEscaped(t: string) {
    forall i :: 0 <= i < |t| && t[i] == '~' ==> i + 1 < |t| && t[i + 1] in "01"
  }

  /** What a well-formed escape stands for. */
  function Meaning(t: string): string {
    if t == [] then []
    else if t[0] == '~' && |t| > 1 then [if t[1] == '0' then '~' else '/'] + Meaning(t[2..])
    else [t[0]] + Meaning(t[1..])
  }

  lemma {:induction false} EscapeMeaning(t: string)
    requires WellEscaped(t) && '/' !in t
    ensures Escape(Meaning(t)) == t
    decreases |t|
  {
    if t != [] {
      var k, m := if t[0] == '~' then 2 else 1, Meaning(t);
      var rest := t[k..];
      assert forall i :: 0 <= i < |rest| ==> rest[i] == t[i + k];
      EscapeMeaning(rest);
      assert m[1..] == Meaning(rest) && t == t[..k] + rest;
    }
  }

  lemma {:induction false} EscapeWellFormed(t: string)
    ensures WellEscaped(Escape(t))
  {
    if t != [] {
      EscapeWellFormed(t[1..]);
      var e, rest := Escape(t), Escape(t[1..]);
      var k := |e| - |rest|;
      assert forall i :: k <= i < |e| ==> e[i] == rest[i - k];
    }
  }

  /** A part without slashes is escaped as the RFC escapes it if and only if its escapes are well formed. */
  lemma EscapedAsWritten(t: string)
    requires '/' !in t
    ensures WellEscaped(t) <==> Escape(Unescape(t)) == t
  {
    if WellEscaped(t) {
      EscapeMeaning(t);
      UnescapeEscape(Meaning(t));
    }
    EscapeWellFormed(Unescape(t));
  }

  /** Section 4 of RFC 6901: an index has no zero in front. */
  predicate PlainIndex(part: string) { part == "0" || (part != [] && part[0] != '0') }

  /** Every escape of the parts is well formed, and every part taken as an index is a plain one. */
  predicate Conforms(v: Json, raw: seq<string>)
    requires Descend(v, raw).Some?
    decreases |raw|
  {
    raw == [] ||
    var part := Unescape(raw[0]);
    WellEscaped(raw[0]) && (v.List? ==> PlainIndex(part)) && Conforms(Child(v, part).value, raw[1..])
  }

  lemma {:induction false} ConformingPath(v: Json, raw: seq<string>) returns (path: seq<Step>)
    requires Descend(v, raw).Some? && Conforms(v, raw) && forall i :: 0 <= i < |raw| ==> '/' !in raw[i]
    ensures At(v, path) == Descend(v, raw) && Parts(path) == raw
    decreases |raw|
  {
    if raw == [] {
      path := [];
    } else {
      var part := Unescape(raw[0]);
      var tail := ConformingPath(Child(v, part).value, raw[1..]);
      var step := if v.Obj? then Key(part) else Index(Number(part));
      path := [step] + tail;
      EscapedAsWritten(raw[0]);
      if v.List? { NumberDecimal(part); }
      assert path[1..] == tail && raw == [raw[0]] + raw[1..];
    }
  }

  lemma {:induction false} PathConforms(v: Json, path: seq<Step>)
    requires At(v, path).Some?
    ensures Descend(v, Parts(path)) == At(v, path) && Conforms(v, Parts(path))
    decreases |path|
  {
    PartsDescend(v, path, At(v, path).value);
    if path != [] {
      var text := TextOf(path[0]);
      UnescapeEscape(text);
      EscapeWellFormed(text);
      var w := if v.Obj? then v.fields[path[0].name] else v.items[path[0].i];
      if path[0].Index? {
        DecimalNumber(path[0].i);
        DecimalFront(path[0].i);
      }
      PathConforms(w, path[1..]);
      assert Parts(path)[1..] == Parts(path[1..]);
    }
  }

  lemma {:induction false} WrittenJoins(path: seq<Step>)
    requires path != []
    ensures Written(path) == ['/'] + Join(Parts(path), '/')
    decreases |path|
  {
    var head, rest := Escape(TextOf(path[0])), path[1..];
    if rest == [] {
      assert head + [] == head;
    } else {
      WrittenJoins(rest);
      assert Parts(path)[1..] == Parts(rest);
      assert head + (['/'] + Join(Parts(rest), '/')) == head + ['/'] + Join(Parts(rest), '/');
    }
  }

  /** The pointer is the one that RFC 6901 writes for a path to what it leads to. */
  ghost predicate WrittenByRfc(v: Json, pointer: string) {
    exists path :: At(v, path) == PointerTo(v, pointer) && Written(path) == pointer
  }

  /**
   A pointer that is followed is one that RFC 6901 writes if and only if every
   escape in it is well formed and no index in it has a zero in front.
   */
  lemma PointerConforms(v: Json, pointer: string)
    requires PointerTo(v, pointer).Some?
    ensures WrittenByRfc(v, pointer) <==> pointer == [] || Conforms(v, Split(pointer[1..], '/'))
  {
    if pointer == [] {
      assert Written([]) == pointer && At(v, []) == PointerTo(v, pointer);
    } else {
      var raw := Split(pointer[1..], '/');
      SplitJoins(pointer[1..], '/');
      if Conforms(v, raw) {
        var path := ConformingPath(v, raw);
        WrittenJoins(path);
        assert Written(path) == pointer;
      }
      forall path | At(v, path) == PointerTo(v, pointer) && Written(path) == pointer ensures Conforms(v, raw) {
        WrittenSplits(path);
        PathConforms(v, path);
      }
    }
  }

  /** A `~` that escapes nothing is followed as itself. */
  lemma TildeAccepted(x: Json)
    ensures PointerTo(Obj(map["~" := x]), "/~") == Some(x)
    ensures !WrittenByRfc(Obj(map["~" := x]), "/~")
  {
    var v := Obj(map["~" := x]);
    assert "/~"[1..] == "~" && Split("~", '/') == ["~"] by { SplitAt("~", "", '/'); }
    assert Unescape("~") == "~";
    assert Descend(v, ["~"]) == Descend(x, []) by { assert ["~"][1..] == []; }
    assert !WellEscaped("~") by { assert "~"[0] == '~'; }
    PointerConforms(v, "/~");
  }

  /** Zeros in front of an index are followed all the same. */
  lemma LeadingZeroAccepted(x: Json)
    ensures PointerTo(List([x]), "/00") == Some(x)
    ensures !WrittenByRfc(List([x]), "/00")
  {
    assert Split("00", '/') == ["00"] by { SplitAt("00", "", '/'); }
    assert "/00"[1..] == "00";
    assert Replace("00", '1', '/') == "00" && Replace("00", '0', '~') == "00" by {
      assert "00"[1..] == "0";
    }
    assert Number("00") == 0 by { assert "00"[..1] == "0" && "0"[..0] == ""; }
    assert Child(List([x]), "00") == Some(x);
    assert Descend(List([x]), ["00"]) == Descend(x, []) by { assert ["00"][1..] == []; }
    assert !PlainIndex("00") by { assert "00"[0] == '0' && |"00"| != |"0"|; }
    PointerConforms(List([x]), "/00");
  }
}
