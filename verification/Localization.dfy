/** Message templates, their signatures, and the renderers that must agree on them. */
module Localization {
  import opened Bytes
  import opened Sequences
  import opened Sorting
  import opened Strings
  import opened Wrappers

  const FSI: char := '\U{2068}' // first strong isolate
  const PDI: char := '\U{2069}' // pop directional isolate

  // -------------------------------------------------------------- scanning

  /** A placeholder: the digits of its argument position if it has one, its kind, and how it is written. */
  datatype Token = Token(digits: string, kind: char, raw: string)

  datatype Piece = Lit(c: char) | Tok(token: Token)

  predicate IsKind(c: char) { c == 's' || c == 'd' || c == '%' }

  /** The number of digits at the front. */
  function DigitRun(t: string): (n: nat)
    ensures n <= |t|
  {
    if t == [] || !IsDigit(t[0]) then 0 else 1 + DigitRun(t[1..])
  }

  /** The placeholder at the front of `t`, if one starts there. */
  function MatchToken(t: string): (r: Option<Token>)
    requires t != [] && t[0] == '%'
    ensures r.Some? ==> 2 <= |r.value.raw| <= |t|
  {
    if |t| >= 2 && IsKind(t[1]) then Some(Token("", t[1], t[..2]))
    else if |t| >= 2 && '1' <= t[1] <= '9' then
      var n := DigitRun(t[1..]);
      if n + 2 < |t| && t[n + 1] == '$' && IsKind(t[n + 2])
      then Some(Token(t[1..n + 1], t[n + 2], t[..n + 3])) else None
    else None
  }

  function Written(p: Piece): string {
    match p
    case Lit(c) => [c]
    case Tok(token) => token.raw
  }

  /** The first piece of a text: the placeholder that starts there, or one character. */
  function Front(t: string): (p: Piece)
    requires t != []
    ensures 1 <= |Written(p)| <= |t|
  {
    if t[0] == '%' && MatchToken(t).Some? then Tok(MatchToken(t).value) else Lit(t[0])
  }

  /** The text cut into placeholders and single characters. */
  function Scan(t: string): seq<Piece>
    decreases |t|
  {
    if t == [] then [] else [Front(t)] + Scan(t[|Written(Front(t))|..])
  }

  function Flatten(ps: seq<Piece>): string {
    if ps == [] then [] else Written(ps[0]) + Flatten(ps[1..])
  }

  lemma FrontWritten(t: string)
    requires t != []
    ensures t == Written(Front(t)) + t[|Written(Front(t))|..]
  {
  }

  lemma {:induction false} FlattenScan(t: string)
    ensures Flatten(Scan(t)) == t
    decreases |t|
  {
    if t != [] {
      var p := Front(t);
      var rest := t[|Written(p)|..];
      FlattenScan(rest);
      FrontWritten(t);
      assert Scan(t)[1..] == Scan(rest);
    }
  }

  /** A character that is not a percent sign, or a placeholder that is read as itself. */
  predicate CleanPiece(p: Piece) {
    match p
    case Lit(c) => c != '%'
    case Tok(token) => token.raw != [] && token.raw[0] == '%' && MatchToken(token.raw) == Some(token)
  }

  predicate Clean(ps: seq<Piece>) { forall i :: 0 <= i < |ps| ==> CleanPiece(ps[i]) }

  lemma {:induction false} DigitRunDigits(t: string)
    ensures AllDigits(t[..DigitRun(t)])
  {
    if t != [] && IsDigit(t[0]) {
      DigitRunDigits(t[1..]);
      assert t[..DigitRun(t)] == [t[0]] + t[1..][..DigitRun(t[1..])];
    }
  }

  lemma {:induction false} DigitRunStops(digits: string, c: char, rest: string)
    requires AllDigits(digits) && !IsDigit(c)
    ensures DigitRun(digits + [c] + rest) == |digits|
  {
    var t := digits + [c] + rest;
    if digits != [] {
      DigitRunStops(digits[1..], c, rest);
      assert t[1..] == digits[1..] + [c] + rest;
    }
  }

  /** What follows a placeholder does not change how it is read. */
  lemma TokenStands(t: string, rest: string)
    requires t != [] && t[0] == '%' && MatchToken(t).Some?
    ensures var k := MatchToken(t).value; MatchToken(k.raw + rest) == Some(k)
  {
    var k := MatchToken(t).value;
    var s := k.raw + rest;
    if k.digits != "" {
      var n := DigitRun(t[1..]);
      DigitRunDigits(t[1..]);
      assert k.digits == t[1..][..n];
      assert s[1..] == k.digits + ['$'] + ([k.kind] + rest);
      DigitRunStops(k.digits, '$', [k.kind] + rest);
      assert s[1..n + 1] == k.digits && s[..n + 3] == k.raw;
      assert s[1] == t[1];
    } else {
      assert s[..2] == k.raw;
    }
  }

  /** The first piece is clean unless it is a percent sign that starts no placeholder. */
  lemma FrontClean(t: string)
    requires t != []
    ensures CleanPiece(Front(t)) <==> Front(t) != Lit('%')
  {
    if Front(t).Tok? {
      TokenStands(t, []);
      assert Front(t).token.raw + [] == Front(t).token.raw;
    }
  }

  lemma {:induction false} ScanTokensClean(t: string)
    ensures forall i :: 0 <= i < |Scan(t)| && Scan(t)[i].Tok? ==> CleanPiece(Scan(t)[i])
    decreases |t|
  {
    if t != [] {
      FrontClean(t);
      ScanTokensClean(t[|Written(Front(t))|..]);
    }
  }

  /** Clean pieces written out are scanned as themselves. */
  lemma {:induction false} ScanFlatten(ps: seq<Piece>)
    requires Clean(ps)
    ensures Scan(Flatten(ps)) == ps
  {
    if ps != [] {
      var p, rest := ps[0], Flatten(ps[1..]);
      ScanFlatten(ps[1..]);
      assert ps == [p] + ps[1..];
      if p.Tok? { TokenStands(p.token.raw, rest); }
      assert Front(Written(p) + rest) == p;
      assert (Written(p) + rest)[|Written(p)|..] == rest;
    }
  }

  // ------------------------------------------------------------- signatures

  /** No percent sign is left outside a placeholder. */
  predicate NoStray(ps: seq<Piece>) { Lit('%') !in ps }

  predicate Validated(t: string) { NoStray(Scan(t)) }

  lemma ValidatedClean(t: string)
    requires Validated(t)
    ensures Clean(Scan(t))
  {
    ScanTokensClean(t);
    forall i | 0 <= i < |Scan(t)| ensures CleanPiece(Scan(t)[i]) {
      assert Scan(t)[i] in Scan(t);
    }
  }

  datatype Slot = Slot(position: nat, kind: char)

  predicate SlotAtMost(a: Slot, b: Slot) {
    a.position < b.position || (a.position == b.position && a.kind <= b.kind)
  }

  /** The argument slots in the order they are written; the unnumbered ones count from `next`. */
  function Slots(ps: seq<Piece>, next: nat): seq<Slot> {
    if ps == [] then []
    else
      var rest := Slots(ps[1..], After(ps[0], next));
      if TakesArgument(ps[0]) then [Slot(PositionOf(ps[0].token, next), ps[0].token.kind)] + rest else rest
  }

  function Signature(t: string): seq<Slot> { Sort(SlotAtMost, Slots(Scan(t), 1)) }

  /** The sorted signature, or a failure exactly when a percent sign starts no placeholder. */
  method FormatSignature(text: string) returns (r: Option<seq<Slot>>)
    ensures r == if Validated(text) then Some(Signature(text)) else None
  {
    var pieces := Scan(text);
    var signature: seq<Slot> := [];
    var implicit := 1;
    for i := 0 to |pieces|
      invariant Slots(pieces, 1) == signature + Slots(pieces[i..], implicit)
      invariant NoStray(pieces[..i])
    {
      var p := pieces[i];
      assert pieces[i..][0] == p && pieces[i..][1..] == pieces[i + 1..];
      if p == Lit('%') { return None; }
      if TakesArgument(p) {
        var position := if p.token.digits != "" then Number(p.token.digits) else implicit;
        if p.token.digits == "" { implicit := implicit + 1; }
        signature := signature + [Slot(position, p.token.kind)];
      }
    }
    assert pieces[..|pieces|] == pieces && signature == Slots(pieces, 1);
    return Some(Sort(SlotAtMost, signature));
  }

  // -------------------------------------------------------------- rendering

  datatype Arg = Text(s: string) | Whole(i: int) | Flag(b: bool)

  /** How arguments are printed as text, and integers as numbers. */
  datatype Printers = Printers(show: Arg -> string, showInt: int -> string)

  /**
   How a platform renders: how it prints arguments and integers, which integers
   it takes, and what it puts around an argument that is not an integer.
   */
  datatype Platform = Platform(printers: Printers, takes: int -> bool, open: string, close: string)

  /** One argument under one placeholder. */
  function Shown(pf: Platform, kind: char, a: Arg): Option<string> {
    if kind == 'd' then (if a.Whole? && pf.takes(a.i) then Some(pf.printers.showInt(a.i)) else None)
    else Some(pf.open + pf.printers.show(a) + pf.close)
  }

  function Placed(pf: Platform, kind: char, args: seq<Arg>, position: nat): Option<string> {
    if 1 <= position <= |args| then Shown(pf, kind, args[position - 1]) else None
  }

  predicate TakesArgument(p: Piece) { p.Tok? && p.token.kind != '%' }

  function PositionOf(k: Token, next: nat): nat { if k.digits != "" then Number(k.digits) else next }

  /** What one piece renders to, the next unnumbered placeholder being at `next`. */
  function Out(pf: Platform, p: Piece, args: seq<Arg>, next: nat): Option<string> {
    if p.Lit? then Some([p.c])
    else if p.token.kind == '%' then Some("%")
    else Placed(pf, p.token.kind, args, PositionOf(p.token, next))
  }

  /** The position of the next unnumbered placeholder after a piece. */
  function After(p: Piece, next: nat): nat { if TakesArgument(p) && p.token.digits == "" then next + 1 else next }

  function Render(pf: Platform, ps: seq<Piece>, args: seq<Arg>, next: nat): Option<string> {
    if ps == [] then Some("")
    else
      var here :- Out(pf, ps[0], args, next);
      var rest :- Render(pf, ps[1..], args, After(ps[0], next));
      Some(here + rest)
  }

  const MAX_SAFE_INTEGER: int := 9007199254740991

  predicate SafeInteger(i: int) { -MAX_SAFE_INTEGER <= i <= MAX_SAFE_INTEGER }

  function Canonical(pr: Printers): Platform {
    Platform(pr, _ => true, [FSI], [PDI])
  }

  function Desktop(pr: Printers): Platform {
    Platform(pr, SafeInteger, [FSI], [PDI])
  }

  function Android(pr: Printers): Platform {
    Platform(pr, _ => true, "", "")
  }

  /** One piece as the scripts render it: positions count from one. */
  method FormatPiece(p: Piece, args: seq<Arg>, position: nat, pr: Printers)
    returns (r: Option<string>, next: nat)
    ensures r == Out(Canonical(pr), p, args, position) && next == After(p, position)
  {
    next := position;
    if p.Lit? { return Some([p.c]), next; }
    if p.token.kind == '%' { return Some("%"), next; }
    var at := if p.token.digits != "" then Number(p.token.digits) else position;
    if p.token.digits == "" { next := position + 1; }
    if at < 1 || at > |args| { return None, next; }
    var value := args[at - 1];
    if p.token.kind == 'd' {
      if !value.Whole? { return None, next; }
      return Some(pr.showInt(value.i)), next;
    }
    return Some([FSI] + pr.show(value) + [PDI]), next;
  }

  /** Rendering the next piece leaves the rest to be rendered, or fails if the piece does. */
  lemma RenderNext(
    pf: Platform, ps: seq<Piece>, i: nat, args: seq<Arg>, next: nat, whole: Option<string>, out: string)
    requires i < |ps| && Continues(whole, out, Render(pf, ps[i..], args, next))
    ensures var here := Out(pf, ps[i], args, next);
            && (here.None? ==> whole.None?)
            && (here.Some? ==> Continues(whole, out + here.value, Render(pf, ps[i + 1..], args, After(ps[i], next))))
  {
    assert ps[i..][0] == ps[i] && ps[i..][1..] == ps[i + 1..];
    var here, rest := Out(pf, ps[i], args, next), Render(pf, ps[i + 1..], args, After(ps[i], next));
    if here.Some? && rest.Some? { Regrouped(out, here.value, rest.value); }
  }

  method FormatMessage(template: string, args: seq<Arg>, pr: Printers) returns (r: Option<string>)
    ensures r == Render(Canonical(pr), Scan(template), args, 1)
  {
    var pieces := Scan(template);
    ghost var pf := Canonical(pr);
    var out, position: nat := "", 1;
    for i := 0 to |pieces|
      invariant Continues(Render(pf, pieces, args, 1), out, Render(pf, pieces[i..], args, position))
    {
      RenderNext(pf, pieces, i, args, position, Render(pf, pieces, args, 1), out);
      var here;
      here, position := FormatPiece(pieces[i], args, position, pr);
      if here.None? { return None; }
      out := out + here.value;
    }
    assert pieces[|pieces|..] == [];
    assert out == Render(pf, pieces, args, 1).value;
    return Some(out);
  }

  /** One piece as the desktop renders it: positions count from zero, and integers must be safe ones. */
  method DesktopPiece(p: Piece, args: seq<Arg>, implicit: nat, pr: Printers)
    returns (r: Option<string>, next: nat)
    ensures r == Out(Desktop(pr), p, args, implicit + 1) && next + 1 == After(p, implicit + 1)
  {
    next := implicit;
    if p.Lit? { return Some([p.c]), next; }
    if p.token.kind == '%' { return Some("%"), next; }
    var at := if p.token.digits != "" then Number(p.token.digits) - 1 else implicit;
    if p.token.digits == "" { next := implicit + 1; }
    if at < 0 || at >= |args| { return None, next; }
    var value := args[at];
    if p.token.kind == 'd' {
      if !(value.Whole? && SafeInteger(value.i)) { return None, next; }
      return Some(pr.showInt(value.i)), next;
    }
    return Some([FSI] + pr.show(value) + [PDI]), next;
  }

  method DesktopFormat(template: string, args: seq<Arg>, pr: Printers) returns (r: Option<string>)
    ensures r == Render(Desktop(pr), Scan(template), args, 1)
  {
    var pieces := Scan(template);
    ghost var pf := Desktop(pr);
    var out, implicit: nat := "", 0;
    for i := 0 to |pieces|
      invariant Continues(Render(pf, pieces, args, 1), out, Render(pf, pieces[i..], args, implicit + 1))
    {
      RenderNext(pf, pieces, i, args, implicit + 1, Render(pf, pieces, args, 1), out);
      var here;
      here, implicit := DesktopPiece(pieces[i], args, implicit, pr);
      if here.None? { return None; }
      out := out + here.value;
    }
    assert pieces[|pieces|..] == [];
    assert out == Render(pf, pieces, args, 1).value;
    return Some(out);
  }

  /** Every text placeholder between isolates. */
  function IsolatedPieces(ps: seq<Piece>): seq<Piece> {
    if ps == [] then []
    else if ps[0].Tok? && ps[0].token.kind == 's' then [Lit(FSI), ps[0], Lit(PDI)] + IsolatedPieces(ps[1..])
    else [ps[0]] + IsolatedPieces(ps[1..])
  }

  method IsolateAndroidPlaceholders(text: string) returns (r: string)
    ensures r == Flatten(IsolatedPieces(Scan(text)))
  {
    var pieces := Scan(text);
    r := "";
    for i := 0 to |pieces|
      invariant Flatten(IsolatedPieces(pieces)) == r + Flatten(IsolatedPieces(pieces[i..]))
    {
      var p := pieces[i];
      assert pieces[i..][0] == p && pieces[i..][1..] == pieces[i + 1..];
      if p.Tok? && p.token.kind == 's' {
        FlattenThree(Lit(FSI), p, Lit(PDI), IsolatedPieces(pieces[i + 1..]));
        r := r + ([FSI] + (p.token.raw + [PDI]));
      } else {
        FlattenOne(p, IsolatedPieces(pieces[i + 1..]));
        r := r + Written(p);
      }
    }
    assert pieces[|pieces|..] == [];
  }

  lemma FlattenOne(p: Piece, rest: seq<Piece>)
    ensures Flatten([p] + rest) == Written(p) + Flatten(rest)
  {
  }

  lemma FlattenThree(p: Piece, q: Piece, s: Piece, rest: seq<Piece>)
    ensures Flatten([p, q, s] + rest) == Written(p) + (Written(q) + Written(s)) + Flatten(rest)
  {
    assert [p, q, s] + rest == [p] + ([q] + ([s] + rest));
    FlattenOne(p, [q] + ([s] + rest));
    FlattenOne(q, [s] + rest);
    FlattenOne(s, rest);
  }

  // -------------------------------------------------------------- agreement

  lemma {:induction false} IsolatedClean(ps: seq<Piece>)
    requires Clean(ps)
    ensures Clean(IsolatedPieces(ps))
  {
    if ps != [] { IsolatedClean(ps[1..]); }
  }

  /** Plain substitution between written isolates is what the isolating renderer does. */
  lemma {:induction false} IsolatedRenders(pr: Printers, ps: seq<Piece>, args: seq<Arg>, next: nat)
    requires forall i :: 0 <= i < |ps| && ps[i].Tok? ==> IsKind(ps[i].token.kind)
    ensures Render(Android(pr), IsolatedPieces(ps), args, next) == Render(Canonical(pr), ps, args, next)
  {
    if ps != [] {
      var p, rest := ps[0], IsolatedPieces(ps[1..]);
      IsolatedRenders(pr, ps[1..], args, After(p, next));
      if p.Tok? && p.token.kind == 's' {
        RenderIsolated(pr, p, rest, args, next);
      } else {
        RenderOne(Android(pr), p, rest, args, next);
      }
    }
  }

  /** What comes first, followed by what comes after it, if there are both. */
  function Then(a: Option<string>, b: Option<string>): Option<string> {
    if a.Some? && b.Some? then Some(a.value + b.value) else None
  }

  lemma RenderOne(pf: Platform, p: Piece, rest: seq<Piece>, args: seq<Arg>, next: nat)
    ensures Render(pf, [p] + rest, args, next) == Then(Out(pf, p, args, next), Render(pf, rest, args, After(p, next)))
  {
  }

  /** The isolating renderer encloses what the plain one writes. */
  lemma OutIsolated(pr: Printers, p: Piece, args: seq<Arg>, next: nat)
    requires p.Tok? && p.token.kind == 's'
    ensures Out(Canonical(pr), p, args, next) ==
            Then(Some([FSI]), Then(Out(Android(pr), p, args, next), Some([PDI])))
  {
    if Out(Android(pr), p, args, next).Some? {
      var shown := pr.show(args[PositionOf(p.token, next) - 1]);
      assert "" + shown + "" == shown;
      assert [FSI] + shown + [PDI] == [FSI] + (shown + [PDI]);
    }
  }

  lemma Enclosed(here: Option<string>, after: Option<string>)
    ensures Then(Some([FSI]), Then(here, Then(Some([PDI]), after))) ==
            Then(Then(Some([FSI]), Then(here, Some([PDI]))), after)
  {
    if here.Some? && after.Some? {
      assert [FSI] + (here.value + ([PDI] + after.value)) == [FSI] + (here.value + [PDI]) + after.value;
    }
  }

  lemma RenderIsolated(pr: Printers, p: Piece, rest: seq<Piece>, args: seq<Arg>, next: nat)
    requires p.Tok? && p.token.kind == 's'
    ensures Render(Android(pr), [Lit(FSI), p, Lit(PDI)] + rest, args, next) ==
            Then(Out(Canonical(pr), p, args, next), Render(Android(pr), rest, args, After(p, next)))
  {
    var pf, tail := Android(pr), [Lit(PDI)] + rest;
    assert [Lit(FSI), p, Lit(PDI)] + rest == [Lit(FSI)] + ([p] + tail);
    RenderOne(pf, Lit(FSI), [p] + tail, args, next);
    RenderOne(pf, p, tail, args, next);
    RenderOne(pf, Lit(PDI), rest, args, After(p, next));
    OutIsolated(pr, p, args, next);
    Enclosed(Out(pf, p, args, next), Render(pf, rest, args, After(p, next)));
  }

  lemma {:induction false} ScanKinds(t: string)
    ensures forall i :: 0 <= i < |Scan(t)| && Scan(t)[i].Tok? ==> IsKind(Scan(t)[i].token.kind)
    decreases |t|
  {
    if t != [] { ScanKinds(t[|Written(Front(t))|..]); }
  }

  /** The slot can be filled: its argument is there, and is an integer the platform takes if it must be one. */
  predicate Fills(pf: Platform, args: seq<Arg>, s: Slot) {
    1 <= s.position <= |args| && (s.kind == 'd' ==> args[s.position - 1].Whole? && pf.takes(args[s.position - 1].i))
  }

  predicate FillsAll(pf: Platform, args: seq<Arg>, slots: seq<Slot>) {
    forall i :: 0 <= i < |slots| ==> Fills(pf, args, slots[i])
  }

  lemma FillsCons(pf: Platform, args: seq<Arg>, s: Slot, slots: seq<Slot>)
    ensures FillsAll(pf, args, [s] + slots) <==> Fills(pf, args, s) && FillsAll(pf, args, slots)
  {
    var all := [s] + slots;
    assert all[0] == s && forall i :: 0 <= i < |slots| ==> all[i + 1] == slots[i];
  }

  /** A template renders exactly when every slot of its signature can be filled. */
  lemma {:induction false} RendersIffFilled(pf: Platform, ps: seq<Piece>, args: seq<Arg>, next: nat)
    ensures Render(pf, ps, args, next).Some? <==> FillsAll(pf, args, Slots(ps, next))
  {
    if ps != [] {
      RendersIffFilled(pf, ps[1..], args, After(ps[0], next));
      if TakesArgument(ps[0]) {
        FillsCons(pf, args, Slot(PositionOf(ps[0].token, next), ps[0].token.kind), Slots(ps[1..], After(ps[0], next)));
      }
    }
  }

  lemma SortedFills(pf: Platform, args: seq<Arg>, slots: seq<Slot>)
    ensures FillsAll(pf, args, Sort(SlotAtMost, slots)) <==> FillsAll(pf, args, slots)
  {
    SortMembers(SlotAtMost, slots);
    var sorted := Sort(SlotAtMost, slots);
    assert forall i :: 0 <= i < |sorted| ==> sorted[i] in slots;
    assert forall i :: 0 <= i < |slots| ==> slots[i] in sorted;
  }

  /** Two templates with one signature accept the same argument lists, on every platform. */
  lemma SignatureDecides(pf: Platform, t: string, u: string, args: seq<Arg>)
    requires Signature(t) == Signature(u)
    ensures Render(pf, Scan(t), args, 1).Some? <==> Render(pf, Scan(u), args, 1).Some?
  {
    RendersIffFilled(pf, Scan(t), args, 1);
    RendersIffFilled(pf, Scan(u), args, 1);
    SortedFills(pf, args, Slots(Scan(t), 1));
    SortedFills(pf, args, Slots(Scan(u), 1));
  }

  // ------------------------------------------------- different printers

  /** The two ways of printing agree on what the slot is given. */
  predicate PrintedAlike(p: Printers, q: Printers, args: seq<Arg>, s: Slot) {
    1 <= s.position <= |args| ==>
      var a := args[s.position - 1];
      if s.kind == 'd' then (a.Whole? ==> p.showInt(a.i) == q.showInt(a.i)) else p.show(a) == q.show(a)
  }

  predicate AllPrintedAlike(p: Printers, q: Printers, args: seq<Arg>, slots: seq<Slot>) {
    forall i :: 0 <= i < |slots| ==> PrintedAlike(p, q, args, slots[i])
  }

  lemma PrintedAlikeCons(p: Printers, q: Printers, args: seq<Arg>, s: Slot, slots: seq<Slot>)
    ensures AllPrintedAlike(p, q, args, [s] + slots) <==>
            PrintedAlike(p, q, args, s) && AllPrintedAlike(p, q, args, slots)
  {
    var all := [s] + slots;
    assert all[0] == s && forall i :: 0 <= i < |slots| ==> all[i + 1] == slots[i];
  }

  /** Both isolate text, and print alike what the template uses: where both render, they render the same. */
  lemma {:induction false} RenderedAlike(pf: Platform, qf: Platform, ps: seq<Piece>, args: seq<Arg>, next: nat)
    requires pf.open == qf.open && pf.close == qf.close
    requires AllPrintedAlike(pf.printers, qf.printers, args, Slots(ps, next))
    requires Render(pf, ps, args, next).Some? && Render(qf, ps, args, next).Some?
    ensures Render(pf, ps, args, next) == Render(qf, ps, args, next)
  {
    if ps != [] {
      var rest := Slots(ps[1..], After(ps[0], next));
      if TakesArgument(ps[0]) {
        PrintedAlikeCons(pf.printers, qf.printers, args, Slot(PositionOf(ps[0].token, next), ps[0].token.kind), rest);
      }
      RenderedAlike(pf, qf, ps[1..], args, After(ps[0], next));
    }
  }

  lemma SignaturePrintedAlike(p: Printers, q: Printers, args: seq<Arg>, template: string)
    requires AllPrintedAlike(p, q, args, Signature(template))
    ensures AllPrintedAlike(p, q, args, Slots(Scan(template), 1))
  {
    var slots := Slots(Scan(template), 1);
    SortMembers(SlotAtMost, slots);
    forall i | 0 <= i < |slots| ensures PrintedAlike(p, q, args, slots[i]) {
      assert slots[i] in Signature(template);
    }
  }

  /**
   For every validated template and argument list, plain substitution into the
   isolated template succeeds exactly when the scripts' renderer does, however
   either prints. Where they print alike what the signature uses, they agree.
   */
  lemma AndroidAgrees(template: string, args: seq<Arg>, android: Printers, scripts: Printers)
    requires Validated(template)
    ensures var a := Render(Android(android), Scan(Flatten(IsolatedPieces(Scan(template)))), args, 1);
            var c := Render(Canonical(scripts), Scan(template), args, 1);
            && (a.Some? <==> c.Some?)
            && (AllPrintedAlike(android, scripts, args, Signature(template)) ==> a == c)
  {
    var ps := Scan(template);
    assert Render(Android(android), Scan(Flatten(IsolatedPieces(ps))), args, 1) ==
           Render(Canonical(android), ps, args, 1) by {
      ValidatedClean(template);
      IsolatedClean(ps);
      ScanFlatten(IsolatedPieces(ps));
      ScanKinds(template);
      IsolatedRenders(android, ps, args, 1);
    }
    CanonicalFills(args, Slots(ps, 1), android, scripts);
    RendersIffFilled(Canonical(android), ps, args, 1);
    RendersIffFilled(Canonical(scripts), ps, args, 1);
    if AllPrintedAlike(android, scripts, args, Signature(template)) && Render(Canonical(scripts), ps, args, 1).Some? {
      SignaturePrintedAlike(android, scripts, args, template);
      RenderedAlike(Canonical(android), Canonical(scripts), ps, args, 1);
    }
  }

  lemma CanonicalFills(args: seq<Arg>, slots: seq<Slot>, p: Printers, q: Printers)
    ensures FillsAll(Canonical(p), args, slots) <==> FillsAll(Canonical(q), args, slots)
  {
    forall s ensures Fills(Canonical(p), args, s) <==> Fills(Canonical(q), args, s) {
    }
  }

  /** An integer slot is not given an integer beyond the safe range. */
  predicate SafelyFilled(args: seq<Arg>, s: Slot) {
    s.kind == 'd' && 1 <= s.position <= |args| && args[s.position - 1].Whole? ==> SafeInteger(args[s.position - 1].i)
  }

  /**
   However the two print, the desktop renderer succeeds exactly when the scripts'
   renderer does and no integer slot is given an integer beyond the safe range.
   Where they print alike what the signature uses, it then agrees.
   */
  lemma DesktopAgrees(template: string, args: seq<Arg>, desktop: Printers, scripts: Printers)
    ensures var d := Render(Desktop(desktop), Scan(template), args, 1);
            var c := Render(Canonical(scripts), Scan(template), args, 1);
            && (d.Some? <==> c.Some? && forall s :: s in Signature(template) ==> SafelyFilled(args, s))
            && (d.Some? && AllPrintedAlike(desktop, scripts, args, Signature(template)) ==> d == c)
  {
    var ps, slots := Scan(template), Slots(Scan(template), 1);
    RendersIffFilled(Desktop(desktop), ps, args, 1);
    RendersIffFilled(Canonical(scripts), ps, args, 1);
    SafeFills(args, slots, desktop, scripts);
    SortMembers(SlotAtMost, slots);
    if Render(Desktop(desktop), ps, args, 1).Some? && AllPrintedAlike(desktop, scripts, args, Signature(template)) {
      SignaturePrintedAlike(desktop, scripts, args, template);
      RenderedAlike(Desktop(desktop), Canonical(scripts), ps, args, 1);
    }
  }

  lemma SafeFills(args: seq<Arg>, slots: seq<Slot>, desktop: Printers, scripts: Printers)
    ensures FillsAll(Desktop(desktop), args, slots) <==>
            FillsAll(Canonical(scripts), args, slots) && forall s :: s in slots ==> SafelyFilled(args, s)
  {
    var d, c := Desktop(desktop), Canonical(scripts);
    forall s ensures Fills(d, args, s) <==> Fills(c, args, s) && SafelyFilled(args, s) {
    }
    if FillsAll(d, args, slots) {
      forall s | s in slots ensures SafelyFilled(args, s) {
        var i :| 0 <= i < |slots| && slots[i] == s;
        assert Fills(d, args, slots[i]);
      }
    }
  }

  // ---------------------------------------------------------------- flags

  /**
   Two ways of printing that part only on flags, and there by as many characters:
   one writes `True` and `False`, the other `true` and `false`.
   */
  ghost predicate PartOnFlags(p: Printers, q: Printers) {
    && (forall a: Arg :: !a.Flag? ==> p.show(a) == q.show(a))
    && (forall b: bool :: |p.show(Flag(b))| == |q.show(Flag(b))| && p.show(Flag(b)) != q.show(Flag(b)))
    && (forall i: int :: p.showInt(i) == q.showInt(i))
  }

  predicate FlagShown(args: seq<Arg>, s: Slot) {
    s.kind != 'd' && 1 <= s.position <= |args| && args[s.position - 1].Flag?
  }

  predicate NoFlags(args: seq<Arg>, slots: seq<Slot>) {
    forall i :: 0 <= i < |slots| ==> !FlagShown(args, slots[i])
  }

  lemma NoFlagsCons(args: seq<Arg>, s: Slot, slots: seq<Slot>)
    ensures NoFlags(args, [s] + slots) <==> !FlagShown(args, s) && NoFlags(args, slots)
  {
    var all := [s] + slots;
    assert all[0] == s && forall i :: 0 <= i < |slots| ==> all[i + 1] == slots[i];
  }

  lemma OutParts(pf: Platform, qf: Platform, p: Piece, args: seq<Arg>, next: nat)
    requires pf.open == qf.open && pf.close == qf.close && PartOnFlags(pf.printers, qf.printers)
    requires Out(pf, p, args, next).Some? && Out(qf, p, args, next).Some?
    ensures |Out(pf, p, args, next).value| == |Out(qf, p, args, next).value|
    ensures Out(pf, p, args, next) == Out(qf, p, args, next) <==>
            !(TakesArgument(p) && FlagShown(args, Slot(PositionOf(p.token, next), p.token.kind)))
  {
    if TakesArgument(p) && p.token.kind != 'd' {
      var a := args[PositionOf(p.token, next) - 1];
      var x, y := pf.printers.show(a), qf.printers.show(a);
      if pf.open + x + pf.close == qf.open + y + qf.close && |x| == |y| {
        SamePrefix(pf.open + x, pf.close, qf.open + y, qf.close);
        SamePrefix(pf.open, x, qf.open, y);
      }
    }
  }

  lemma {:induction false} FlagsPart(pf: Platform, qf: Platform, ps: seq<Piece>, args: seq<Arg>, next: nat)
    requires pf.open == qf.open && pf.close == qf.close && PartOnFlags(pf.printers, qf.printers)
    requires Render(pf, ps, args, next).Some? && Render(qf, ps, args, next).Some?
    ensures |Render(pf, ps, args, next).value| == |Render(qf, ps, args, next).value|
    ensures Render(pf, ps, args, next) == Render(qf, ps, args, next) <==> NoFlags(args, Slots(ps, next))
  {
    if ps != [] {
      var p, after := ps[0], After(ps[0], next);
      OutParts(pf, qf, p, args, next);
      FlagsPart(pf, qf, ps[1..], args, after);
      if TakesArgument(p) {
        NoFlagsCons(args, Slot(PositionOf(p.token, next), p.token.kind), Slots(ps[1..], after));
      }
      if Render(pf, ps, args, next) == Render(qf, ps, args, next) {
        SamePrefix(Out(pf, p, args, next).value, Render(pf, ps[1..], args, after).value,
                   Out(qf, p, args, next).value, Render(qf, ps[1..], args, after).value);
      }
    }
  }

  /** Where both render, desktop and scripts give the same string if and only if no flag is shown as text. */
  lemma FlagsDecide(template: string, args: seq<Arg>, desktop: Printers, scripts: Printers)
    requires PartOnFlags(desktop, scripts)
    requires Render(Desktop(desktop), Scan(template), args, 1).Some?
    requires Render(Canonical(scripts), Scan(template), args, 1).Some?
    ensures Render(Desktop(desktop), Scan(template), args, 1) ==
            Render(Canonical(scripts), Scan(template), args, 1) <==>
            NoFlags(args, Slots(Scan(template), 1))
  {
    FlagsPart(Desktop(desktop), Canonical(scripts), Scan(template), args, 1);
  }

  lemma OneToken(pf: Platform, token: Token, a: Arg)
    requires token.kind == 's' && token.digits == ""
    ensures Render(pf, [Tok(token)], [a], 1) == Some(pf.open + pf.printers.show(a) + pf.close)
  {
    var ps, shown := [Tok(token)], pf.open + pf.printers.show(a) + pf.close;
    assert Out(pf, ps[0], [a], 1) == Some(shown);
    assert ps[1..] == [] && shown + "" == shown;
  }

  /** The scripts write a flag as Python does, the desktop as JavaScript does. */
  lemma FlagDiffers(desktop: Printers, scripts: Printers)
    requires desktop.show(Flag(true)) == "true" && scripts.show(Flag(true)) == "True"
    ensures Render(Desktop(desktop), Scan("%s"), [Flag(true)], 1) == Some([FSI] + "true" + [PDI])
    ensures Render(Canonical(scripts), Scan("%s"), [Flag(true)], 1) == Some([FSI] + "True" + [PDI])
    ensures [FSI] + "true" + [PDI] != [FSI] + "True" + [PDI]
  {
    var token := Token("", 's', "%s");
    assert Front("%s") == Tok(token) by { assert "%s"[..2] == "%s"; }
    assert Scan("%s") == [Tok(token)] by { assert "%s"[2..] == ""; }
    OneToken(Desktop(desktop), token, Flag(true));
    OneToken(Canonical(scripts), token, Flag(true));
    assert ([FSI] + "true" + [PDI])[1] == 't' && ([FSI] + "True" + [PDI])[1] == 'T';
  }

  /** The desktop shows exactly the integers up to nine quadrillion and some, in either direction. */
  lemma DesktopIntegers(pr: Printers, i: int)
    ensures Render(Desktop(pr), Scan("%d"), [Whole(i)], 1) ==
            if -0x1F_FFFF_FFFF_FFFF <= i <= 0x1F_FFFF_FFFF_FFFF then Some(pr.showInt(i)) else None
  {
    var t := "%d";
    assert t[..2] == t && Front(t) == Tok(Token("", 'd', t)) && t[2..] == [];
    var ps := Scan(t);
    assert ps == [Tok(Token("", 'd', t))] && ps[1..] == [];
    assert pr.showInt(i) + "" == pr.showInt(i);
  }
}
