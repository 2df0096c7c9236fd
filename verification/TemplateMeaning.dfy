/** What a message template means, stated on how templates are written and without the scanner. */
module TemplateMeaning {
  import opened Localization
  import opened Sorting
  import opened Strings
  import opened Wrappers

  /** A character, the next placeholder in turn, or one with the number of its argument. */
  datatype Part = Char(c: char) | Next(kind: char) | Numbered(n: nat, kind: char)

  predicate WellPart(p: Part) {
    match p
    case Char(c) => c != '%'
    case Next(kind) => kind in "sd%"
    case Numbered(n, kind) => n >= 1 && kind in "sd%"
  }

  predicate WellParts(parts: seq<Part>) { forall i :: 0 <= i < |parts| ==> WellPart(parts[i]) }

  function TextOf(p: Part): string {
    match p
    case Char(c) => [c]
    case Next(kind) => ['%', kind]
    case Numbered(n, kind) => ['%'] + Decimal(n) + ['$', kind]
  }

  function Template(parts: seq<Part>): string {
    if parts == [] then [] else TextOf(parts[0]) + Template(parts[1..])
  }

  /** How many placeholders take arguments in turn. */
  function InTurn(parts: seq<Part>): nat {
    if parts == [] then 0
    else
      var last := parts[|parts| - 1];
      InTurn(parts[..|parts| - 1]) + (if last.Next? && last.kind != '%' then 1 else 0)
  }

  /** The argument under a placeholder: the one it names, or the next in turn after the parts before it. */
  function ArgumentOf(before: seq<Part>, p: Part): nat
    requires !p.Char?
  {
    if p.Numbered? then p.n else InTurn(before) + 1
  }

  /** One part after others: itself, a percent sign, or its argument if there is one of the right kind. */
  function Shows(pf: Platform, before: seq<Part>, p: Part, args: seq<Arg>): Option<string> {
    if p.Char? then Some([p.c])
    else if p.kind == '%' then Some("%")
    else
      var at := ArgumentOf(before, p);
      if at < 1 || at > |args| then None
      else
        match (p.kind, args[at - 1])
        case ('d', Whole(i)) => if pf.takes(i) then Some(pf.printers.showInt(i)) else None
        case ('d', _) => None
        case (_, a) => Some(pf.open + pf.printers.show(a) + pf.close)
  }

  /** The parts one after another, or nothing if one of them cannot be shown. */
  function Meaning(pf: Platform, parts: seq<Part>, args: seq<Arg>): Option<string> {
    if parts == [] then Some("")
    else
      var front := parts[..|parts| - 1];
      var shown :- Meaning(pf, front, args);
      var last :- Shows(pf, front, parts[|parts| - 1], args);
      Some(shown + last)
  }

  /** The slots that the parts take, in the order they are written. */
  function PartSlots(parts: seq<Part>): seq<Slot> {
    if parts == [] then []
    else
      var front, last := parts[..|parts| - 1], parts[|parts| - 1];
      if last.Char? || last.kind == '%' then PartSlots(front)
      else PartSlots(front) + [Slot(ArgumentOf(front, last), last.kind)]
  }

  // --------------------------------------------------------------- scanning

  function PieceOf(p: Part): Piece {
    match p
    case Char(c) => Lit(c)
    case Next(kind) => Tok(Token("", kind, TextOf(p)))
    case Numbered(n, kind) => Tok(Token(Decimal(n), kind, TextOf(p)))
  }

  function Pieces(parts: seq<Part>): seq<Piece> {
    if parts == [] then [] else [PieceOf(parts[0])] + Pieces(parts[1..])
  }

  lemma NumberedMatches(n: nat, kind: char)
    requires n >= 1 && kind in "sd%"
    ensures MatchToken(TextOf(Numbered(n, kind))) == Some(Token(Decimal(n), kind, TextOf(Numbered(n, kind))))
  {
    var t, digits := TextOf(Numbered(n, kind)), Decimal(n);
    DecimalFront(n);
    assert t[1] == digits[0];
    assert t[1..] == digits + ['$'] + [kind];
    DigitRunStops(digits, '$', [kind]);
    assert t[1..|digits| + 1] == digits && t[..|digits| + 3] == t;
  }

  lemma PieceClean(p: Part)
    requires WellPart(p)
    ensures CleanPiece(PieceOf(p)) && Localization.Written(PieceOf(p)) == TextOf(p)
  {
    match p
    case Char(_) =>
    case Next(kind) => assert TextOf(p)[..2] == TextOf(p);
    case Numbered(n, kind) => NumberedMatches(n, kind);
  }

  lemma {:induction false} TemplateFlattens(parts: seq<Part>)
    requires WellParts(parts)
    ensures Clean(Pieces(parts)) && Flatten(Pieces(parts)) == Template(parts)
  {
    if parts != [] {
      PieceClean(parts[0]);
      TemplateFlattens(parts[1..]);
      assert Pieces(parts)[1..] == Pieces(parts[1..]);
    }
  }

  /** A template is scanned as the parts it is written from. */
  lemma TemplateScans(parts: seq<Part>)
    requires WellParts(parts)
    ensures Scan(Template(parts)) == Pieces(parts)
  {
    TemplateFlattens(parts);
    ScanFlatten(Pieces(parts));
  }

  lemma {:induction false} PiecesAppend(parts: seq<Part>, p: Part)
    ensures Pieces(parts + [p]) == Pieces(parts) + [PieceOf(p)]
  {
    if parts == [] {
      assert parts + [p] == [p] && [p][1..] == [];
    } else {
      PiecesAppend(parts[1..], p);
      assert (parts + [p])[1..] == parts[1..] + [p];
    }
  }

  // -------------------------------------------------------------- rendering

  /** The position of the next unnumbered placeholder after some pieces. */
  function AfterAll(ps: seq<Piece>, next: nat): nat {
    if ps == [] then next else AfterAll(ps[1..], After(ps[0], next))
  }

  /** One string after another, or nothing if either is missing. */
  function Both(a: Option<string>, b: Option<string>): Option<string> {
    if a.Some? && b.Some? then Some(a.value + b.value) else None
  }

  lemma {:induction false} RenderConcat(pf: Platform, ps: seq<Piece>, qs: seq<Piece>, args: seq<Arg>, next: nat)
    ensures Render(pf, ps + qs, args, next) ==
            Both(Render(pf, ps, args, next), Render(pf, qs, args, AfterAll(ps, next)))
  {
    if ps == [] {
      assert ps + qs == qs;
      BothUnits(Render(pf, qs, args, next));
    } else {
      var after := After(ps[0], next);
      RenderConcat(pf, ps[1..], qs, args, after);
      assert (ps + qs)[1..] == ps[1..] + qs;
      var here, rest := Out(pf, ps[0], args, next), Render(pf, ps[1..], args, after);
      BothRegroup(here, rest, Render(pf, qs, args, AfterAll(ps, next)));
    }
  }

  lemma BothUnits(a: Option<string>)
    ensures Both(Some(""), a) == a == Both(a, Some(""))
  {
    if a.Some? { assert "" + a.value == a.value == a.value + ""; }
  }

  lemma BothRegroup(a: Option<string>, b: Option<string>, c: Option<string>)
    ensures Both(Both(a, b), c) == Both(a, Both(b, c))
  {
    if a.Some? && b.Some? && c.Some? { assert a.value + b.value + c.value == a.value + (b.value + c.value); }
  }

  lemma RenderOne(pf: Platform, p: Piece, args: seq<Arg>, next: nat)
    ensures Render(pf, [p], args, next) == Out(pf, p, args, next)
  {
    assert [p][1..] == [];
    BothUnits(Out(pf, p, args, next));
  }

  lemma {:induction false} AfterAllAppend(ps: seq<Piece>, p: Piece, next: nat)
    ensures AfterAll(ps + [p], next) == After(p, AfterAll(ps, next))
  {
    if ps == [] {
      assert ps + [p] == [p] && [p][1..] == [];
    } else {
      AfterAllAppend(ps[1..], p, After(ps[0], next));
      assert (ps + [p])[1..] == ps[1..] + [p];
    }
  }

  lemma {:induction false} AfterInTurn(parts: seq<Part>)
    ensures AfterAll(Pieces(parts), 1) == InTurn(parts) + 1
  {
    if parts != [] {
      var front, last := parts[..|parts| - 1], parts[|parts| - 1];
      assert parts == front + [last];
      AfterInTurn(front);
      PiecesAppend(front, last);
      AfterAllAppend(Pieces(front), PieceOf(last), 1);
    }
  }

  lemma PieceShows(pf: Platform, before: seq<Part>, p: Part, args: seq<Arg>)
    requires WellPart(p)
    ensures Out(pf, PieceOf(p), args, InTurn(before) + 1) == Shows(pf, before, p, args)
  {
    if p.Numbered? { DecimalNumber(p.n); }
  }

  lemma {:induction false} PiecesMean(pf: Platform, parts: seq<Part>, args: seq<Arg>)
    requires WellParts(parts)
    ensures Render(pf, Pieces(parts), args, 1) == Meaning(pf, parts, args)
  {
    if parts != [] {
      var front, last := parts[..|parts| - 1], parts[|parts| - 1];
      assert parts == front + [last];
      PiecesMean(pf, front, args);
      PiecesAppend(front, last);
      RenderConcat(pf, Pieces(front), [PieceOf(last)], args, 1);
      AfterInTurn(front);
      RenderOne(pf, PieceOf(last), args, InTurn(front) + 1);
      PieceShows(pf, front, last, args);
    }
  }

  /**
   Every template renders to what its parts mean: a numbered placeholder to the
   argument of that number, the k-th other one to the k-th argument, a doubled
   percent sign to one, and every other character to itself.
   */
  lemma TemplateMeans(pf: Platform, parts: seq<Part>, args: seq<Arg>)
    requires WellParts(parts)
    ensures Render(pf, Scan(Template(parts)), args, 1) == Meaning(pf, parts, args)
  {
    TemplateScans(parts);
    PiecesMean(pf, parts, args);
  }

  // -------------------------------------------------------------- signatures

  lemma {:induction false} SlotsAppend(ps: seq<Piece>, p: Piece, next: nat)
    ensures Slots(ps + [p], next) == Slots(ps, next) + Slots([p], AfterAll(ps, next))
  {
    if ps == [] {
      assert ps + [p] == [p];
    } else {
      SlotsAppend(ps[1..], p, After(ps[0], next));
      assert (ps + [p])[1..] == ps[1..] + [p];
    }
  }

  lemma SlotsOne(before: seq<Part>, p: Part)
    requires WellPart(p)
    ensures Slots([PieceOf(p)], InTurn(before) + 1) ==
            if p.Char? || p.kind == '%' then [] else [Slot(ArgumentOf(before, p), p.kind)]
  {
    assert [PieceOf(p)][1..] == [];
    if p.Numbered? { DecimalNumber(p.n); }
  }

  /** The slots of a template are those its parts take, in order. */
  lemma {:induction false} PiecesSlots(parts: seq<Part>)
    requires WellParts(parts)
    ensures Slots(Pieces(parts), 1) == PartSlots(parts)
  {
    if parts != [] {
      var front, last := parts[..|parts| - 1], parts[|parts| - 1];
      assert parts == front + [last];
      PiecesSlots(front);
      PiecesAppend(front, last);
      SlotsAppend(Pieces(front), PieceOf(last), 1);
      AfterInTurn(front);
      SlotsOne(front, last);
    }
  }

  lemma SignatureMeans(parts: seq<Part>)
    requires WellParts(parts)
    ensures Validated(Template(parts)) && Slots(Scan(Template(parts)), 1) == PartSlots(parts)
  {
    TemplateFlattens(parts);
    TemplateScans(parts);
    PiecesSlots(parts);
  }

  /** The signature has the slots of the parts, by rising position. */
  lemma SignatureSorted(parts: seq<Part>)
    requires WellParts(parts)
    ensures var s := Signature(Template(parts));
            && multiset(s) == multiset(PartSlots(parts))
            && forall i, j :: 0 <= i < j < |s| ==> s[i].position <= s[j].position
  {
    SignatureMeans(parts);
    SlotsOrdered();
    SortSorts(SlotAtMost, PartSlots(parts));
    SortMultiset(SlotAtMost, PartSlots(parts));
    var s := Signature(Template(parts));
    assert forall i, j :: 0 <= i < j < |s| ==> SlotAtMost(s[i], s[j]);
  }

  lemma SlotsOrdered()
    ensures TotalPreorder(SlotAtMost)
  {
  }

  // ----------------------------------------------------------- every template

  lemma NumberedText(token: Token)
    requires CleanPiece(Tok(token)) && token.digits != ""
    ensures WellPart(Numbered(Number(token.digits), token.kind))
    ensures TextOf(Numbered(Number(token.digits), token.kind)) == token.raw
  {
    var raw, n := token.raw, DigitRun(token.raw[1..]);
    DigitRunDigits(raw[1..]);
    assert token.digits == raw[1..n + 1] == raw[1..][..n];
    assert token.digits[0] == raw[1];
    NumberDecimal(token.digits);
    assert raw == raw[..n + 3];
    assert raw == ['%'] + token.digits + ['$', token.kind];
  }

  lemma PartOf(p: Piece) returns (q: Part)
    requires CleanPiece(p)
    ensures WellPart(q) && TextOf(q) == Localization.Written(p)
  {
    match p
    case Lit(c) => q := Char(c);
    case Tok(token) =>
      var raw := token.raw;
      if token.digits == "" {
        q := Next(token.kind);
        assert raw == raw[..2];
      } else {
        NumberedText(token);
        q := Numbered(Number(token.digits), token.kind);
      }
  }

  lemma {:induction false} PartsOf(ps: seq<Piece>) returns (parts: seq<Part>)
    requires Clean(ps)
    ensures WellParts(parts) && Template(parts) == Flatten(ps)
  {
    if ps == [] {
      parts := [];
    } else {
      var q := PartOf(ps[0]);
      var rest := PartsOf(ps[1..]);
      parts := [q] + rest;
      assert parts[1..] == rest;
    }
  }

  /** Every template that passes validation is written from such parts, so it is known what it means. */
  lemma EveryTemplate(t: string) returns (parts: seq<Part>)
    requires Validated(t)
    ensures WellParts(parts) && Template(parts) == t
  {
    ValidatedClean(t);
    FlattenScan(t);
    parts := PartsOf(Scan(t));
  }
}
