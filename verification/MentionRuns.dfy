/** What the composer's handlers do to the mention draft, one by one and over whole runs. */
module MentionRuns {
  import opened Mentions
  import opened Sequences
  import opened Sorting
  import opened TextDiff
  import opened Unicode

  datatype Event =
    | Typed(now: Text)                                            // the input box reports a new text
    | Mentioned(start: nat, end: nat, target: string, name: Text) // a member is picked at the selection
    | TokenRemoved(index: nat)                                    // a mention's token is clicked away
    | LinksDropped                                                // a disappearing timer is chosen
    | Scheduled                                                   // the text is taken by the schedule dialog
    | Opened                                                      // another conversation is opened

  const EMPTY := Draft([], [], [])

  /** Replaces a range of the text; a range beyond its end is cut to it. */
  function Spliced(t: Text, start: nat, end: nat, replacement: Text): Text {
    t[..Min(start, |t|)] + replacement + t[Min(end, |t|)..]
  }

  function Edited(spans: seq<Span>, was: Text, now: Text): seq<Span>
    requires Proper(spans)
  {
    if was == now then spans else Reconciled(spans, DiffOf(was, now))
  }

  function Replaced(d: Draft, start: nat, end: nat, replacement: Text): Draft
    requires Proper(d.spans)
  {
    var now := Spliced(d.text, start, end, replacement);
    Draft(now, now, Edited(d.spans, d.text, now))
  }

  function Visible(name: Text): Text { [AT] + name }

  function Without<T>(s: seq<T>, i: nat): seq<T>
    requires i < |s|
  {
    s[..i] + s[i + 1..]
  }

  /** The span added for a member picked at `start`. */
  function Added(start: nat, target: string, name: Text): Span {
    Span(start, start + |Visible(name)|, target)
  }

  function Picked(d: Draft, start: nat, end: nat, target: string, name: Text): Draft
    requires Proper(d.spans)
  {
    var r := Replaced(d, start, end, Visible(name));
    r.(spans := Sort(AtMost, r.spans + [Added(start, target, name)]))
  }

  function Step(d: Draft, ev: Event): Draft
    requires Proper(d.spans)
  {
    match ev
    case Typed(now) => Draft(now, now, Edited(d.spans, d.lastText, now))
    case Mentioned(start, end, target, name) => Picked(d, start, end, target, name)
    case TokenRemoved(index) =>
      if index >= |d.spans| then d
      else Replaced(d.(spans := Without(d.spans, index)), d.spans[index].start, d.spans[index].end, [])
    case LinksDropped => d.(spans := [])
    case Scheduled => d.(text := [])
    case Opened => EMPTY
  }

  // ------------------------------------------------------ single handlers

  /** The box shows the text that the spans were reconciled with. */
  predicate InSync(d: Draft) { d.text == d.lastText }

  ghost predicate Valid(d: Draft) { Ordered(d.spans, d.lastText) }

  lemma EditedKeepsOrder(spans: seq<Span>, was: Text, now: Text)
    requires Ordered(spans, was)
    ensures Ordered(Edited(spans, was, now), now)
  {
    ReconcileKeepsOrder(spans, was, now);
  }

  lemma OrderedSorted(spans: seq<Span>, text: Text)
    requires Ordered(spans, text)
    ensures Sorted(AtMost, spans)
  {
  }

  lemma SplicedAt(t: Text, start: nat, end: nat, r: Text)
    requires start <= end <= |t|
    ensures var now := Spliced(t, start, end, r); start + |r| <= |now| && now[start..start + |r|] == r
  {
  }

  lemma ReplacedValid(d: Draft, start: nat, end: nat, r: Text)
    requires start <= end && Valid(d) && InSync(d)
    ensures Valid(Replaced(d, start, end, r)) && InSync(Replaced(d, start, end, r))
  {
    EditedKeepsOrder(d.spans, d.text, Spliced(d.text, start, end, r));
  }

  lemma PickedSpans(d: Draft, start: nat, end: nat, target: string, name: Text)
    requires start <= end && Valid(d) && InSync(d)
    ensures Picked(d, start, end, target, name).spans ==
            Put(AtMost, Replaced(d, start, end, Visible(name)).spans, Added(start, target, name))
  {
    var r := Replaced(d, start, end, Visible(name));
    ReplacedValid(d, start, end, Visible(name));
    OrderedSorted(r.spans, r.lastText);
    SortAppended(AtMost, r.spans, Added(start, target, name));
  }

  /** Every span that outlives the replacement of the selection keeps apart from the picked mention. */
  ghost predicate InsertionClear(d: Draft, start: nat, end: nat, name: Text)
    requires Proper(d.spans)
  {
    forall x :: x in Replaced(d, start, end, Visible(name)).spans ==> Apart(x, Added(start, "", name))
  }

  lemma PickedApart(d: Draft, start: nat, end: nat, target: string, name: Text)
    requires start <= end <= |d.text| && Valid(d) && InSync(d)
    ensures Valid(Picked(d, start, end, target, name)) <==> InsertionClear(d, start, end, name)
  {
    PickedSpans(d, start, end, target, name);
    ReplacedValid(d, start, end, Visible(name));
    SplicedAt(d.text, start, end, Visible(name));
    var r := Replaced(d, start, end, Visible(name));
    PutOrdered(r.spans, Added(start, target, name), r.text);
  }

  lemma ClearOfSurvivors(spans: seq<Span>, e: Edit, x: Span)
    requires Proper(spans)
    ensures (forall r :: r in Reconciled(spans, e) ==> Apart(r, x)) <==>
            (forall s :: s in spans && Survives(s, e) ==> Apart(Moved(s, e), x))
  {
  }

  /**
   The mention that is about to be picked over a selection keeps clear of the
   mentions already there. If the pick leaves the text as it is, no mention may
   reach into the selection. Otherwise a mention in front of the diffed range
   stays where it is and one behind it moves, and neither may come to lie in the
   range of the new mention.
   */
  ghost predicate PickClear(d: Draft, start: nat, end: nat, name: Text) {
    var v := Visible(name);
    var now := Spliced(d.text, start, end, v);
    var e := DiffOf(d.text, now);
    forall s :: s in d.spans ==>
      if now == d.text then s.end <= start || end <= s.start else ClearAfter(s, e, start, end, |v|)
  }

  /** Neither in front of the edit nor behind it does the span come to lie in the `n` units put at `start`. */
  predicate ClearAfter(s: Span, e: Edit, start: nat, end: nat, n: nat) {
    && !(s.end <= e.prefix && start < s.end && s.start < start + n)
    && !(e.oldEnd <= s.start < end && end < s.end + n)
  }

  lemma ClearAfterMoving(s: Span, e: Edit, start: nat, end: nat, n: nat, target: string)
    requires s.start < s.end && start <= end && e.prefix <= e.oldEnd && e.newEnd - e.oldEnd == n - (end - start)
    ensures ClearAfter(s, e, start, end, n) <==> (Survives(s, e) ==> Apart(Moved(s, e), Span(start, start + n, target)))
  {
  }

  /** A pick over any selection keeps the spans ordered if and only if it is clear. */
  lemma PickedValid(d: Draft, start: nat, end: nat, target: string, name: Text)
    requires start <= end <= |d.text| && Valid(d) && InSync(d)
    ensures Valid(Picked(d, start, end, target, name)) <==> PickClear(d, start, end, name)
  {
    var now, x := Spliced(d.text, start, end, Visible(name)), Added(start, "", name);
    var e := DiffOf(d.text, now);
    PickedApart(d, start, end, target, name);
    if now != d.text {
      assert InsertionClear(d, start, end, name) <==>
             forall s :: s in d.spans && Survives(s, e) ==> Apart(Moved(s, e), x) by {
        ClearOfSurvivors(d.spans, e, x);
      }
      forall s | s in d.spans
        ensures ClearAfter(s, e, start, end, |Visible(name)|) <==> (Survives(s, e) ==> Apart(Moved(s, e), x))
      {
        ClearAfterMoving(s, e, start, end, |Visible(name)|, "");
      }
    }
  }

  /** How far the text after a caret agrees with itself pushed right by the picked mention. */
  function Overrun(d: Draft, at: nat, name: Text): nat
    requires at <= |d.text|
  {
    PrefixFrom(d.text[at..], Visible(name) + d.text[at..], 0)
  }

  lemma CaretDiff(d: Draft, at: nat, name: Text)
    requires at <= |d.text|
    ensures var now := Spliced(d.text, at, at, Visible(name));
            var p := at + Overrun(d, at, name);
            now != d.text && DiffOf(d.text, now) == Edit(p, p, p + |Visible(name)|)
  {
    var a, v, b := d.text[..at], Visible(name), d.text[at..];
    assert a + b == d.text && Spliced(d.text, at, at, v) == a + v + b;
    assert |a + v + b| != |d.text|;
    InsertionDiff(a, v, b);
  }

  /**
   A mention picked at a collapsed caret leaves the spans ordered if and only if
   no existing mention ends inside the overrun and starts before the end of the
   new one: such a mention is taken to be the one just typed.
   */
  lemma PickedAtCaret(d: Draft, at: nat, target: string, name: Text)
    requires at <= |d.text| && Valid(d) && InSync(d)
    ensures Valid(Picked(d, at, at, target, name)) <==>
            forall s :: s in d.spans ==>
              !(at < s.end <= at + Overrun(d, at, name) && s.start < at + |Visible(name)|)
  {
    PickedValid(d, at, at, target, name);
    CaretDiff(d, at, name);
  }

  /** Where the caret is not followed by an `@`, nothing can go wrong. */
  lemma PickedBeforeOtherText(d: Draft, at: nat, target: string, name: Text)
    requires at <= |d.text| && Valid(d) && InSync(d)
    requires at < |d.text| ==> d.text[at] != AT
    ensures Valid(Picked(d, at, at, target, name))
  {
    PickedAtCaret(d, at, target, name);
  }

  lemma PickedOnce(target: string, name: Text)
    ensures var d := Picked(EMPTY, 0, 0, target, name);
            && Valid(d) && InSync(d) && d.text == Visible(name) && d.spans == [Span(0, |Visible(name)|, target)]
  {
    var v := Visible(name);
    assert Spliced([], 0, 0, v) == v && Reconciled([], DiffOf([], v)) == [];
    PickedBeforeOtherText(EMPTY, 0, target, name);
    PickedSpans(EMPTY, 0, 0, target, name);
  }

  /** A member picked in front of a mention of the same name: both spans cover the same characters. */
  lemma PickedTwice(target: string, name: Text)
    ensures var d := Picked(EMPTY, 0, 0, target, name);
            && Valid(d) && InSync(d)
            && !Valid(Picked(d, 0, 0, target, name))
  {
    PickedOnce(target, name);
    var d := Picked(EMPTY, 0, 0, target, name);
    var v := Visible(name);
    assert v[0..] == v;
    PrefixIs(v, v + v, |v|);
    PickedAtCaret(d, 0, target, name);
    assert d.spans[0] in d.spans;
  }

  /**
   A selection whose first and last characters both differ from those of the
   picked mention is diffed as itself, so it takes with it every mention it
   reaches into and the rest stay ordered.
   */
  lemma PickedOverSelection(d: Draft, start: nat, end: nat, target: string, name: Text)
    requires start < end <= |d.text| && Valid(d) && InSync(d)
    requires d.text[start] != AT && d.text[end - 1] != Visible(name)[|name|]
    ensures Valid(Picked(d, start, end, target, name))
  {
    var v := Visible(name);
    ReplacementDiff(d.text[..start], d.text[start..end], v, d.text[end..]);
    assert d.text == d.text[..start] + d.text[start..end] + d.text[end..];
    assert Spliced(d.text, start, end, v)[start] == v[0];
    PickedValid(d, start, end, target, name);
  }

  /** A member picked over the mention of the same name: the text stays, and a second span covers it. */
  lemma PickedAgain(target: string, other: string, name: Text)
    ensures var d := Picked(EMPTY, 0, 0, target, name);
            && Valid(d) && InSync(d)
            && !Valid(Picked(d, 0, |d.text|, other, name))
  {
    PickedOnce(target, name);
    var d := Picked(EMPTY, 0, 0, target, name);
    assert Spliced(d.text, 0, |d.text|, Visible(name)) == d.text;
    PickedValid(d, 0, |d.text|, other, name);
    assert d.spans[0] in d.spans;
  }

  // --------------------------------------------------------------- tokens

  lemma WithoutMembers<T>(s: seq<T>, i: nat)
    requires i < |s|
    ensures forall x :: x in Without(s, i) ==> x in s
    ensures forall j :: 0 <= j < |s| && j != i ==> s[j] in Without(s, i)
  {
  }

  lemma WithoutOrdered(spans: seq<Span>, i: nat, text: Text)
    requires i < |spans| && Ordered(spans, text)
    ensures Ordered(Without(spans, i), text)
  {
  }

  lemma TokenRemovedValid(d: Draft, index: nat)
    requires Valid(d) && InSync(d)
    ensures Valid(Step(d, TokenRemoved(index))) && InSync(Step(d, TokenRemoved(index)))
  {
    if index < |d.spans| {
      WithoutOrdered(d.spans, index, d.lastText);
      ReplacedValid(d.(spans := Without(d.spans, index)), d.spans[index].start, d.spans[index].end, []);
    }
  }

  /** How far a mention and what follows it agree with what follows it. */
  function Echo(d: Draft, index: nat): nat
    requires index < |d.spans| && d.spans[index].start <= d.spans[index].end <= |d.text|
  {
    PrefixFrom(d.text[d.spans[index].start..], d.text[d.spans[index].end..], 0)
  }

  lemma TokenDiff(d: Draft, index: nat)
    requires index < |d.spans| && d.spans[index].start < d.spans[index].end <= |d.text|
    ensures var x := d.spans[index];
            var now := Spliced(d.text, x.start, x.end, []);
            var p := x.start + Echo(d, index);
            now != d.text && DiffOf(d.text, now) == Edit(p, p + x.end - x.start, p)
  {
    var x := d.spans[index];
    var a, m, b := d.text[..x.start], d.text[x.start..x.end], d.text[x.end..];
    assert d.text == a + m + b && m + b == d.text[x.start..] by { Cut(d.text, x.start, x.end); }
    assert Spliced(d.text, x.start, x.end, []) == a + b by { assert a + [] == a; }
    DeletionDiff(a, m, b);
  }

  lemma Cut<T>(t: seq<T>, i: nat, j: nat)
    requires i <= j <= |t|
    ensures t == t[..i] + t[i..j] + t[j..] && t[i..] == t[i..j] + t[j..]
  {
  }

  /**
   Removing a token drops that link and no other if and only if no other mention
   reaches into its range moved right by its echo, the place where the diff sees
   the text disappear.
   */
  lemma TokenRemovedAlone(d: Draft, index: nat)
    requires index < |d.spans| && Valid(d) && InSync(d)
    ensures |Step(d, TokenRemoved(index)).spans| == |d.spans| - 1 <==>
            forall j :: 0 <= j < |d.spans| && j != index ==>
              var x, k := d.spans[index], Echo(d, index);
              !(d.spans[j].start < x.end + k && x.start + k < d.spans[j].end)
  {
    var x, others := d.spans[index], Without(d.spans, index);
    TokenDiff(d, index);
    WithoutOrdered(d.spans, index, d.lastText);
    var e := DiffOf(d.text, Spliced(d.text, x.start, x.end, []));
    ReconciledLength(others, e);
    OthersSurvive(d.spans, index, e);
  }

  lemma OthersSurvive(spans: seq<Span>, index: nat, e: Edit)
    requires index < |spans|
    ensures (forall s :: s in Without(spans, index) ==> Survives(s, e)) <==>
            (forall j :: 0 <= j < |spans| && j != index ==> Survives(spans[j], e))
  {
  }

  /** What follows a mention does not start with an `@`: removing the mention keeps every other link. */
  lemma TokenRemovedBeforeOtherText(d: Draft, index: nat)
    requires index < |d.spans| && Valid(d) && InSync(d)
    requires var x := d.spans[index]; d.text[x.start] == AT && (x.end < |d.text| ==> d.text[x.end] != AT)
    ensures |Step(d, TokenRemoved(index)).spans| == |d.spans| - 1
  {
    TokenRemovedAlone(d, index);
    forall j | 0 <= j < |d.spans| && j != index ensures Apart(d.spans[j], d.spans[index]) {
      if j < index {
        assert d.spans[j].end <= d.spans[index].start;
      } else {
        assert d.spans[index].end <= d.spans[j].start;
      }
    }
  }

  /** Two neighbouring mentions of one name: removing the first drops both links. */
  lemma TokenRemovedTakesNeighbour(name: Text)
    ensures var v := Visible(name);
            var d := Draft(v + v, v + v, [Span(0, |v|, "a"), Span(|v|, 2 * |v|, "b")]);
            && Valid(d)
            && Step(d, TokenRemoved(0)).spans == []
  {
    var v := Visible(name);
    var x, y := Span(0, |v|, "a"), Span(|v|, 2 * |v|, "b");
    var d := Draft(v + v, v + v, [x, y]);
    assert Echo(d, 0) == |v| by {
      assert d.text[0..] == v + v && d.text[|v|..] == v;
      PrefixIs(v + v, v, |v|);
    }
    TokenDiff(d, 0);
    assert Without(d.spans, 0) == [y];
    NoneLeft(y, Edit(|v|, 2 * |v|, |v|));
  }

  lemma NoneLeft(y: Span, e: Edit)
    requires y.start < y.end && !Survives(y, e)
    ensures Reconciled([y], e) == []
  {
    assert [y][1..] == [];
  }

  // ------------------------------------------------------------ whole runs

  lemma {:induction false} ReconciledProper(spans: seq<Span>, e: Edit)
    requires Proper(spans)
    ensures Proper(Reconciled(spans, e))
  {
    if spans != [] { ReconciledProper(spans[1..], e); }
  }

  lemma StepProper(d: Draft, ev: Event)
    requires Proper(d.spans)
    ensures Proper(Step(d, ev).spans)
  {
    match ev
    case Typed(now) => ReconciledProper(d.spans, DiffOf(d.lastText, now));
    case Mentioned(start, end, target, name) =>
      var r := Replaced(d, start, end, Visible(name));
      ReconciledProper(d.spans, DiffOf(d.text, r.text));
      SortMembers(AtMost, r.spans + [Added(start, target, name)]);
    case TokenRemoved(index) =>
      if index < |d.spans| {
        WithoutMembers(d.spans, index);
        ReconciledProper(Without(d.spans, index),
                         DiffOf(d.text, Spliced(d.text, d.spans[index].start, d.spans[index].end, [])));
      }
    case _ =>
  }

  ghost function Run(d: Draft, evs: seq<Event>): (r: Draft)
    requires Proper(d.spans)
    ensures Proper(r.spans)
    decreases |evs|
  {
    if evs == [] then d
    else
      StepProper(d, evs[0]);
      Run(Step(d, evs[0]), evs[1..])
  }

  /** The condition holds of every event of the run where it happens. */
  ghost predicate Throughout(holds: (Draft, Event) -> bool, d: Draft, evs: seq<Event>)
    requires Proper(d.spans)
    decreases |evs|
  {
    evs == [] || (StepProper(d, evs[0]); holds(d, evs[0]) && Throughout(holds, Step(d, evs[0]), evs[1..]))
  }

  /** A pick or a token click finds the box in step with the spans, and a selection lies within the text. */
  predicate Attended(d: Draft, ev: Event) {
    match ev
    case Mentioned(start, end, _, _) => InSync(d) && start <= end <= |d.text|
    case TokenRemoved(_) => InSync(d)
    case _ => true
  }

  /** In addition a pick is clear of the mentions already there. */
  ghost predicate Sound(d: Draft, ev: Event) {
    Attended(d, ev) && (ev.Mentioned? ==> PickClear(d, ev.start, ev.end, ev.name))
  }

  /** In addition a pick is made at a caret that no `@` follows. */
  predicate Plain(d: Draft, ev: Event) {
    Attended(d, ev) && (ev.Mentioned? ==> ev.start == ev.end && (ev.start < |d.text| ==> d.text[ev.start] != AT))
  }

  lemma {:induction false} ThroughoutWeakens(p: (Draft, Event) -> bool, q: (Draft, Event) -> bool, d: Draft,
      evs: seq<Event>)
    requires Proper(d.spans) && Throughout(p, d, evs) && forall e, ev :: p(e, ev) ==> q(e, ev)
    ensures Throughout(q, d, evs)
    decreases |evs|
  {
    if evs != [] {
      StepProper(d, evs[0]);
      ThroughoutWeakens(p, q, Step(d, evs[0]), evs[1..]);
    }
  }

  lemma StepInSync(d: Draft, ev: Event)
    requires Proper(d.spans)
    ensures InSync(d) && !ev.Scheduled? ==> InSync(Step(d, ev))
    ensures ev.Typed? || ev.Opened? ==> InSync(Step(d, ev))
  {
  }

  /** Every event that is sound keeps the spans ordered; of attended picks, only those do. */
  lemma StepValid(d: Draft, ev: Event)
    requires Valid(d) && Attended(d, ev)
    ensures Valid(Step(d, ev)) <==> Sound(d, ev)
  {
    match ev
    case Typed(now) => EditedKeepsOrder(d.spans, d.lastText, now);
    case Mentioned(start, end, target, name) => PickedValid(d, start, end, target, name);
    case TokenRemoved(index) => TokenRemovedValid(d, index);
    case _ =>
  }

  /** The members picked in a run, each with the name shown for it. */
  function PicksOf(evs: seq<Event>): set<(string, Text)> {
    set ev | ev in evs && ev.Mentioned? :: (ev.target, ev.name)
  }

  ghost predicate Covers(t: Text, s: Span, name: Text) {
    s.start <= s.end <= |t| && t[s.start..s.end] == Visible(name)
  }

  /** Every span shows the name that its member was picked under. */
  ghost predicate Labelled(d: Draft, picks: set<(string, Text)>) {
    forall s :: s in d.spans ==> exists name :: (s.target, name) in picks && Covers(d.lastText, s, name)
  }

  lemma EditedLabelled(spans: seq<Span>, was: Text, now: Text, picks: set<(string, Text)>)
    requires Proper(spans) && Labelled(Draft(was, was, spans), picks)
    ensures Labelled(Draft(now, now, Edited(spans, was, now)), picks)
  {
    if was != now {
      var e := DiffOf(was, now);
      ReconciledMembers(spans, e);
      forall r | r in Reconciled(spans, e) ensures exists name :: (r.target, name) in picks && Covers(now, r, name) {
        var s :| s in spans && Survives(s, e) && r == Moved(s, e);
        var name :| (s.target, name) in picks && Covers(was, s, name);
        MovedCovers(s, was, now);
        assert Covers(now, r, name);
      }
    }
  }

  lemma PickedLabelled(d: Draft, start: nat, end: nat, target: string, name: Text, picks: set<(string, Text)>)
    requires start <= end <= |d.text| && Proper(d.spans) && InSync(d) && Labelled(d, picks)
    ensures Labelled(Picked(d, start, end, target, name), picks + {(target, name)})
  {
    var r := Replaced(d, start, end, Visible(name));
    EditedLabelled(d.spans, d.text, r.text, picks);
    SplicedAt(d.text, start, end, Visible(name));
    SortMembers(AtMost, r.spans + [Added(start, target, name)]);
    var all := picks + {(target, name)};
    forall s | s in Picked(d, start, end, target, name).spans
      ensures exists n :: (s.target, n) in all && Covers(r.text, s, n)
    {
      if s in r.spans {
        var n :| (s.target, n) in picks && Covers(r.text, s, n);
        assert (s.target, n) in all;
      } else {
        assert (s.target, name) in all && Covers(r.text, s, name);
      }
    }
  }

  lemma StepLabelled(d: Draft, ev: Event, picks: set<(string, Text)>)
    requires Proper(d.spans) && Attended(d, ev) && Labelled(d, picks)
    ensures Labelled(Step(d, ev), picks + PicksOf([ev]))
  {
    match ev
    case Typed(now) =>
      EditedLabelled(d.spans, d.lastText, now, picks);
      assert PicksOf([ev]) == {};
    case Mentioned(start, end, target, name) =>
      PickedLabelled(d, start, end, target, name, picks);
      assert ev in [ev];
      assert PicksOf([ev]) == {(target, name)};
    case TokenRemoved(index) =>
      assert PicksOf([ev]) == {};
      if index < |d.spans| {
        var x, others := d.spans[index], Without(d.spans, index);
        WithoutMembers(d.spans, index);
        EditedLabelled(others, d.text, Spliced(d.text, x.start, x.end, []), picks);
      }
    case _ => assert PicksOf([ev]) == {};
  }

  /**
   Over every attended run, whatever is picked where, every span lies within the
   text and covers exactly the `@name` that its member was picked under.
   */
  lemma {:induction false} RunCovers(d: Draft, evs: seq<Event>, picks: set<(string, Text)>)
    requires Proper(d.spans) && Throughout(Attended, d, evs) && Labelled(d, picks)
    ensures Labelled(Run(d, evs), picks + PicksOf(evs))
    decreases |evs|
  {
    if evs == [] {
      assert picks + PicksOf(evs) == picks;
    } else {
      StepProper(d, evs[0]);
      StepLabelled(d, evs[0], picks);
      RunCovers(Step(d, evs[0]), evs[1..], picks + PicksOf([evs[0]]));
      assert evs == [evs[0]] + evs[1..];
      assert PicksOf(evs) == PicksOf([evs[0]]) + PicksOf(evs[1..]);
    }
  }

  /** Over every run whose picks are clear the spans stay ordered, disjoint and in bounds. */
  lemma {:induction false} RunKeeps(d: Draft, evs: seq<Event>)
    requires Valid(d) && Throughout(Sound, d, evs)
    ensures Valid(Run(d, evs))
    decreases |evs|
  {
    if evs != [] {
      StepProper(d, evs[0]);
      StepValid(d, evs[0]);
      RunKeeps(Step(d, evs[0]), evs[1..]);
    }
  }

  /** Over every attended run the first pick that is not clear is where the order is lost. */
  lemma RunBreaksAtPick(d: Draft, evs: seq<Event>, ev: Event)
    requires Valid(d) && Throughout(Sound, d, evs) && Attended(Run(d, evs), ev)
    ensures Valid(Step(Run(d, evs), ev)) <==> Sound(Run(d, evs), ev)
  {
    RunKeeps(d, evs);
    StepValid(Run(d, evs), ev);
  }

  /** Typing, token clicks and picks at a caret that no `@` follows are sound throughout. */
  lemma {:induction false} PlainIsSound(d: Draft, evs: seq<Event>)
    requires Valid(d) && Throughout(Plain, d, evs)
    ensures Throughout(Sound, d, evs)
    decreases |evs|
  {
    if evs != [] {
      var ev := evs[0];
      StepProper(d, ev);
      if ev.Mentioned? {
        PickedBeforeOtherText(d, ev.start, ev.target, ev.name);
        PickedValid(d, ev.start, ev.end, ev.target, ev.name);
      }
      StepValid(d, ev);
      PlainIsSound(Step(d, ev), evs[1..]);
    }
  }

  /** Without scheduling the box is always in step, so picks and clicks are attended wherever they happen. */
  predicate Unscheduled(evs: seq<Event>) { forall ev :: ev in evs ==> !ev.Scheduled? }

  lemma {:induction false} UnscheduledInSync(d: Draft, evs: seq<Event>)
    requires Proper(d.spans) && InSync(d) && Unscheduled(evs)
    ensures InSync(Run(d, evs))
    decreases |evs|
  {
    if evs != [] {
      StepProper(d, evs[0]);
      StepInSync(d, evs[0]);
      UnscheduledInSync(Step(d, evs[0]), evs[1..]);
    }
  }

  /** Typing and token clicks alone need no condition at all. */
  lemma {:induction false} TypingIsSound(d: Draft, evs: seq<Event>)
    requires Valid(d) && InSync(d)
    requires forall ev :: ev in evs ==> ev.Typed? || ev.TokenRemoved?
    ensures Throughout(Sound, d, evs)
    decreases |evs|
  {
    if evs != [] {
      StepProper(d, evs[0]);
      StepInSync(d, evs[0]);
      StepValid(d, evs[0]);
      TypingIsSound(Step(d, evs[0]), evs[1..]);
    }
  }

  /**
   Scheduling empties the box behind the draft's back. A token click then leaves
   the spans within the text if and only if there was only that one to remove.
   */
  lemma ScheduledThenToken(d: Draft, index: nat)
    requires Valid(d) && index < |d.spans|
    ensures Valid(Step(Step(d, Scheduled), TokenRemoved(index))) <==> |d.spans| == 1
  {
    var others := Without(d.spans, index);
    WithoutMembers(d.spans, index);
    assert Spliced([], d.spans[index].start, d.spans[index].end, []) == [];
    assert others != [] ==> others[0] in others;
  }

  /**
   A pick into the emptied box is diffed against no text at all: it pushes every
   mention beyond the text, so the spans stay within it if and only if there
   were none.
   */
  lemma ScheduledThenPick(d: Draft, target: string, name: Text)
    requires Valid(d)
    ensures Valid(Step(Step(d, Scheduled), Mentioned(0, 0, target, name))) <==> d.spans == []
  {
    var emptied := Step(d, Scheduled);
    PickedIntoEmpty(emptied, target, name);
    if d.spans == [] {
      PickedOnce(target, name);
      PickedIntoEmpty(EMPTY, target, name);
    } else {
      var v, rest := Visible(name), Reconciled(d.spans, DiffOf([], Visible(name)));
      PushedBeyond(d.spans, v);
      var r :| r in rest && r.end > |v|;
      SortMembers(AtMost, rest + [Added(0, target, name)]);
      assert r in rest + [Added(0, target, name)];
      assert r in Picked(emptied, 0, 0, target, name).spans;
    }
  }

  lemma PickedIntoEmpty(d: Draft, target: string, name: Text)
    requires d.text == [] && Proper(d.spans)
    ensures var v := Visible(name);
            Picked(d, 0, 0, target, name) ==
            Draft(v, v, Sort(AtMost, Reconciled(d.spans, DiffOf([], v)) + [Added(0, target, name)]))
  {
    assert Spliced([], 0, 0, Visible(name)) == Visible(name);
  }

  lemma PushedBeyond(spans: seq<Span>, v: Text)
    requires spans != [] && Proper(spans)
    ensures exists r :: r in Reconciled(spans, DiffOf([], v)) && r.end > |v|
  {
    var e, s := DiffOf([], v), spans[0];
    assert e == Edit(0, 0, |v|);
    ReconciledMembers(spans, e);
    assert s in spans && Survives(s, e) && Moved(s, e).end > |v|;
  }

  /** So with two mentions a span is left beyond the text. */
  lemma ScheduledBreaksTokens()
    ensures var d := Draft([AT, 0x62, 0x20, AT, 0x62], [AT, 0x62, 0x20, AT, 0x62], [Span(0, 2, "a"), Span(3, 5, "b")]);
            Valid(d) && !Valid(Step(Step(d, Scheduled), TokenRemoved(0)))
  {
  }
}
