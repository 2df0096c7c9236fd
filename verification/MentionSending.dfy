/** What the composer sends: ranges of octets, under a review of what the group supports. */
module MentionSending {
  import opened MentionRuns
  import opened Mentions
  import opened Sequences
  import opened TextDiff
  import opened Unicode
  import opened Wrappers

  /** A mention as it is sent: a range of octets of the UTF-8 form of the text. */
  datatype Range = Range(start: nat, end: nat, target: string)

  function RangeOf(t: Text, s: Span): Range {
    Range(Utf8Offset(t, Min(s.start, |t|)), Utf8Offset(t, Min(s.end, |t|)), s.target)
  }

  function Ranges(t: Text, spans: seq<Span>): (r: seq<Range>)
    ensures |r| == |spans|
    ensures forall i :: 0 <= i < |r| ==> r[i] == RangeOf(t, spans[i])
  {
    seq(|spans|, i requires 0 <= i < |spans| => RangeOf(t, spans[i]))
  }

  /** A span that covers a well-formed name in well-formed text lies on character boundaries. */
  lemma CoveredBoundaries(t: Text, s: Span, name: Text)
    requires WellFormed(t) && WellFormed(name) && Covers(t, s, name)
    ensures Boundary(t, s.start) && Boundary(t, s.end)
  {
    var v := t[s.start..s.end];
    assert v[0] == AT && t[s.start] == v[0];
    if name != [] {
      assert v[|name|] == name[|name| - 1] && t[s.end - 1] == v[|name|];
      assert Paired(name, |name| - 1);
    } else {
      assert t[s.end - 1] == AT;
    }
  }

  /** The range lies on character boundaries, and its octets are those of the `@name` its member was picked under. */
  ghost predicate Selects(t: Text, r: Range, picks: set<(string, Text)>) {
    && r.start < r.end <= |Encode(t)|
    && (exists i: nat :: Names(t, r.start, i)) && (exists i: nat :: Names(t, r.end, i))
    && exists name :: (r.target, name) in picks && Encode(t)[r.start..r.end] == Encode(Visible(name))
  }

  lemma RangeSelects(t: Text, s: Span, name: Text, picks: set<(string, Text)>)
    requires WellFormed(t) && (s.target, name) in picks && WellFormed(name) && Covers(t, s, name)
    ensures Selects(t, RangeOf(t, s), picks) && Boundary(t, s.start) && Boundary(t, s.end)
  {
    CoveredBoundaries(t, s, name);
    SliceEncodes(t, s.start, s.end);
    OffsetsIncrease(t, s.start, s.end);
    assert Names(t, Utf8Offset(t, s.start), s.start) && Names(t, Utf8Offset(t, s.end), s.end);
  }

  /** The text and every name are valid Unicode, and the box is in step: what is sent is what is seen. */
  ghost predicate Sendable(d: Draft, picks: set<(string, Text)>) {
    InSync(d) && WellFormed(d.text) && forall p :: p in picks ==> WellFormed(p.1)
  }

  lemma RangesSelect(d: Draft, picks: set<(string, Text)>)
    requires Sendable(d, picks) && Labelled(d, picks)
    ensures forall r :: r in Ranges(d.text, d.spans) ==> Selects(d.text, r, picks)
    ensures forall s :: s in d.spans ==> s.end <= |d.text| && Boundary(d.text, s.start) && Boundary(d.text, s.end)
  {
    forall s | s in d.spans
      ensures s.end <= |d.text| && Boundary(d.text, s.start) && Boundary(d.text, s.end)
      ensures Selects(d.text, RangeOf(d.text, s), picks)
    {
      var name :| (s.target, name) in picks && Covers(d.text, s, name);
      assert WellFormed((s.target, name).1);
      RangeSelects(d.text, s, name, picks);
    }
    forall r | r in Ranges(d.text, d.spans) ensures Selects(d.text, r, picks) {
      var i :| 0 <= i < |d.spans| && r == Ranges(d.text, d.spans)[i];
      assert d.spans[i] in d.spans;
    }
  }

  lemma RangesOrdered(d: Draft, i: nat, j: nat)
    requires Valid(d) && InSync(d) && i < j < |d.spans|
    requires Boundary(d.text, d.spans[i].end) && Boundary(d.text, d.spans[j].start)
    ensures RangeOf(d.text, d.spans[i]).end <= RangeOf(d.text, d.spans[j]).start
  {
    assert d.spans[i] in d.spans && d.spans[j] in d.spans;
    SliceEncodes(d.text, d.spans[i].end, d.spans[j].start);
  }

  /**
   What is sent after any attended run whose names are well formed: each range
   lies on character boundaries and selects exactly the octets of the name it
   links, wherever the picks were made.
   */
  lemma SentCovers(evs: seq<Event>)
    requires Throughout(Attended, EMPTY, evs) && Sendable(Run(EMPTY, evs), PicksOf(evs))
    ensures var d := Run(EMPTY, evs); forall r :: r in Ranges(d.text, d.spans) ==> Selects(d.text, r, PicksOf(evs))
  {
    RunCovers(EMPTY, evs, {});
    assert {} + PicksOf(evs) == PicksOf(evs);
    RangesSelect(Run(EMPTY, evs), PicksOf(evs));
  }

  /** If every pick was clear where it was made, the ranges are also in order and none reaches into the next. */
  lemma SentAfterRun(evs: seq<Event>)
    requires Throughout(Sound, EMPTY, evs) && Sendable(Run(EMPTY, evs), PicksOf(evs))
    ensures var d := Run(EMPTY, evs);
            var sent := Ranges(d.text, d.spans);
            && (forall r :: r in sent ==> Selects(d.text, r, PicksOf(evs)))
            && (forall i, j :: 0 <= i < j < |sent| ==> sent[i].end <= sent[j].start)
  {
    var d := Run(EMPTY, evs);
    ThroughoutWeakens(Sound, Attended, EMPTY, evs);
    RunCovers(EMPTY, evs, {});
    assert {} + PicksOf(evs) == PicksOf(evs);
    RangesSelect(d, PicksOf(evs));
    RunKeeps(EMPTY, evs);
    forall i, j | 0 <= i < j < |d.spans| ensures RangeOf(d.text, d.spans[i]).end <= RangeOf(d.text, d.spans[j]).start {
      assert d.spans[i] in d.spans && d.spans[j] in d.spans;
      RangesOrdered(d, i, j);
    }
  }

  /** In particular after any run of typing, token clicks and picks at a caret that no `@` follows. */
  lemma SentAfterPlainRun(evs: seq<Event>)
    requires Throughout(Plain, EMPTY, evs) && Unscheduled(evs)
    requires WellFormed(Run(EMPTY, evs).text) && forall p :: p in PicksOf(evs) ==> WellFormed(p.1)
    ensures var d := Run(EMPTY, evs);
            var sent := Ranges(d.text, d.spans);
            && (forall r :: r in sent ==> Selects(d.text, r, PicksOf(evs)))
            && (forall i, j :: 0 <= i < j < |sent| ==> sent[i].end <= sent[j].start)
  {
    PlainIsSound(EMPTY, evs);
    UnscheduledInSync(EMPTY, evs);
    SentAfterRun(evs);
  }

  // ------------------------------------------------- while the review runs

  /** The part of the text that the range of a span is taken from. */
  function Shown(t: Text, s: Span): Text
    requires s.start <= s.end
  {
    t[Min(s.start, |t|)..Min(s.end, |t|)]
  }

  /** The text shows a picked name of the span's member where the span stands. */
  ghost predicate ShowsPick(t: Text, s: Span, picks: set<(string, Text)>)
    requires s.start <= s.end
  {
    exists name :: (s.target, name) in picks && Shown(t, s) == Visible(name)
  }

  /** A range selects a picked name if and only if the text it is taken from shows that name. */
  lemma SelectsShown(t: Text, s: Span, picks: set<(string, Text)>)
    requires WellFormed(t) && s.start <= s.end && forall p :: p in picks ==> WellFormed(p.1)
    ensures Selects(t, RangeOf(t, s), picks) <==> ShowsPick(t, s, picks)
  {
    var i, j := Min(s.start, |t|), Min(s.end, |t|);
    if name :| (s.target, name) in picks && Shown(t, s) == Visible(name) {
      assert WellFormed((s.target, name).1);
      RangeSelects(t, Span(i, j, s.target), name, picks);
    }
    if Selects(t, RangeOf(t, s), picks) { ShownIfSelected(t, s, picks); }
  }

  lemma ShownIfSelected(t: Text, s: Span, picks: set<(string, Text)>)
    requires WellFormed(t) && s.start <= s.end && forall p :: p in picks ==> WellFormed(p.1)
    requires Selects(t, RangeOf(t, s), picks)
    ensures ShowsPick(t, s, picks)
  {
    var i, j, r := Min(s.start, |t|), Min(s.end, |t|), RangeOf(t, s);
    var k: nat :| Names(t, r.start, k);
    OffsetOfBoundary(t, i, k);
    var l: nat :| Names(t, r.end, l);
    OffsetOfBoundary(t, j, l);
    var name :| (s.target, name) in picks && Encode(t)[r.start..r.end] == Encode(Visible(name));
    assert WellFormed((s.target, name).1);
    SliceEncodes(t, i, j);
    WellFormedSlice(t, i, j);
    VisibleWellFormed(name);
    EncodeInjective(t[i..j], Visible(name));
  }

  lemma VisibleWellFormed(name: Text)
    requires WellFormed(name)
    ensures WellFormed(Visible(name))
  {
    forall i: nat | i < |Visible(name)| ensures Paired(Visible(name), i) {
      if i > 0 { assert Paired(name, i - 1); }
    }
  }

  /**
   The text is taken when the form is submitted, the spans only after the backend
   has answered. Every range then selects the name it links if and only if the
   text taken shows a picked name wherever a span stands by then.
   */
  lemma SentLater(taken: Text, d: Draft, picks: set<(string, Text)>)
    requires WellFormed(taken) && Proper(d.spans) && forall p :: p in picks ==> WellFormed(p.1)
    ensures (forall r :: r in Ranges(taken, d.spans) ==> Selects(taken, r, picks)) <==>
            (forall s :: s in d.spans ==> ShowsPick(taken, s, picks))
  {
    var sent := Ranges(taken, d.spans);
    forall s | s in d.spans
      ensures Selects(taken, RangeOf(taken, s), picks) <==> ShowsPick(taken, s, picks)
    {
      SelectsShown(taken, s, picks);
    }
    forall r | r in sent ensures exists s :: s in d.spans && r == RangeOf(taken, s) {
      var i :| 0 <= i < |sent| && sent[i] == r;
      assert d.spans[i] in d.spans;
    }
    forall s | s in d.spans ensures RangeOf(taken, s) in sent {
      var i :| 0 <= i < |d.spans| && d.spans[i] == s;
      assert sent[i] == RangeOf(taken, s);
    }
  }

  // ---------------------------------------------- what was typed since then

  function TypedEvents(texts: seq<Text>): seq<Event> {
    if texts == [] then [] else [Typed(texts[0])] + TypedEvents(texts[1..])
  }

  /** Where a span stands after the box showed the texts one after the other, unless an edit reached into it. */
  function Track(s: Span, was: Text, texts: seq<Text>): (m: Option<Span>)
    requires s.start < s.end
    ensures m.Some? ==> m.value == Span(m.value.start, m.value.start + (s.end - s.start), s.target)
    decreases |texts|
  {
    if texts == [] then Some(s)
    else if texts[0] == was then Track(s, was, texts[1..])
    else if Survives(s, DiffOf(was, texts[0])) then Track(Moved(s, DiffOf(was, texts[0])), texts[0], texts[1..])
    else None
  }

  /** After typing, the draft holds exactly the tracked spans. */
  lemma {:induction false} TrackedMembers(d: Draft, texts: seq<Text>)
    requires Proper(d.spans)
    ensures forall m :: m in Run(d, TypedEvents(texts)).spans <==>
                        exists s :: s in d.spans && Track(s, d.lastText, texts) == Some(m)
    decreases |texts|
  {
    if texts == [] {
      assert forall s :: s in d.spans ==> Track(s, d.lastText, texts) == Some(s);
    } else {
      var ev, now := Typed(texts[0]), texts[0];
      var next := Step(d, ev);
      StepProper(d, ev);
      assert TypedEvents(texts)[1..] == TypedEvents(texts[1..]);
      TrackedMembers(next, texts[1..]);
      TrackedOnce(d, now, texts[1..]);
    }
  }

  lemma TrackedOnce(d: Draft, now: Text, texts: seq<Text>)
    requires Proper(d.spans)
    ensures var next := Step(d, Typed(now));
            && Proper(next.spans)
            && forall m :: (exists s :: s in next.spans && Track(s, now, texts) == Some(m)) <==>
                           (exists s :: s in d.spans && Track(s, d.lastText, [now] + texts) == Some(m))
  {
    var next, e := Step(d, Typed(now)), DiffOf(d.lastText, now);
    StepProper(d, Typed(now));
    var all := [now] + texts;
    assert all[0] == now && all[1..] == texts;
    if now != d.lastText {
      ReconciledMembers(d.spans, e);
      forall m | exists s :: s in next.spans && Track(s, now, texts) == Some(m)
        ensures exists s :: s in d.spans && Track(s, d.lastText, all) == Some(m)
      {
        var r :| r in next.spans && Track(r, now, texts) == Some(m);
        var s :| s in d.spans && Survives(s, e) && r == Moved(s, e);
        assert Track(s, d.lastText, all) == Some(m);
      }
      forall m | exists s :: s in d.spans && Track(s, d.lastText, all) == Some(m)
        ensures exists s :: s in next.spans && Track(s, now, texts) == Some(m)
      {
        var s :| s in d.spans && Track(s, d.lastText, all) == Some(m);
        assert Survives(s, e) && Moved(s, e) in next.spans;
      }
    }
  }

  /** Every mention that the typing moved came to stand, in the text of the draft, on a picked name of its member. */
  ghost predicate Undisturbed(d: Draft, texts: seq<Text>, picks: set<(string, Text)>)
    requires Proper(d.spans)
  {
    forall s :: s in d.spans ==>
      var m := Track(s, d.text, texts);
      m.Some? && m.value.start != s.start ==> ShowsPick(d.text, m.value, picks)
  }

  lemma LabelledShows(d: Draft, s: Span, picks: set<(string, Text)>)
    requires InSync(d) && Labelled(d, picks) && s in d.spans && s.start < s.end
    ensures ShowsPick(d.text, s, picks)
  {
    var name :| (s.target, name) in picks && Covers(d.lastText, s, name);
    assert Shown(d.text, s) == Visible(name);
  }

  lemma UndisturbedShows(d: Draft, texts: seq<Text>, picks: set<(string, Text)>)
    requires Proper(d.spans) && InSync(d) && Labelled(d, picks)
    ensures Undisturbed(d, texts, picks) <==>
            forall m :: m in Run(d, TypedEvents(texts)).spans ==> ShowsPick(d.text, m, picks)
  {
    var later := Run(d, TypedEvents(texts));
    TrackedMembers(d, texts);
    if Undisturbed(d, texts, picks) {
      forall m | m in later.spans ensures ShowsPick(d.text, m, picks) {
        var s :| s in d.spans && Track(s, d.lastText, texts) == Some(m);
        LabelledShows(d, s, picks);
      }
    }
    if forall m :: m in later.spans ==> ShowsPick(d.text, m, picks) {
      forall s | s in d.spans && Track(s, d.text, texts).Some?
        ensures ShowsPick(d.text, Track(s, d.text, texts).value, picks)
      {
        assert Track(s, d.text, texts).value in later.spans;
      }
    }
  }

  /**
   With the text of the draft when the form was submitted, and the spans as they
   stand once more has been typed, every range is right if and only if the typing
   left the mentions undisturbed.
   */
  lemma SentAfterTyping(d: Draft, texts: seq<Text>, picks: set<(string, Text)>)
    requires Proper(d.spans) && Sendable(d, picks) && Labelled(d, picks)
    ensures (forall r :: r in Ranges(d.text, Run(d, TypedEvents(texts)).spans) ==> Selects(d.text, r, picks)) <==>
            Undisturbed(d, texts, picks)
  {
    SentLater(d.text, Run(d, TypedEvents(texts)), picks);
    UndisturbedShows(d, texts, picks);
  }

  /** Nothing typed since then: every range is right. */
  lemma UnchangedSends(d: Draft, picks: set<(string, Text)>)
    requires Proper(d.spans) && Sendable(d, picks) && Labelled(d, picks)
    ensures forall r :: r in Ranges(d.text, d.spans) ==> Selects(d.text, r, picks)
  {
    SentAfterTyping(d, [], picks);
    assert Run(d, TypedEvents([])) == d;
  }

  /** Every change was behind the span. */
  predicate TypedBehind(s: Span, was: Text, texts: seq<Text>)
    decreases |texts|
  {
    texts == [] || ((texts[0] == was || s.end <= DiffOf(was, texts[0]).prefix) && TypedBehind(s, texts[0], texts[1..]))
  }

  lemma {:induction false} TrackBehind(s: Span, was: Text, texts: seq<Text>)
    requires s.start < s.end && TypedBehind(s, was, texts)
    ensures Track(s, was, texts) == Some(s)
    decreases |texts|
  {
    if texts != [] { TrackBehind(s, texts[0], texts[1..]); }
  }

  /** Whatever is typed behind every mention does no harm. */
  lemma TypedBehindSends(d: Draft, texts: seq<Text>, picks: set<(string, Text)>)
    requires Proper(d.spans) && Sendable(d, picks) && Labelled(d, picks)
    requires forall s :: s in d.spans ==> TypedBehind(s, d.text, texts)
    ensures forall r :: r in Ranges(d.text, Run(d, TypedEvents(texts)).spans) ==> Selects(d.text, r, picks)
  {
    forall s | s in d.spans ensures Track(s, d.text, texts) == Some(s) { TrackBehind(s, d.text, texts); }
    SentAfterTyping(d, texts, picks);
  }

  lemma SpaceInFront(t: Text, x: Span)
    requires t != [] && t[0] == AT && x.start < x.end
    ensures Step(Draft(t, t, [x]), Typed([0x20] + t)).spans == [Span(x.start + 1, x.end + 1, x.target)]
  {
    var e := DiffOf(t, [0x20] + t);
    assert e == Edit(0, 0, 1) by {
      assert t == [] + t && [0x20] + t == [] + [0x20] + t;
      InsertionDiff([], [0x20], t);
    }
    assert Reconciled([x], e) == [Moved(x, e)] + Reconciled([], e) by { assert [x][1..] == []; }
  }

  /** A space typed in front of the one mention while the backend answers: the range is one character off. */
  lemma TypedWhileReviewed(target: string)
    ensures var b: Text := [0x62];
            var taken := Visible(b);
            var d := Step(Draft(taken, taken, [Span(0, 2, target)]), Typed([0x20] + taken));
            && d.spans == [Span(1, 3, target)]
            && !exists r :: r in Ranges(taken, d.spans) && Selects(taken, r, {(target, b)})
  {
    var b: Text := [0x62];
    var taken := Visible(b);
    var d := Step(Draft(taken, taken, [Span(0, 2, target)]), Typed([0x20] + taken));
    SpaceInFront(taken, Span(0, 2, target));
    forall r | r in Ranges(taken, d.spans) ensures !Selects(taken, r, {(target, b)}) {
      assert r == RangeOf(taken, Span(1, 3, target));
      assert |Shown(taken, Span(1, 3, target))| == 1;
      SelectsShown(taken, Span(1, 3, target), {(target, b)});
    }
  }
}
