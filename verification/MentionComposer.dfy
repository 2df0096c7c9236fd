/** The composer itself: its mutable draft, its handlers, and what it sends. */
module MentionComposer {
  import opened MentionReview
  import opened MentionRuns
  import opened MentionSending
  import opened Mentions
  import opened Sorting
  import opened TextDiff
  import opened Unicode
  import opened Wrappers

  // --------------------------------------------------------- the composer

  method ReconcileSpan(span: Span, e: Edit) returns (r: Option<Span>)
    requires span.start < span.end && e.prefix <= e.oldEnd
    ensures r == if Survives(span, e) then Some(Moved(span, e)) else None
  {
    var delta := e.newEnd - e.oldEnd;
    if e.prefix == e.oldEnd {
      if e.prefix <= span.start { return Some(span.(start := span.start + delta, end := span.end + delta)); }
      if e.prefix >= span.end { return Some(span); }
      return None;
    }
    if e.oldEnd <= span.start { return Some(span.(start := span.start + delta, end := span.end + delta)); }
    if e.prefix >= span.end { return Some(span); }
    return None;
  }

  class Composer {
    var value: Text
    var lastText: Text
    var spans: seq<Span>
    var suppressInput: bool
    var group: Option<string>
    var capability: Option<Capability>

    ghost predicate Ready()
      reads this
    {
      !suppressInput && Proper(spans)
    }

    ghost function State(): Draft
      reads this
    {
      Draft(value, lastText, spans)
    }

    function Reviewed(): Review
      reads this
    {
      Review(group, capability)
    }

    constructor ()
      ensures Ready() && State() == EMPTY && Reviewed() == Review(None, None)
    {
      value, lastText, spans, suppressInput, group, capability := [], [], [], false, None, None;
    }

    method ReconcileMentionEdit(oldText: Text, newText: Text) returns (removed: nat)
      requires Ready()
      modifies this`spans
      ensures Ready() && spans == Edited(old(spans), oldText, newText)
      ensures removed == |old(spans)| - |spans|
    {
      removed := 0;
      if suppressInput || oldText == newText { return; }
      var e := Diff(oldText, newText);
      var kept: seq<Span> := [];
      for i := 0 to |spans|
        invariant spans == old(spans)
        invariant kept + Reconciled(spans[i..], e) == Reconciled(spans, e)
        invariant removed == i - |kept|
      {
        assert spans[i] in spans && spans[i..][0] == spans[i] && spans[i..][1..] == spans[i + 1..];
        var r := ReconcileSpan(spans[i], e);
        if r.Some? {
          kept := kept + [r.value];
        } else {
          removed := removed + 1;
        }
      }
      ReconciledProper(spans, e);
      spans := kept;
    }

    method ReplaceDraftRange(start: nat, end: nat, replacement: Text) returns (caret: nat)
      requires Ready()
      modifies this`value, this`lastText, this`spans, this`suppressInput
      ensures Ready() && State() == Replaced(old(State()), start, end, replacement)
      ensures caret == start + |replacement|
    {
      var oldText := value;
      var newText := Spliced(oldText, start, end, replacement);
      var _ := ReconcileMentionEdit(oldText, newText);
      suppressInput := true;
      value := newText;
      lastText := newText;
      suppressInput := false;
      caret := start + |replacement|;
    }

    method InsertMention(selectionStart: nat, selectionEnd: nat, peer: string, displayName: Text)
      requires Ready()
      modifies this`value, this`lastText, this`spans, this`suppressInput
      ensures Ready() && State() == Step(old(State()), Mentioned(selectionStart, selectionEnd, peer, displayName))
    {
      StepProper(State(), Mentioned(selectionStart, selectionEnd, peer, displayName));
      var caret := ReplaceDraftRange(selectionStart, selectionEnd, Visible(displayName));
      spans := spans + [Span(selectionStart, caret, peer)];
      spans := Sort(AtMost, spans);
    }

    method RemoveToken(index: nat)
      requires Ready() && index < |spans|
      modifies this`value, this`lastText, this`spans, this`suppressInput
      ensures Ready() && State() == Step(old(State()), TokenRemoved(index))
    {
      var span := spans[index];
      WithoutMembers(spans, index);
      spans := spans[..index] + spans[index + 1..];
      var _ := ReplaceDraftRange(span.start, span.end, []);
    }

    method OnInput(newText: Text)
      requires Ready()
      modifies this`value, this`lastText, this`spans, this`suppressInput
      ensures Ready() && State() == Step(old(State()), Typed(newText))
    {
      value := newText;
      var _ := ReconcileMentionEdit(lastText, newText);
      lastText := newText;
    }

    method OpenMentionPicker(about: string, answer: Capability)
      modifies this`group, this`capability
      ensures Reviewed() == ReviewNext(old(Reviewed()), PickerAnswered(about, answer))
    {
      capability := Some(answer);
      group := Some(about);
    }

    method RefreshMentionReview(about: string, answer: Capability)
      modifies this`capability
      ensures Reviewed() == ReviewNext(old(Reviewed()), RefreshAnswered(about, answer))
    {
      if capability.None? || answer.reviewToken != capability.value.reviewToken { capability := Some(answer); }
    }

    /** The draft is emptied, in step with the box, and what was reviewed is forgotten. */
    method ResetMentionDraft(kind: Kind, current: Option<string>)
      modifies this`group, this`capability, this`spans, this`lastText, this`suppressInput
      ensures Ready() && State() == Draft(old(value), old(value), [])
      ensures Reviewed() == ReviewNext(old(Reviewed()), Left(if kind.Group? then current else None))
    {
      group := if kind.Group? then current else None;
      capability := None;
      spans, lastText, suppressInput := [], value, false;
    }

    /** A form that sends something leaves an empty draft; any other leaves it as it was. */
    method BeginSubmit(kind: Kind, current: Option<string>, lifetime: nat, trim: Text -> Text) returns (b: Begun)
      requires Ready()
      modifies this
      ensures b == Begin(old(State()), kind, current, lifetime, trim)
      ensures Ready() && State() == if b.Sends? then EMPTY else old(State())
      ensures !b.Sends? ==> Reviewed() == old(Reviewed())
    {
      var visible := value;
      if trim(visible) == [] || current.None? { return Idle; }
      if lifetime > 0 {
        if kind.Note? {
          b := Sends(Direct(kind, current.value, trim(visible)));
        } else {
          b := Sends(Disappearing(kind, current.value, trim(visible), lifetime));
        }
      } else if kind.Group? && spans != [] {
        var unpaired := HasUnpairedSurrogate(visible);
        return if unpaired then Invalid else Awaiting(visible);
      } else {
        b := Sends(Direct(kind, current.value, trim(visible)));
      }
      value := [];
      ResetMentionDraft(kind, current);
    }

    method LinkedRanges(taken: Text) returns (rows: seq<Range>)
      ensures rows == Ranges(taken, spans)
    {
      rows := [];
      for i := 0 to |spans|
        invariant rows == Ranges(taken, spans)[..i]
      {
        rows := rows + [RangeOf(taken, spans[i])];
      }
      assert rows == Ranges(taken, spans);
    }

    /** With the text taken then, an answer about the group asked about then, and everything else as it is by now. */
    method FinishSubmit(about: string, answer: Capability, current: string, taken: Text, confirmed: bool)
      returns (f: Finished)
      requires Ready()
      modifies this
      ensures var deed := SubmitAnswered(about, answer, current, taken, old(spans), confirmed);
              && f == Outcome(old(Reviewed()), deed)
              && Reviewed() == ReviewNext(old(Reviewed()), deed)
      ensures Ready() && State() == if f.Sent? then EMPTY else old(State())
    {
      if group != Some(current) || capability.None? || answer.reviewToken != capability.value.reviewToken {
        capability := Some(answer);
        group := Some(current);
        return ShownAgain;
      }
      if !answer.supported {
        if !confirmed { return Declined; }
        f := Sent(Direct(Group, current, taken));
      } else {
        var rows := LinkedRanges(taken);
        f := Sent(Linked(current, taken, rows, answer.reviewToken));
      }
      value := [];
      ResetMentionDraft(Group, Some(current));
    }
  }
}
