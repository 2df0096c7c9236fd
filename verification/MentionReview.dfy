/** The review of what a group supports, under which links are sent. */
module MentionReview {
  import opened MentionRuns
  import opened MentionSending
  import opened Mentions
  import opened Unicode
  import opened Wrappers

  datatype Kind = Contact | Group | Note

  /** What the backend says about mentions in a group, under a token that changes with it. */
  datatype Capability = Capability(reviewToken: string, supported: bool)

  /** The group that the draft is for, and the capability that the sender has seen. */
  datatype Review = Review(group: Option<string>, capability: Option<Capability>)

  datatype Message =
    | Disappearing(kind: Kind, id: string, body: Text, lifetime: nat)
    | Direct(kind: Kind, id: string, body: Text)
    | Linked(group: string, text: Text, ranges: seq<Range>, reviewToken: string)

  datatype Begun = Idle | Invalid | Awaiting(text: Text) | Sends(message: Message)

  datatype Finished = ShownAgain | Declined | Sent(message: Message)

  // ------------------------------------------------------------- submitting

  /** Up to the question to the backend; how white space is trimmed is the platform's. */
  ghost function Begin(d: Draft, kind: Kind, current: Option<string>, lifetime: nat, trim: Text -> Text): Begun {
    if trim(d.text) == [] || current.None? then Idle
    else if lifetime > 0 then
      Sends(if kind.Note? then Direct(kind, current.value, trim(d.text))
            else Disappearing(kind, current.value, trim(d.text), lifetime))
    else if kind.Group? && d.spans != [] then (if WellFormed(d.text) then Awaiting(d.text) else Invalid)
    else Sends(Direct(kind, current.value, trim(d.text)))
  }

  predicate Seen(review: Review, current: string, latest: Capability) {
    && review.group == Some(current) && review.capability.Some?
    && review.capability.value.reviewToken == latest.reviewToken
  }

  /** What the answer leads to. */
  function Finish(taken: Text, spans: seq<Span>, review: Review, current: string, latest: Capability, confirmed: bool)
    : Finished
  {
    if !Seen(review, current, latest) then ShownAgain
    else if latest.supported then Sent(Linked(current, taken, Ranges(taken, spans), latest.reviewToken))
    else if confirmed then Sent(Direct(Group, current, taken))
    else Declined
  }

  /**
   What is sent at once goes to the open conversation as trimmed text, and
   disappears exactly if a lifetime was set and it is no note to oneself. Links
   are given up without a question exactly when a lifetime is set.
   */
  lemma SentAtOnce(d: Draft, kind: Kind, current: Option<string>, lifetime: nat, trim: Text -> Text)
    ensures var b := Begin(d, kind, current, lifetime, trim);
            && (b.Sends? ==>
                  && current.Some? && !b.message.Linked? && b.message.kind == kind && b.message.id == current.value
                  && b.message.body == trim(d.text) != []
                  && (b.message.Disappearing? <==> lifetime > 0 && kind != Note)
                  && (b.message.Disappearing? ==> b.message.lifetime == lifetime))
            && (kind == Group && d.spans != [] ==> (b.Sends? <==> trim(d.text) != [] && current.Some? && lifetime > 0))
            && (b.Idle? <==> trim(d.text) == [] || current.None?)
  {
  }

  /** After the question, a plain message goes out only under a seen review, without support, and if confirmed. */
  lemma PlainIfConfirmed(
    taken: Text, spans: seq<Span>, review: Review, current: string, latest: Capability, confirmed: bool)
    ensures var f := Finish(taken, spans, review, current, latest, confirmed);
            && (f.Sent? && f.message.Direct? <==> Seen(review, current, latest) && !latest.supported && confirmed)
            && (f.Sent? && f.message.Direct? ==> f.message == Direct(Group, current, taken))
            && (f.Declined? <==> Seen(review, current, latest) && !latest.supported && !confirmed)
            && (f.ShownAgain? <==> review.group != Some(current) || review.capability.None?
                                   || review.capability.value.reviewToken != latest.reviewToken)
  {
  }

  /**
   From an empty draft through any attended run, the submit handler, more typing
   and the backend's answer: a message with links that goes out carries the text
   as submitted, and all its ranges are right if and only if the typing in
   between left them so. Well-formedness of the text is the handler's own check.
   */
  lemma SubmittedLinks(
    evs: seq<Event>, texts: seq<Text>, trim: Text -> Text, id: string, review: Review, current: string,
    latest: Capability, confirmed: bool)
    requires Throughout(Attended, EMPTY, evs) && InSync(Run(EMPTY, evs))
    requires forall p :: p in PicksOf(evs) ==> WellFormed(p.1)
    requires Begin(Run(EMPTY, evs), Group, Some(id), 0, trim).Awaiting?
    ensures var d, picks := Run(EMPTY, evs), PicksOf(evs);
            var taken, later := Begin(d, Group, Some(id), 0, trim).text, Run(d, TypedEvents(texts));
            var f := Finish(taken, later.spans, review, current, latest, confirmed);
            f.Sent? && f.message.Linked? ==>
              && f.message.text == d.text && WellFormed(d.text) && d.spans != []
              && ((forall r :: r in f.message.ranges ==> Selects(f.message.text, r, picks)) <==>
                  Undisturbed(d, texts, picks))
  {
    var d, picks := Run(EMPTY, evs), PicksOf(evs);
    RunCovers(EMPTY, evs, {});
    assert {} + picks == picks;
    SentAfterTyping(d, texts, picks);
  }

  /** Submitted after a plain run and answered at once, the ranges are right, in order and disjoint. */
  lemma SubmittedPlainly(
    evs: seq<Event>, trim: Text -> Text, id: string, review: Review, latest: Capability, confirmed: bool)
    requires Throughout(Plain, EMPTY, evs) && Unscheduled(evs)
    requires forall p :: p in PicksOf(evs) ==> WellFormed(p.1)
    requires Begin(Run(EMPTY, evs), Group, Some(id), 0, trim).Awaiting?
    ensures var d := Run(EMPTY, evs);
            var f := Finish(d.text, d.spans, review, id, latest, confirmed);
            f.Sent? && f.message.Linked? ==>
              && (forall r :: r in f.message.ranges ==> Selects(f.message.text, r, PicksOf(evs)))
              && forall i, j :: 0 <= i < j < |f.message.ranges| ==> f.message.ranges[i].end <= f.message.ranges[j].start
  {
    SentAfterPlainRun(evs);
  }

  // --------------------------------------------------------------- sessions

  /**
   What happens to the review: an answer of the backend about a group arrives, for
   the mention picker, for a refresh or for a submitted message; or the draft is
   left. When an answer arrives another group may be current than was asked about.
   */
  datatype Deed =
    | PickerAnswered(about: string, answer: Capability)
    | RefreshAnswered(about: string, answer: Capability)
    | SubmitAnswered(about: string, answer: Capability, current: string, taken: Text, spans: seq<Span>, confirmed: bool)
    | Left(group: Option<string>)

  function Outcome(r: Review, deed: Deed): Finished
    requires deed.SubmitAnswered?
  {
    Finish(deed.taken, deed.spans, r, deed.current, deed.answer, deed.confirmed)
  }

  function ReviewNext(r: Review, deed: Deed): Review {
    match deed
    case PickerAnswered(about, answer) => Review(Some(about), Some(answer))
    case RefreshAnswered(_, answer) =>
      if r.capability.Some? && r.capability.value.reviewToken == answer.reviewToken then r
      else r.(capability := Some(answer))
    case SubmitAnswered(_, answer, current, _, _, _) =>
      if Outcome(r, deed).Sent? then Review(Some(current), None)
      else if Seen(r, current, answer) then r
      else Review(Some(current), Some(answer))
    case Left(group) => Review(group, None)
  }

  /** The review after some deeds, starting with nothing seen. */
  function ReviewAfter(deeds: seq<Deed>): Review {
    if deeds == [] then Review(None, None) else ReviewNext(ReviewAfter(deeds[..|deeds| - 1]), deeds[|deeds| - 1])
  }

  /** The deed puts the token before the sender, in the draft of the group. */
  predicate Shows(r: Review, deed: Deed, group: string, token: string) {
    match deed
    case PickerAnswered(about, answer) => about == group && answer.reviewToken == token
    case RefreshAnswered(_, answer) => r.group == Some(group) && answer.reviewToken == token
    case SubmitAnswered(_, answer, current, _, _, _) =>
      current == group && answer.reviewToken == token && !Seen(r, current, answer)
    case Left(_) => false
  }

  predicate Clears(r: Review, deed: Deed) { deed.Left? || (deed.SubmitAnswered? && Outcome(r, deed).Sent?) }

  /** A refresh under the token already held changes nothing; any other is what the sender has seen from then on. */
  lemma RefreshedSays(r: Review, about: string, answer: Capability)
    ensures var next := ReviewNext(r, RefreshAnswered(about, answer));
            && next.group == r.group && next.capability.Some?
            && (next == r <==> r.capability.Some? && (r.capability.value.reviewToken == answer.reviewToken
                                                      || r.capability.value == answer))
            && (next != r ==> next.capability.value == answer)
  {
  }

  /** Deed `j` showed the token in the draft of the group, and the draft has not been cleared since. */
  predicate ShownAt(deeds: seq<Deed>, j: nat, group: string, token: string)
    requires j < |deeds|
  {
    && Shows(ReviewAfter(deeds[..j]), deeds[j], group, token)
    && forall i :: j < i < |deeds| ==> !Clears(ReviewAfter(deeds[..i]), deeds[i])
  }

  lemma {:induction false} HeldWasShown(deeds: seq<Deed>, group: string)
    requires ReviewAfter(deeds).group == Some(group) && ReviewAfter(deeds).capability.Some?
    ensures exists j :: 0 <= j < |deeds| && ShownAt(deeds, j, group, ReviewAfter(deeds).capability.value.reviewToken)
  {
    var n := |deeds| - 1;
    var front, deed := deeds[..n], deeds[n];
    var r, token := ReviewAfter(front), ReviewAfter(deeds).capability.value.reviewToken;
    if Shows(r, deed, group, token) {
      assert ShownAt(deeds, n, group, token);
    } else {
      assert ReviewAfter(deeds) == r && !Clears(r, deed);
      HeldWasShown(front, group);
      var j :| 0 <= j < |front| && ShownAt(front, j, group, token);
      StillShown(deeds, j, group, token);
    }
  }

  lemma StillShown(deeds: seq<Deed>, j: nat, group: string, token: string)
    requires deeds != [] && j < |deeds| - 1 && ShownAt(deeds[..|deeds| - 1], j, group, token)
    requires !Clears(ReviewAfter(deeds[..|deeds| - 1]), deeds[|deeds| - 1])
    ensures ShownAt(deeds, j, group, token)
  {
    var n := |deeds| - 1;
    var front := deeds[..n];
    assert front[..j] == deeds[..j] && front[j] == deeds[j];
    forall i | j < i < |deeds| ensures !Clears(ReviewAfter(deeds[..i]), deeds[i]) {
      if i < n { assert front[..i] == deeds[..i] && front[i] == deeds[i]; }
    }
  }

  /**
   In any session, however pickers, refreshes, submissions and changes of
   conversation follow one another, links go out only with the backend's support
   and under a token that was shown in the same draft before.
   */
  lemma LinkedWasShown(deeds: seq<Deed>, deed: Deed)
    requires deed.SubmitAnswered? && Outcome(ReviewAfter(deeds), deed).Sent?
    requires Outcome(ReviewAfter(deeds), deed).message.Linked?
    ensures var m := Outcome(ReviewAfter(deeds), deed).message;
            && m == Linked(deed.current, deed.taken, Ranges(deed.taken, deed.spans), deed.answer.reviewToken)
            && deed.answer.supported
            && exists j :: 0 <= j < |deeds| && ShownAt(deeds, j, m.group, m.reviewToken)
  {
    HeldWasShown(deeds, deed.current);
  }

  /** Two answers under one token are about one group. */
  predicate SameTokenSameGroup(a: Deed, b: Deed) {
    !a.Left? && !b.Left? && a.answer.reviewToken == b.answer.reviewToken ==> a.about == b.about
  }

  /** A token is only ever given about one group. */
  predicate TokensNameGroups(deeds: seq<Deed>) {
    forall i, j :: 0 <= i < |deeds| && 0 <= j < |deeds| ==> SameTokenSameGroup(deeds[i], deeds[j])
  }

  /** The answer arrived while the draft was another group's than was asked about. */
  predicate Late(r: Review, deed: Deed) {
    match deed
    case RefreshAnswered(about, _) => r.group != Some(about)
    case SubmitAnswered(about, _, current, _, _, _) => current != about
    case _ => false
  }

  /**
   A message with links goes to another group than was asked about only if an
   earlier answer in the same draft had been late as well: one late answer alone
   only brings the review up again.
   */
  lemma MisdirectedTwiceLate(deeds: seq<Deed>, deed: Deed)
    requires deed.SubmitAnswered? && Late(ReviewAfter(deeds), deed) && TokensNameGroups(deeds + [deed])
    requires Outcome(ReviewAfter(deeds), deed).Sent? && Outcome(ReviewAfter(deeds), deed).message.Linked?
    ensures exists j :: 0 <= j < |deeds| && ShownAt(deeds, j, deed.current, deed.answer.reviewToken)
                        && Late(ReviewAfter(deeds[..j]), deeds[j])
  {
    LinkedWasShown(deeds, deed);
    var token := deed.answer.reviewToken;
    var j :| 0 <= j < |deeds| && ShownAt(deeds, j, deed.current, token);
    assert SameTokenSameGroup(deeds[j], deed) by {
      var all := deeds + [deed];
      assert all[j] == deeds[j] && all[|deeds|] == deed && SameTokenSameGroup(all[j], all[|deeds|]);
    }
    LateIfOther(ReviewAfter(deeds[..j]), deeds[j], deed.current, token);
  }

  lemma LateIfOther(r: Review, shown: Deed, group: string, token: string)
    requires Shows(r, shown, group, token)
    ensures !shown.Left? && shown.answer.reviewToken == token && (shown.about != group ==> Late(r, shown))
  {
  }

  /** Submitted twice in one group and answered twice in another, a text goes to that other group. */
  lemma TwoLateAnswers(a: string, b: string, token: string, taken: Text)
    requires a != b
    ensures var deed := SubmitAnswered(a, Capability(token, true), b, taken, [], false);
            var deeds := [Left(Some(b)), deed];
            && Outcome(ReviewAfter(deeds[..1]), deed) == ShownAgain
            && Outcome(ReviewAfter(deeds), deed) == Sent(Linked(b, taken, [], token))
  {
    var deed := SubmitAnswered(a, Capability(token, true), b, taken, [], false);
    var deeds := [Left(Some(b)), deed];
    assert deeds[..1] == [Left(Some(b))] && deeds[..1][..0] == [];
    assert ReviewAfter(deeds[..1]) == Review(Some(b), None);
    assert ReviewAfter(deeds) == Review(Some(b), Some(Capability(token, true)));
  }

  lemma ShownIsSeen(r: Review, shown: Deed, group: string, answer: Capability)
    requires Shows(r, shown, group, answer.reviewToken)
    ensures Seen(ReviewNext(r, shown), group, answer)
  {
  }

  /**
   Once a token was shown, by the picker, a refresh or an earlier submission, a
   supporting answer under it sends the links.
   */
  lemma ShownThenSent(r: Review, shown: Deed, deed: Deed)
    requires deed.SubmitAnswered? && deed.answer.supported
    requires Shows(r, shown, deed.current, deed.answer.reviewToken)
    ensures Outcome(ReviewNext(r, shown), deed) ==
            Sent(Linked(deed.current, deed.taken, Ranges(deed.taken, deed.spans), deed.answer.reviewToken))
  {
    ShownIsSeen(r, shown, deed.current, deed.answer);
  }
}
