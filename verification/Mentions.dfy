/**
 The mention draft of the desktop composer: identity-linked spans over the text
 of an input box, kept in step with free editing.
 */
module Mentions {
  import opened Sorting
  import opened TextDiff
  import opened Unicode

  const AT: Unit := 0x40

  datatype Span = Span(start: nat, end: nat, target: string)

  /** The input box, the text the spans were last reconciled with, and the spans. */
  datatype Draft = Draft(text: Text, lastText: Text, spans: seq<Span>)

  // ------------------------------------------------------- reconciliation

  /** The range that an edit replaced does not reach into the span. */
  predicate Survives(s: Span, e: Edit) {
    !(s.start < e.oldEnd && e.prefix < s.end)
  }

  function Moved(s: Span, e: Edit): Span
    requires s.start <= s.end && Survives(s, e)
  {
    if e.oldEnd <= s.start then s.(start := s.start - e.oldEnd + e.newEnd, end := s.end - e.oldEnd + e.newEnd) else s
  }

  ghost predicate Proper(spans: seq<Span>) {
    forall s :: s in spans ==> s.start < s.end
  }

  function Reconciled(spans: seq<Span>, e: Edit): (r: seq<Span>)
    requires Proper(spans)
  {
    if spans == [] then []
    else
      var rest := Reconciled(spans[1..], e);
      if Survives(spans[0], e) then [Moved(spans[0], e)] + rest else rest
  }

  /** Proper spans of the text, none reaching into the next: the order in which they are sent. */
  ghost predicate Ordered(spans: seq<Span>, text: Text) {
    && Proper(spans)
    && (forall s :: s in spans ==> s.end <= |text|)
    && forall i, j :: 0 <= i < j < |spans| ==> spans[i].end <= spans[j].start
  }

  /** What is left after an edit is the surviving spans, moved, and nothing else. */
  lemma {:induction false} ReconciledMembers(spans: seq<Span>, e: Edit)
    requires Proper(spans)
    ensures forall s :: s in spans && Survives(s, e) ==> Moved(s, e) in Reconciled(spans, e)
    ensures forall r :: r in Reconciled(spans, e) ==> exists s :: s in spans && Survives(s, e) && r == Moved(s, e)
  {
    if spans != [] {
      ReconciledMembers(spans[1..], e);
      forall r | r in Reconciled(spans[1..], e) ensures exists s :: s in spans && Survives(s, e) && r == Moved(s, e) {
        var s :| s in spans[1..] && Survives(s, e) && r == Moved(s, e);
        assert s in spans;
      }
    }
  }

  lemma {:induction false} ReconciledOrder(spans: seq<Span>, e: Edit)
    requires e.prefix <= e.oldEnd && e.prefix <= e.newEnd
    requires Proper(spans)
    requires forall i, j :: 0 <= i < j < |spans| ==> spans[i].end <= spans[j].start
    ensures Proper(Reconciled(spans, e))
    ensures forall i, j :: 0 <= i < j < |Reconciled(spans, e)| ==>
              Reconciled(spans, e)[i].end <= Reconciled(spans, e)[j].start
  {
    if spans != [] {
      var rest := spans[1..];
      ReconciledOrder(rest, e);
      if Survives(spans[0], e) {
        ReconciledMembers(rest, e);
        forall r | r in Reconciled(rest, e) ensures Moved(spans[0], e).end <= r.start {
          var s :| s in rest && Survives(s, e) && r == Moved(s, e);
          assert spans[0].end <= s.start;
        }
        InFront(Moved(spans[0], e), Reconciled(rest, e));
      }
    }
  }

  lemma InFront(m: Span, rest: seq<Span>)
    requires m.start < m.end && Proper(rest) && forall r :: r in rest ==> m.end <= r.start
    requires forall i, j :: 0 <= i < j < |rest| ==> rest[i].end <= rest[j].start
    ensures var all := [m] + rest; Proper(all) && forall i, j :: 0 <= i < j < |all| ==> all[i].end <= all[j].start
  {
  }

  /** A surviving span covers, in the new text, the characters it covered in the old. */
  lemma MovedCovers(s: Span, was: Text, now: Text)
    requires s.start <= s.end <= |was| && Survives(s, DiffOf(was, now))
    ensures var m := Moved(s, DiffOf(was, now));
            m.start <= m.end <= |now| && now[m.start..m.end] == was[s.start..s.end]
  {
    var e := DiffOf(was, now);
    DiffAgrees(was, now);
    var m := Moved(s, e);
    if e.oldEnd <= s.start {
      SliceOfRest(was, e.oldEnd, s.start, s.end);
      SliceOfRest(now, e.newEnd, m.start, m.end);
    } else {
      SliceOfFront(was, e.prefix, s.start, s.end);
      SliceOfFront(now, e.prefix, s.start, s.end);
    }
  }

  lemma SliceOfRest<T>(t: seq<T>, k: nat, i: nat, j: nat)
    requires k <= i <= j <= |t|
    ensures t[i..j] == t[k..][i - k..j - k]
  {
  }

  lemma SliceOfFront<T>(t: seq<T>, k: nat, i: nat, j: nat)
    requires i <= j <= k <= |t|
    ensures t[i..j] == t[..k][i..j]
  {
  }

  lemma ReconcileKeepsOrder(spans: seq<Span>, was: Text, now: Text)
    requires Ordered(spans, was)
    ensures Ordered(Reconciled(spans, DiffOf(was, now)), now)
  {
    var e := DiffOf(was, now);
    ReconciledOrder(spans, e);
    ReconciledMembers(spans, e);
    forall r | r in Reconciled(spans, e) ensures r.end <= |now| {
      var s :| s in spans && Survives(s, e) && r == Moved(s, e);
      MovedCovers(s, was, now);
    }
  }

  /** Nothing is lost exactly when the edit reaches into no span. */
  lemma {:induction false} ReconciledLength(spans: seq<Span>, e: Edit)
    requires Proper(spans)
    ensures |Reconciled(spans, e)| <= |spans|
    ensures |Reconciled(spans, e)| == |spans| <==> forall s :: s in spans ==> Survives(s, e)
  {
    if spans != [] {
      ReconciledLength(spans[1..], e);
      assert spans == [spans[0]] + spans[1..];
    }
  }

  // -------------------------------------------------------------- sorting

  /** The composer's comparison: by start, then by end. */
  predicate AtMost(a: Span, b: Span) {
    a.start < b.start || (a.start == b.start && a.end <= b.end)
  }

  /** Neither span reaches into the other. */
  predicate Apart(a: Span, b: Span) {
    a.end <= b.start || b.end <= a.start
  }

  /** A span added to ordered ones leaves them ordered exactly when it keeps apart from all of them. */
  lemma PutOrdered(spans: seq<Span>, s: Span, text: Text)
    requires Ordered(spans, text) && s.start < s.end <= |text|
    ensures Ordered(Put(AtMost, spans, s), text) <==> forall x :: x in spans ==> Apart(x, s)
  {
    var k := PutSplits(AtMost, spans, s);
    if forall x :: x in spans ==> Apart(x, s) { ApartOrders(spans, s, k, text); }
    if Ordered(Put(AtMost, spans, s), text) { OrderedApart(spans, s, k, text); }
  }

  lemma OrderedApart(spans: seq<Span>, s: Span, k: nat, text: Text)
    requires k <= |spans| && Ordered(spans[..k] + [s] + spans[k..], text)
    ensures forall x :: x in spans ==> Apart(x, s)
  {
    var all := spans[..k] + [s] + spans[k..];
    forall i | 0 <= i < |spans| ensures Apart(spans[i], s) {
      if i < k {
        assert all[i].end <= all[k].start;
      } else {
        assert all[k].end <= all[i + 1].start;
      }
    }
  }

  lemma ApartOrders(spans: seq<Span>, s: Span, k: nat, text: Text)
    requires Ordered(spans, text) && s.start < s.end <= |text| && k <= |spans|
    requires 0 < k ==> AtMost(spans[k - 1], s)
    requires forall i :: k <= i < |spans| ==> !AtMost(spans[i], s)
    requires forall x :: x in spans ==> Apart(x, s)
    ensures Ordered(spans[..k] + [s] + spans[k..], text)
  {
    forall i | 0 <= i < k ensures spans[i].end <= s.start {
      assert Apart(spans[i], s) && Apart(spans[k - 1], s);
    }
    forall i | k <= i < |spans| ensures s.end <= spans[i].start {
      assert Apart(spans[i], s);
    }
    PlacedBetween(spans, s, k, text);
  }

  lemma PlacedBetween(spans: seq<Span>, s: Span, k: nat, text: Text)
    requires Ordered(spans, text) && s.start < s.end <= |text| && k <= |spans|
    requires forall i :: 0 <= i < k ==> spans[i].end <= s.start
    requires forall i :: k <= i < |spans| ==> s.end <= spans[i].start
    ensures Ordered(spans[..k] + [s] + spans[k..], text)
  {
  }
}
