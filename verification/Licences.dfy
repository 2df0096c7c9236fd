/** Two resolvers of declared Android licences: sorted first match, and longest match. */
module Licences {
  import opened Sorting
  import opened Strings
  import opened Wrappers

  datatype Rule = Rule(prefix: string, spdx: string)
  datatype Override = Override(coordinate: string, spdx: string)
  datatype Coordinate = Coordinate(group: string, artifact: string, version: string)

  function Joined(c: Coordinate): string { Join([c.group, c.artifact, c.version], ':') }

  /** A rule is about a group if it names the group or one above it. */
  predicate Matches(prefix: string, group: string) { group == prefix || prefix + "." <= group }

  /** What loading a policy insists on, as far as resolution depends on it. */
  predicate Loads(overrides: seq<Override>, rules: seq<Rule>) {
    && (forall i :: 0 <= i < |overrides| ==> overrides[i].spdx != "")
    && (forall i, j :: 0 <= i < j < |overrides| ==> overrides[i].coordinate != overrides[j].coordinate)
    && rules != []
    && (forall i :: 0 <= i < |rules| ==> rules[i].prefix != "" && rules[i].spdx != "")
    && (forall i, j :: 0 <= i < j < |rules| ==> rules[i].prefix != rules[j].prefix)
  }

  /** Longest prefix first, and among equally long ones the first in order. */
  predicate LongestFirst(a: Rule, b: Rule) {
    |a.prefix| > |b.prefix| || (|a.prefix| == |b.prefix| && AtMost(a.prefix, b.prefix))
  }

  function ExactFor(overrides: seq<Override>, joined: string): Option<string> {
    if overrides == [] then None
    else if overrides[0].coordinate == joined then Some(overrides[0].spdx) else ExactFor(overrides[1..], joined)
  }

  /** Of duplicate overrides the last one stands. */
  function LastExact(overrides: seq<Override>, joined: string): Option<string> {
    if overrides == [] then None
    else if overrides[|overrides| - 1].coordinate == joined then Some(overrides[|overrides| - 1].spdx)
    else LastExact(overrides[..|overrides| - 1], joined)
  }

  function FirstMatch(rules: seq<Rule>, group: string): Option<Rule> {
    if rules == [] then None
    else if Matches(rules[0].prefix, group) then Some(rules[0]) else FirstMatch(rules[1..], group)
  }

  /** The longest of the matching rules, and among equally long ones the first. */
  function LongestMatch(rules: seq<Rule>, group: string): Option<Rule> {
    if rules == [] then None
    else
      var best, x := LongestMatch(rules[..|rules| - 1], group), rules[|rules| - 1];
      if Matches(x.prefix, group) && (best.None? || |x.prefix| > |best.value.prefix|) then Some(x) else best
  }

  function Declared(r: Option<Rule>): Option<string> {
    if r.Some? then Some(r.value.spdx) else None
  }

  /** An empty expression counts as none. */
  function NonEmpty(e: Option<string>): Option<string> {
    if e == Some("") then None else e
  }

  /** The evidence script: overrides, then the first match among the sorted rules. */
  function Evidence(c: Coordinate, overrides: seq<Override>, sorted: seq<Rule>): Option<string> {
    var exact := ExactFor(overrides, Joined(c));
    if exact.Some? then exact else Declared(FirstMatch(sorted, c.group))
  }

  /** The engineering check: overrides, then the longest of all matching rules. */
  function Checked(c: Coordinate, overrides: seq<Override>, rules: seq<Rule>): Option<string> {
    var exact := LastExact(overrides, Joined(c));
    NonEmpty(if exact.Some? then exact else Declared(LongestMatch(rules, c.group)))
  }

  method PolicyExpression(c: Coordinate, overrides: seq<Override>, sorted: seq<Rule>) returns (r: Option<string>)
    ensures r == Evidence(c, overrides, sorted)
  {
    var exact := ExactFor(overrides, Joined(c));
    if exact.Some? { return exact; }
    for i := 0 to |sorted|
      invariant FirstMatch(sorted, c.group) == FirstMatch(sorted[i..], c.group)
    {
      assert sorted[i..][1..] == sorted[i + 1..];
      if Matches(sorted[i].prefix, c.group) { return Some(sorted[i].spdx); }
    }
    return None;
  }

  method CheckExpression(c: Coordinate, overrides: seq<Override>, rules: seq<Rule>) returns (r: Option<string>)
    ensures r == Checked(c, overrides, rules)
  {
    r := LastExact(overrides, Joined(c));
    if r.None? {
      var best: Option<Rule> := None;
      for i := 0 to |rules|
        invariant best == LongestMatch(rules[..i], c.group)
      {
        assert rules[..i + 1][..i] == rules[..i];
        if Matches(rules[i].prefix, c.group) && (best.None? || |rules[i].prefix| > |best.value.prefix|) {
          best := Some(rules[i]);
        }
      }
      assert rules[..|rules|] == rules;
      if best.Some? { r := Some(best.value.spdx); }
    }
    if r == Some("") { r := None; }
  }

  // ------------------------------------------------------------- agreement

  /** A matching rule with the longest prefix. */
  ghost predicate Longest(rules: seq<Rule>, group: string, r: Rule) {
    && r in rules && Matches(r.prefix, group)
    && forall x :: x in rules && Matches(x.prefix, group) ==> |x.prefix| <= |r.prefix|
  }

  lemma {:induction false} LongestMatchIs(rules: seq<Rule>, group: string)
    ensures match LongestMatch(rules, group)
            case Some(r) => Longest(rules, group, r)
            case None => forall x :: x in rules ==> !Matches(x.prefix, group)
  {
    if rules != [] {
      LongestMatchIs(rules[..|rules| - 1], group);
      assert rules == rules[..|rules| - 1] + [rules[|rules| - 1]];
    }
  }

  /** Two prefixes of one group that are equally long are equal. */
  lemma SameLengthSamePrefix(p: string, q: string, group: string)
    requires Matches(p, group) && Matches(q, group) && |p| == |q|
    ensures p == q
  {
    assert group[..|p|] == p && group[..|q|] == q;
  }

  /** The longest matching rule is the only one of its length, so there is at most one. */
  lemma LongestUnique(rules: seq<Rule>, group: string, a: Rule, b: Rule)
    requires forall i, j :: 0 <= i < j < |rules| ==> rules[i].prefix != rules[j].prefix
    requires Longest(rules, group, a) && Longest(rules, group, b)
    ensures a == b
  {
    SameLengthSamePrefix(a.prefix, b.prefix, group);
    var i :| 0 <= i < |rules| && rules[i] == a;
    var j :| 0 <= j < |rules| && rules[j] == b;
  }

  lemma RulesOrdered()
    ensures TotalPreorder(LongestFirst)
  {
    forall a: Rule, b: Rule ensures LongestFirst(a, b) || LongestFirst(b, a) {
      AtMostTotal(a.prefix, b.prefix);
    }
    forall a: Rule, b: Rule, c: Rule | LongestFirst(a, b) && LongestFirst(b, c) ensures LongestFirst(a, c) {
      if |a.prefix| == |b.prefix| == |c.prefix| { AtMostTransitive(a.prefix, b.prefix, c.prefix); }
    }
  }

  /** In a list sorted by falling length the first match is a longest one. */
  lemma {:induction false} FirstIsLongest(sorted: seq<Rule>, group: string)
    requires Sorted(LongestFirst, sorted)
    ensures match FirstMatch(sorted, group)
            case Some(r) => Longest(sorted, group, r)
            case None => forall x :: x in sorted ==> !Matches(x.prefix, group)
  {
    if sorted != [] {
      FirstIsLongest(sorted[1..], group);
      forall x | x in sorted ensures |x.prefix| <= |sorted[0].prefix| {
        var i :| 0 <= i < |sorted| && sorted[i] == x;
        assert i > 0 ==> LongestFirst(sorted[0], sorted[i]);
      }
      assert sorted == [sorted[0]] + sorted[1..];
    }
  }

  lemma {:induction false} ExactEither(overrides: seq<Override>, joined: string)
    requires forall i, j :: 0 <= i < j < |overrides| ==> overrides[i].coordinate != overrides[j].coordinate
    ensures match ExactFor(overrides, joined)
            case None => forall i :: 0 <= i < |overrides| ==> overrides[i].coordinate != joined
            case Some(e) => exists i :: 0 <= i < |overrides| && overrides[i] == Override(joined, e)
  {
    if overrides != [] && overrides[0].coordinate != joined {
      ExactEither(overrides[1..], joined);
      assert forall i :: 0 < i < |overrides| ==> overrides[i] == overrides[1..][i - 1];
      if ExactFor(overrides, joined).Some? {
        var i :| 0 <= i < |overrides[1..]| && overrides[1..][i] == Override(joined, ExactFor(overrides, joined).value);
        assert overrides[i + 1] == overrides[1..][i];
      }
    }
  }

  lemma {:induction false} LastEither(overrides: seq<Override>, joined: string)
    ensures match LastExact(overrides, joined)
            case None => forall i :: 0 <= i < |overrides| ==> overrides[i].coordinate != joined
            case Some(e) => exists i :: 0 <= i < |overrides| && overrides[i] == Override(joined, e)
  {
    if overrides != [] && overrides[|overrides| - 1].coordinate != joined {
      LastEither(overrides[..|overrides| - 1], joined);
      if LastExact(overrides, joined).Some? {
        var i :| 0 <= i < |overrides| - 1
          && overrides[..|overrides| - 1][i] == Override(joined, LastExact(overrides, joined).value);
        assert overrides[i] == overrides[..|overrides| - 1][i];
      }
    } else if overrides != [] {
      assert overrides[|overrides| - 1] == Override(joined, overrides[|overrides| - 1].spdx);
    }
  }

  /** On a policy that loads, reading overrides from the front and from the back comes to the same. */
  lemma ExactAgree(overrides: seq<Override>, rules: seq<Rule>, joined: string)
    requires Loads(overrides, rules)
    ensures ExactFor(overrides, joined) == LastExact(overrides, joined)
    ensures ExactFor(overrides, joined).Some? ==> ExactFor(overrides, joined).value != ""
  {
    ExactEither(overrides, joined);
    LastEither(overrides, joined);
  }

  /**
   For every policy that loads and every coordinate, the evidence script over the
   sorted rules and the engineering check over the rules as written resolve to
   the same licence, and to none exactly when no override and no rule is about it.
   */
  lemma ResolversAgree(c: Coordinate, overrides: seq<Override>, rules: seq<Rule>)
    requires Loads(overrides, rules)
    ensures Evidence(c, overrides, Sort(LongestFirst, rules)) == Checked(c, overrides, rules)
    ensures Checked(c, overrides, rules).None? <==>
            LastExact(overrides, Joined(c)).None? && forall r :: r in rules ==> !Matches(r.prefix, c.group)
  {
    var sorted := Sort(LongestFirst, rules);
    ExactAgree(overrides, rules, Joined(c));
    RulesOrdered();
    SortSorts(LongestFirst, rules);
    SortMembers(LongestFirst, rules);
    FirstIsLongest(sorted, c.group);
    LongestMatchIs(rules, c.group);
    var first, best := FirstMatch(sorted, c.group), LongestMatch(rules, c.group);
    if first.Some? && best.Some? {
      LongestUnique(rules, c.group, first.value, best.value);
      var i :| 0 <= i < |rules| && rules[i] == best.value;
    }
  }

  // ---------------------------------------------------- what a rule is about

  /** A rule is about the groups whose dotted name starts with all the parts of its own. */
  lemma MatchesParts(prefix: string, group: string)
    ensures Matches(prefix, group) <==> Split(prefix, '.') <= Split(group, '.')
  {
    var ps, gs := Split(prefix, '.'), Split(group, '.');
    SplitJoins(prefix, '.');
    SplitJoins(group, '.');
    if prefix + "." <= group {
      assert group == prefix + ['.'] + group[|prefix| + 1..];
      SplitConcat(prefix, group[|prefix| + 1..], '.');
    }
    if ps <= gs && ps != gs {
      assert gs == ps + gs[|ps|..];
      JoinConcat(ps, gs[|ps|..], '.');
    }
  }

  /** The expression for a coordinate: that of its override, or else of the longest rule about its group. */
  ghost predicate Prescribed(c: Coordinate, overrides: seq<Override>, rules: seq<Rule>, e: string) {
    var joined := c.group + ":" + c.artifact + ":" + c.version;
    || Override(joined, e) in overrides
    || ((forall o :: o in overrides ==> o.coordinate != joined)
        && exists r :: Longest(rules, c.group, r) && r.spdx == e)
  }

  /** The engineering check gives exactly what a loaded policy prescribes. */
  lemma CheckedMeans(c: Coordinate, overrides: seq<Override>, rules: seq<Rule>, e: string)
    requires Loads(overrides, rules)
    ensures Checked(c, overrides, rules) == Some(e) <==> Prescribed(c, overrides, rules, e)
  {
    var joined := c.group + ":" + c.artifact + ":" + c.version;
    JoinThree(c.group, c.artifact, c.version);
    LastEither(overrides, joined);
    LongestMatchIs(rules, c.group);
    LastGives(overrides, joined, e);
    var best := LongestMatch(rules, c.group);
    if best.Some? {
      assert best.value.spdx != "" by { var i :| 0 <= i < |rules| && rules[i] == best.value; }
      forall r | Longest(rules, c.group, r) ensures r == best.value { LongestUnique(rules, c.group, r, best.value); }
    }
  }

  lemma JoinThree(a: string, b: string, c: string)
    ensures Join([a, b, c], ':') == a + ":" + b + ":" + c
  {
    assert [a, b, c][1..] == [b, c] && [b, c][1..] == [c];
    assert Join([c], ':') == c && Join([b, c], ':') == b + [':'] + c;
    assert Join([a, b, c], ':') == a + [':'] + (b + [':'] + c);
  }

  /** With distinct coordinates the last override for a coordinate is the only one. */
  lemma LastGives(overrides: seq<Override>, joined: string, e: string)
    requires forall i, j :: 0 <= i < j < |overrides| ==> overrides[i].coordinate != overrides[j].coordinate
    ensures LastExact(overrides, joined) == Some(e) <==> Override(joined, e) in overrides
  {
    LastEither(overrides, joined);
    if Override(joined, e) in overrides {
      var j :| 0 <= j < |overrides| && overrides[j] == Override(joined, e);
      var i :| 0 <= i < |overrides| && overrides[i] == Override(joined, LastExact(overrides, joined).value);
      assert i == j;
    }
  }
}
