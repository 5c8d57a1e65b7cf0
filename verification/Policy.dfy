/** The policy engine: among all matching rules the strictest effect wins, ties break by priority
    and then by declaration order, and no match means deny. */
module Policy {
  import opened Utf16
  import opened Wrappers
  import opened Events

  datatype Effect = Allow | Deny | Require

  datatype Tier = Default | Workspace | User | Admin

  datatype Rule = Rule(
    id: Text,
    effect: Effect,
    tool: Text,
    actor: Option<Actor>,
    tier: Option<Tier>,
    priority: Option<int>,
    reason: Option<Text>)

  datatype Call = Call(tool: Text, actor: Actor)

  datatype Verdict = Verdict(decision: Effect, reason: Text, ruleId: Option<Text>, tier: Option<Tier>)

  /** The verdict schema requires a non-empty reason. */
  datatype VerdictError = EmptyReason

  function Restrictiveness(e: Effect): nat {
    match e
    case Deny => 3
    case Require => 2
    case Allow => 1
  }

  predicate Matches(r: Rule, call: Call) {
    (r.tool == Ascii("*") || r.tool == call.tool) && (r.actor.None? || r.actor.value == call.actor)
  }

  function Matching(rules: seq<Rule>, call: Call): (m: seq<Rule>)
    ensures forall r :: r in m <==> r in rules && Matches(r, call)
  {
    if |rules| == 0 then []
    else if Matches(rules[0], call) then [rules[0]] + Matching(rules[1..], call)
    else Matching(rules[1..], call)
  }

  function MaxRank(rules: seq<Rule>): (k: nat)
    requires |rules| > 0
    ensures forall r :: r in rules ==> Restrictiveness(r.effect) <= k
    ensures exists r :: r in rules && Restrictiveness(r.effect) == k
  {
    var k := Restrictiveness(rules[0].effect);
    assert rules[0] in rules;
    if |rules| == 1 then k
    else
      var rest := MaxRank(rules[1..]);
      assert forall r :: r in rules[1..] ==> r in rules;
      if k >= rest then k else rest
  }

  function WithRank(rules: seq<Rule>, k: nat): (m: seq<Rule>)
    ensures forall r :: r in m <==> r in rules && Restrictiveness(r.effect) == k
  {
    if |rules| == 0 then []
    else if Restrictiveness(rules[0].effect) == k then [rules[0]] + WithRank(rules[1..], k)
    else WithRank(rules[1..], k)
  }

  function Priority(r: Rule): int { if r.priority.Some? then r.priority.value else 0 }

  /** Array.prototype.sort by descending priority; the sort is stable. */
  function ByPriority(rules: seq<Rule>): (m: seq<Rule>)
    ensures |m| == |rules|
  {
    if |rules| == 0 then [] else InsertRule(rules[0], ByPriority(rules[1..]))
  }

  function InsertRule(r: Rule, sorted: seq<Rule>): (m: seq<Rule>)
    ensures |m| == |sorted| + 1
  {
    if |sorted| == 0 || Priority(r) >= Priority(sorted[0]) then [r] + sorted
    else [sorted[0]] + InsertRule(r, sorted[1..])
  }

  /** The rule that decides a call. */
  function Winner(rules: seq<Rule>, call: Call): Option<Rule> {
    var matching := Matching(rules, call);
    if |matching| == 0 then None
    else
      var k := MaxRank(matching);
      var strictest := WithRank(matching, k);
      assert |strictest| > 0 by {
        var r :| r in matching && Restrictiveness(r.effect) == k;
        assert r in strictest;
      }
      Some(ByPriority(strictest)[0])
  }

  function DefaultReason(call: Call): Text {
    Ascii("no matching rule for tool '") + call.tool + Ascii("' (default-deny)")
  }

  function EffectText(e: Effect): Text {
    match e
    case Allow => Ascii("allow")
    case Deny => Ascii("deny")
    case Require => Ascii("require")
  }

  function RuleReason(r: Rule): Text {
    if r.reason.Some? then r.reason.value
    else Ascii("rule '") + r.id + Ascii("' ") + [0x2192] + Ascii(" ") + EffectText(r.effect)
  }

  function Evaluate(rules: seq<Rule>, call: Call): Result<Verdict, VerdictError> {
    match Winner(rules, call)
    case None => Ok(Verdict(Deny, DefaultReason(call), None, None))
    case Some(r) =>
      if |RuleReason(r)| == 0 then Err(EmptyReason)
      else Ok(Verdict(r.effect, RuleReason(r), Some(r.id), r.tier))
  }

  // ----- The reference: the first-declared rule that no matching rule beats -----

  /** Whether r is chosen over an earlier rule: a stricter effect, or the same effect with a higher
      priority. */
  predicate Beats(r: Rule, other: Rule) {
    var x, y := Restrictiveness(r.effect), Restrictiveness(other.effect);
    x > y || (x == y && Priority(r) > Priority(other))
  }

  ghost predicate IsFirstBest(rules: seq<Rule>, call: Call, i: nat)
    requires i < |rules|
  {
    && Matches(rules[i], call)
    && (forall j :: 0 <= j < |rules| && Matches(rules[j], call) ==> !Beats(rules[j], rules[i]))
    && (forall j :: 0 <= j < i && Matches(rules[j], call) ==> Beats(rules[i], rules[j]))
  }

  /** The rule chosen among matching ones. */
  function Choice(matching: seq<Rule>): Rule
    requires |matching| > 0
  {
    var strictest := WithRank(matching, MaxRank(matching));
    SomeStrictest(matching);
    ByPriority(strictest)[0]
  }

  lemma SomeStrictest(matching: seq<Rule>)
    requires |matching| > 0
    ensures |WithRank(matching, MaxRank(matching))| > 0
  {
    var k := MaxRank(matching);
    var r :| r in matching && Restrictiveness(r.effect) == k;
    assert r in WithRank(matching, k);
  }

  lemma WinnerChoice(rules: seq<Rule>, call: Call)
    ensures Winner(rules, call) ==
            if |Matching(rules, call)| == 0 then None else Some(Choice(Matching(rules, call)))
  {
    hide Matching, WithRank, ByPriority, MaxRank;
  }

  lemma MatchingCons(rules: seq<Rule>, call: Call)
    requires |rules| > 0
    ensures var rest := Matching(rules[1..], call);
            Matching(rules, call) == if Matches(rules[0], call) then [rules[0]] + rest else rest
  {
  }

  lemma ChoiceAlone(r: Rule)
    ensures Choice([r]) == r
  {
    OnlyRule(r);
  }

  lemma ChoiceRank(matching: seq<Rule>)
    requires |matching| > 0
    ensures Restrictiveness(Choice(matching).effect) == MaxRank(matching)
  {
    hide ByPriority, MaxRank;
    SomeStrictest(matching);
    SortedHead(WithRank(matching, MaxRank(matching)));
  }

  lemma ChoiceCons(r: Rule, rest: seq<Rule>)
    requires |rest| > 0
    ensures Choice([r] + rest) == if Beats(Choice(rest), r) then Choice(rest) else r
  {
    hide Restrictiveness, Priority, MaxRank, WithRank;
    var x, y := Restrictiveness(r.effect), MaxRank(rest);
    MaxRankCons(r, rest);
    ChoiceRank(rest);
    if x > y {
      OnlyRule(r);
    } else if x == y {
      SortCons(r, WithRank(rest, y));
    }
  }

  lemma SortCons(r: Rule, rules: seq<Rule>)
    requires |rules| > 0
    ensures |ByPriority([r] + rules)| > 0 && |ByPriority(rules)| > 0
    ensures ByPriority([r] + rules)[0] ==
            if Priority(r) >= Priority(ByPriority(rules)[0]) then r else ByPriority(rules)[0]
  {
    assert ([r] + rules)[1..] == rules;
  }

  /** How the first rule changes the winner among the others. */
  lemma WinnerStep(rules: seq<Rule>, call: Call)
    requires |rules| > 0
    ensures var rest := Winner(rules[1..], call);
            Winner(rules, call) ==
            if Matches(rules[0], call) && (rest.None? || !Beats(rest.value, rules[0])) then Some(rules[0]) else rest
  {
    hide Matches, Matching, Winner, Choice, Beats;
    WinnerChoice(rules, call);
    WinnerChoice(rules[1..], call);
    MatchingCons(rules, call);
    var rest := Matching(rules[1..], call);
    if Matches(rules[0], call) {
      if |rest| > 0 {
        ChoiceCons(rules[0], rest);
      } else {
        ChoiceAlone(rules[0]);
        assert [rules[0]] + rest == [rules[0]];
      }
    }
  }

  lemma OnlyRule(r: Rule)
    ensures MaxRank([r]) == Restrictiveness(r.effect)
    ensures WithRank([r], Restrictiveness(r.effect)) == [r] && ByPriority([r]) == [r]
  {
    assert [r][1..] == [];
  }

  lemma MaxRankCons(r: Rule, rest: seq<Rule>)
    requires |rest| > 0
    ensures var x, y := Restrictiveness(r.effect), MaxRank(rest);
            && MaxRank([r] + rest) == (if x >= y then x else y)
            && (x > y ==> WithRank([r] + rest, x) == [r])
            && (x == y ==> WithRank([r] + rest, x) == [r] + WithRank(rest, y))
            && (x < y ==> WithRank([r] + rest, y) == WithRank(rest, y))
  {
    assert ([r] + rest)[1..] == rest;
    var x := Restrictiveness(r.effect);
    if x > MaxRank(rest) {
      var above := WithRank(rest, x);
      assert forall q :: q !in above;
      FirstElement(above);
    }
  }

  lemma {:induction false} SortedHead(rules: seq<Rule>)
    requires |rules| > 0
    ensures ByPriority(rules)[0] in rules
  {
    if |rules| > 1 { SortedHead(rules[1..]); }
  }

  /** The winner is the first-declared matching rule that no matching rule beats; there is none
      exactly when no rule matches. */
  lemma {:induction false} WinnerExactly(rules: seq<Rule>, call: Call)
    ensures Winner(rules, call).None? <==> forall r :: r in rules ==> !Matches(r, call)
    ensures Winner(rules, call).Some? ==>
              exists i :: 0 <= i < |rules| && IsFirstBest(rules, call, i) && Winner(rules, call) == Some(rules[i])
  {
    hide Matching, MaxRank, WithRank, ByPriority, Winner, Matches, Beats;
    if |rules| == 0 {
      WinnerNone(call);
    } else {
      WinnerStep(rules, call);
      var tail := rules[1..];
      WinnerExactly(tail, call);
      assert rules == [rules[0]] + tail;
      assert forall r :: r in rules <==> r == rules[0] || r in tail;
      if Winner(tail, call).Some? {
        var i :| 0 <= i < |tail| && IsFirstBest(tail, call, i) && Winner(tail, call) == Some(tail[i]);
        FirstBestStep(rules, call, i);
        assert rules[i + 1] == tail[i];
      } else if Matches(rules[0], call) {
        FirstBestAlone(rules, call);
      }
    }
  }

  lemma WinnerNone(call: Call)
    ensures Winner([], call).None?
  {
  }

  lemma FirstBestAlone(rules: seq<Rule>, call: Call)
    requires |rules| > 0 && Matches(rules[0], call)
    requires forall r :: r in rules[1..] ==> !Matches(r, call)
    ensures IsFirstBest(rules, call, 0)
  {
    hide Matches;
    forall j ensures 0 < j < |rules| ==> !Matches(rules[j], call) {
      assert 0 < j < |rules| ==> rules[j] == rules[1..][j - 1] && rules[1..][j - 1] in rules[1..];
    }
  }

  lemma FirstBestStep(rules: seq<Rule>, call: Call, i: nat)
    requires i + 1 < |rules| && IsFirstBest(rules[1..], call, i)
    ensures if Matches(rules[0], call) && !Beats(rules[i + 1], rules[0])
            then IsFirstBest(rules, call, 0) else IsFirstBest(rules, call, i + 1)
  {
    hide Matches;
    var tail := rules[1..];
    forall j | 0 < j < |rules| ensures rules[j] == tail[j - 1] {}
    assert Matches(tail[i], call);
    forall j | 0 < j < |rules| && Matches(rules[j], call) ensures !Beats(rules[j], rules[i + 1]) {
      assert !Beats(tail[j - 1], tail[i]);
    }
    forall j | 0 < j < i + 1 && Matches(rules[j], call) ensures Beats(rules[i + 1], rules[j]) {
      assert Beats(tail[i], tail[j - 1]);
    }
  }

  // ----- Decisions -----

  ghost predicate SomeMatch(rules: seq<Rule>, call: Call, e: Effect) {
    exists r :: r in rules && Matches(r, call) && r.effect == e
  }

  /** The decision of a set of rules, read off without any order. */
  ghost function StrictestDecision(rules: seq<Rule>, call: Call): Effect {
    if SomeMatch(rules, call, Deny) then Deny
    else if SomeMatch(rules, call, Require) then Require
    else if SomeMatch(rules, call, Allow) then Allow
    else Deny
  }

  /** Every verdict carries the strictest matching effect; the only failure is an empty reason
      written on the deciding rule. */
  lemma EvaluateExactly(rules: seq<Rule>, call: Call)
    ensures Evaluate(rules, call).Ok? ==> Evaluate(rules, call).value.decision == StrictestDecision(rules, call)
    ensures Evaluate(rules, call).Err? <==> Winner(rules, call).Some? && Winner(rules, call).value.reason == Some([])
    ensures Evaluate(rules, call).Ok? && Evaluate(rules, call).value.decision == Require ==>
              Evaluate(rules, call).value.ruleId.Some?
  {
    hide Winner, Matches;
    WinnerExactly(rules, call);
    if Winner(rules, call).Some? {
      var i :| 0 <= i < |rules| && IsFirstBest(rules, call, i) && Winner(rules, call) == Some(rules[i]);
      forall e | SomeMatch(rules, call, e) ensures Restrictiveness(e) <= Restrictiveness(rules[i].effect) {
        var r :| r in rules && Matches(r, call) && r.effect == e;
        var j :| 0 <= j < |rules| && rules[j] == r;
        assert !Beats(rules[j], rules[i]);
      }
      assert SomeMatch(rules, call, rules[i].effect);
    }
  }

  /** A call is denied exactly when no rule matches or a matching rule denies. */
  lemma DeniesExactly(rules: seq<Rule>, call: Call)
    requires Evaluate(rules, call).Ok?
    ensures Evaluate(rules, call).value.decision == Deny <==>
              (forall r :: r in rules ==> !Matches(r, call)) || SomeMatch(rules, call, Deny)
  {
    hide Evaluate, Matches;
    EvaluateExactly(rules, call);
    if r :| r in rules && Matches(r, call) {
      assert SomeMatch(rules, call, r.effect);
    }
  }

  /** Reordering the rules changes no decision. */
  lemma OrderIrrelevant(rules: seq<Rule>, others: seq<Rule>, call: Call)
    requires multiset(rules) == multiset(others)
    requires Evaluate(rules, call).Ok? && Evaluate(others, call).Ok?
    ensures Evaluate(rules, call).value.decision == Evaluate(others, call).value.decision
  {
    hide Evaluate, Matches;
    EvaluateExactly(rules, call);
    EvaluateExactly(others, call);
    forall r ensures r in rules <==> r in others {
      assert r in multiset(rules) <==> r in multiset(others);
    }
    assert forall e :: SomeMatch(rules, call, e) <==> SomeMatch(others, call, e);
  }

  /** Adding rules anywhere never makes a call that a rule already matched less strict. */
  lemma AddingNeverLoosens(rules: seq<Rule>, more: seq<Rule>, call: Call)
    requires forall r :: r in rules ==> r in more
    requires exists r :: r in rules && Matches(r, call)
    requires Evaluate(rules, call).Ok? && Evaluate(more, call).Ok?
    ensures Restrictiveness(Evaluate(more, call).value.decision) >=
            Restrictiveness(Evaluate(rules, call).value.decision)
  {
    hide Evaluate, Matches;
    EvaluateExactly(rules, call);
    EvaluateExactly(more, call);
    assert forall e :: SomeMatch(rules, call, e) ==> SomeMatch(more, call, e);
    var r :| r in rules && Matches(r, call);
    assert SomeMatch(rules, call, r.effect);
  }

  // ----- The whole verdict -----

  /** The rule is for this tool or for every tool, and for this actor or for every actor. */
  ghost predicate Applies(r: Rule, call: Call) {
    (r.tool == [42] || r.tool == call.tool) && (r.actor == None || r.actor == Some(call.actor))
  }

  ghost predicate Stricter(a: Effect, b: Effect) { (a == Deny && b != Deny) || (a == Require && b == Allow) }

  /** A stricter effect, or the same effect with a higher priority, which is 0 when it is not given. */
  ghost predicate Overrules(r: Rule, other: Rule) {
    || Stricter(r.effect, other.effect)
    || (r.effect == other.effect &&
        (if r.priority == None then 0 else r.priority.value) >
        (if other.priority == None then 0 else other.priority.value))
  }

  /** No rule that applies overrules rule i, and rule i overrules every earlier one that applies. */
  ghost predicate Decides(rules: seq<Rule>, call: Call, i: nat) {
    && i < |rules| && Applies(rules[i], call)
    && (forall j :: 0 <= j < |rules| && Applies(rules[j], call) ==> !Overrules(rules[j], rules[i]))
    && (forall j :: 0 <= j < i && Applies(rules[j], call) ==> Overrules(rules[i], rules[j]))
  }

  lemma SameOrder(r: Rule, other: Rule, call: Call)
    ensures Matches(r, call) <==> Applies(r, call)
    ensures Beats(r, other) <==> Overrules(r, other)
  {
    assert Ascii("*") == [42];
  }

  lemma DecidesExactly(rules: seq<Rule>, call: Call, i: nat)
    requires i < |rules|
    ensures IsFirstBest(rules, call, i) <==> Decides(rules, call, i)
  {
    hide Matches, Applies, Beats, Overrules;
    forall j | 0 <= j < |rules|
      ensures Matches(rules[j], call) <==> Applies(rules[j], call)
      ensures Beats(rules[j], rules[i]) <==> Overrules(rules[j], rules[i])
      ensures Beats(rules[i], rules[j]) <==> Overrules(rules[i], rules[j])
    {
      SameOrder(rules[j], rules[i], call);
      SameOrder(rules[i], rules[j], call);
    }
  }

  /** At most one rule decides. */
  lemma OneDecides(rules: seq<Rule>, call: Call, i: nat, j: nat)
    requires Decides(rules, call, i) && Decides(rules, call, j)
    ensures i == j
  {
    hide Applies, Overrules;
  }

  /** The reason of a rule, or a text that names the rule and its effect. */
  ghost function ReasonOf(r: Rule): Text {
    match r.reason
    case Some(text) => text
    case None =>
      Ascii("rule '") + r.id + Ascii("' ") + [0x2192, 32] +
      match r.effect case Allow => Ascii("allow") case Deny => Ascii("deny") case Require => Ascii("require")
  }

  lemma ReasonExactly(r: Rule)
    ensures RuleReason(r) == ReasonOf(r) && (ReasonOf(r) == [] <==> r.reason == Some([]))
  {
    assert Ascii(" ") == [32];
    assert |Ascii("rule '")| == 6;
    var a, b := Ascii("rule '") + r.id + Ascii("' "), EffectText(r.effect);
    assert a + [0x2192] + [32] + b == a + [0x2192, 32] + b;
  }

  /** A verdict is given exactly if it is the default denial and no rule applies, or it carries the
      effect, the reason, the id and the tier of the rule that decides; there is none exactly if the
      reason written on that rule is empty. */
  lemma VerdictExactly(rules: seq<Rule>, call: Call, v: Verdict)
    ensures Evaluate(rules, call) == Ok(v) <==>
            || ((forall r :: r in rules ==> !Applies(r, call)) &&
                v == Verdict(Deny, Ascii("no matching rule for tool '") + call.tool + Ascii("' (default-deny)"), None,
                             None))
            || exists i: nat :: Decides(rules, call, i) && ReasonOf(rules[i]) != [] &&
                 v == Verdict(rules[i].effect, ReasonOf(rules[i]), Some(rules[i].id), rules[i].tier)
    ensures Evaluate(rules, call).Err? <==> exists i: nat :: Decides(rules, call, i) && rules[i].reason == Some([])
  {
    hide Winner, Matches, Applies, IsFirstBest, Decides, RuleReason, ReasonOf;
    WinnerExactly(rules, call);
    forall r ensures Matches(r, call) <==> Applies(r, call) { SameOrder(r, r, call); }
    if Winner(rules, call).Some? {
      var i :| 0 <= i < |rules| && IsFirstBest(rules, call, i) && Winner(rules, call) == Some(rules[i]);
      DecidesExactly(rules, call, i);
      ReasonExactly(rules[i]);
      assert Decides(rules, call, i);
      ApplicableDecides(rules, call, i);
      forall j: nat | Decides(rules, call, j) ensures j == i { OneDecides(rules, call, i, j); }
    } else {
      if j: nat :| Decides(rules, call, j) { ApplicableDecides(rules, call, j); }
    }
  }

  lemma ApplicableDecides(rules: seq<Rule>, call: Call, i: nat)
    requires Decides(rules, call, i)
    ensures i < |rules| && Applies(rules[i], call) && rules[i] in rules
  {
  }
}
