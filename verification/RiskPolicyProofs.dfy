/** The verdict as a join: what it is the strictest of, in which order it may be asked, how it grows. */
module RiskPolicyProofs {
  import opened Wrappers
  import opened Sequences
  import opened Findings
  import opened RiskPolicy

  // ---------- The strictest of all that is said ----------

  lemma {:induction false} StrictestIsJoin(base: Decision, ds: seq<Decision>)
    ensures Strictest(base, ds) == base || Strictest(base, ds) in ds
    ensures Rank(base) <= Rank(Strictest(base, ds))
    ensures forall d :: d in ds ==> Rank(d) <= Rank(Strictest(base, ds))
  {
    if ds != [] {
      var front := ds[..|ds| - 1];
      StrictestIsJoin(base, front);
      assert ds == front + [ds[|ds| - 1]];
    }
  }

  lemma {:induction false} HighestIsMax(base: int, scores: seq<int>)
    ensures Highest(base, scores) == base || Highest(base, scores) in scores
    ensures base <= Highest(base, scores)
    ensures forall x :: x in scores ==> x <= Highest(base, scores)
  {
    if scores != [] {
      var front := scores[..|scores| - 1];
      HighestIsMax(base, front);
      assert scores == front + [scores[|scores| - 1]];
    }
  }

  /** The finding is of a type or of a category that the rule names. */
  ghost predicate Hit(r: Rule, f: Finding) {
    (f.kind.Some? && f.kind.value in r.matchTypes) || f.category in r.matchCategories
  }

  ghost predicate HitBy(r: Rule, fs: seq<Finding>) {
    exists f :: f in fs && Hit(r, f)
  }

  /** How many findings the rule hits. */
  ghost function Hits(r: Rule, fs: seq<Finding>): nat {
    if fs == [] then 0 else (if Hit(r, fs[0]) then 1 else 0) + Hits(r, fs[1..])
  }

  lemma {:induction false} HitsAreMatches(r: Rule, fs: seq<Finding>)
    ensures MatchCount(r, fs) == Hits(r, fs)
    ensures HitBy(r, fs) <==> Hits(r, fs) > 0
  {
    if fs != [] {
      HitsAreMatches(r, fs[1..]);
      assert Matches(r, fs[0]) <==> Hit(r, fs[0]);
      assert fs == [fs[0]] + fs[1..];
      assert forall f :: f in fs <==> f == fs[0] || f in fs[1..];
    }
  }

  lemma HitsGrow(r: Rule, fs: seq<Finding>, gs: seq<Finding>)
    requires multiset(fs) <= multiset(gs)
    ensures Hits(r, fs) <= Hits(r, gs) && (HitBy(r, fs) ==> HitBy(r, gs))
  {
    hide Matches, Filter, Hits, HitBy;
    HitsAreMatches(r, fs);
    HitsAreMatches(r, gs);
    CountsGrow(Matcher(r), fs, gs);
  }

  /** What a rule says once it hits something: its decision, or REVIEW when its threshold is reached. */
  ghost predicate RuleSays(r: Rule, fs: seq<Finding>, d: Decision) {
    && HitBy(r, fs)
    && d == if r.reviewThreshold > 0 && Hits(r, fs) >= r.reviewThreshold then REVIEW else r.decision
  }

  /** Some rule, finding or risk speaks for this decision. */
  ghost predicate Says(rules: seq<Rule>, fs: seq<Finding>, cs: seq<CompositeRisk>, d: Decision) {
    || (exists r :: r in rules && RuleSays(r, fs, d))
    || (exists f :: f in fs && f.contribution == Wants(d))
    || (exists c :: c in cs && c.decisionContribution == d)
  }

  ghost predicate FindingScores(f: Finding, x: int) {
    && f.category != "PUBLIC_IDENTIFIER" && !f.contribution.Neutral?
    && ((f.severity == CRITICAL && x == 90) || (f.severity == HIGH && x == 70))
  }

  ghost predicate RiskScores(c: CompositeRisk, x: int) {
    || (c.risk == CRITICAL && x == 95)
    || (c.risk == HIGH && x == 75)
    || (c.risk == MEDIUM && x == 50)
    || (c.risk == LOW && x == 20)
  }

  ghost predicate Scores(rules: seq<Rule>, fs: seq<Finding>, cs: seq<CompositeRisk>, x: int) {
    || (exists r :: r in rules && HitBy(r, fs) && r.riskScore == x)
    || (exists f :: f in fs && FindingScores(f, x))
    || (exists c :: c in cs && RiskScores(c, x))
  }

  ghost predicate Applies(rules: seq<Rule>, fs: seq<Finding>, cs: seq<CompositeRisk>, id: string) {
    || (exists r :: r in rules && HitBy(r, fs) && r.id == id)
    || (exists c :: c in cs && c.ruleId == id)
  }

  lemma RuleCaseMembers(r: Rule, fs: seq<Finding>)
    ensures forall d :: d in RuleCase(r, fs).decisions <==> RuleSays(r, fs, d)
    ensures forall x :: x in RuleCase(r, fs).scores <==> HitBy(r, fs) && r.riskScore == x
    ensures forall id :: id in RuleCase(r, fs).ids <==> HitBy(r, fs) && r.id == id
  {
    hide MatchCount, Hits, HitBy;
    HitsAreMatches(r, fs);
  }

  lemma FindingCaseMembers(f: Finding)
    ensures forall d :: d in FindingCase(f).decisions <==> f.contribution == Wants(d)
    ensures forall x :: x in FindingCase(f).scores <==> FindingScores(f, x)
    ensures FindingCase(f).ids == []
  {
  }

  lemma {:induction false} RulesCaseMembers(rules: seq<Rule>, fs: seq<Finding>)
    ensures forall d :: d in RulesCase(rules, fs).decisions <==> exists r :: r in rules && RuleSays(r, fs, d)
    ensures forall x :: x in RulesCase(rules, fs).scores <==>
      exists r :: r in rules && HitBy(r, fs) && r.riskScore == x
    ensures forall id :: id in RulesCase(rules, fs).ids <==>
      exists r :: r in rules && HitBy(r, fs) && r.id == id
  {
    hide HitBy, RuleSays, RuleCase;
    if rules != [] {
      var front, last := rules[..|rules| - 1], rules[|rules| - 1];
      RulesCaseMembers(front, fs);
      RuleCaseMembers(last, fs);
      assert rules == front + [last];
      assert last in rules && forall r :: r in rules <==> r in front || r == last;
    }
  }

  lemma {:induction false} FindingsDecision(fs: seq<Finding>, d: Decision)
    ensures d in FindingsCase(fs).decisions <==> exists f :: f in fs && f.contribution == Wants(d)
  {
    hide FindingCase;
    if fs != [] {
      var front, last := fs[..|fs| - 1], fs[|fs| - 1];
      FindingsDecision(front, d);
      FindingCaseMembers(last);
      assert fs == front + [last] && last in fs;
    }
  }

  lemma {:induction false} FindingsScore(fs: seq<Finding>, x: int)
    ensures x in FindingsCase(fs).scores <==> exists f :: f in fs && FindingScores(f, x)
  {
    hide FindingCase, FindingScores;
    if fs != [] {
      var front, last := fs[..|fs| - 1], fs[|fs| - 1];
      FindingsScore(front, x);
      FindingCaseMembers(last);
      assert fs == front + [last] && last in fs;
    }
  }

  lemma {:induction false} FindingsNameNothing(fs: seq<Finding>)
    ensures FindingsCase(fs).ids == []
  {
    if fs != [] {
      FindingsNameNothing(fs[..|fs| - 1]);
    }
  }

  lemma FindingsCaseMembers(fs: seq<Finding>)
    ensures forall d :: d in FindingsCase(fs).decisions <==> exists f :: f in fs && f.contribution == Wants(d)
    ensures forall x :: x in FindingsCase(fs).scores <==> exists f :: f in fs && FindingScores(f, x)
    ensures FindingsCase(fs).ids == []
  {
    hide *;
    forall d ensures d in FindingsCase(fs).decisions <==> exists f :: f in fs && f.contribution == Wants(d) {
      FindingsDecision(fs, d);
    }
    forall x ensures x in FindingsCase(fs).scores <==> exists f :: f in fs && FindingScores(f, x) {
      FindingsScore(fs, x);
    }
    FindingsNameNothing(fs);
  }

  lemma RiskCaseMembers(c: CompositeRisk)
    ensures RiskCase(c).decisions == [c.decisionContribution] && RiskCase(c).ids == [c.ruleId]
    ensures forall x :: x in RiskCase(c).scores <==> RiskScores(c, x)
  {
  }

  lemma {:induction false} RisksCaseMembers(cs: seq<CompositeRisk>)
    ensures forall d :: d in RisksCase(cs).decisions <==> exists c :: c in cs && c.decisionContribution == d
    ensures forall x :: x in RisksCase(cs).scores <==> exists c :: c in cs && RiskScores(c, x)
    ensures forall id :: id in RisksCase(cs).ids <==> exists c :: c in cs && c.ruleId == id
  {
    if cs != [] {
      var front, last := cs[..|cs| - 1], cs[|cs| - 1];
      hide RiskCase, RiskScores;
      RisksCaseMembers(front);
      RiskCaseMembers(last);
      assert cs == front + [last] && last in cs;
      assert forall c :: c in cs <==> c in front || c == last;
    }
  }

  lemma TableMembers(rules: seq<Rule>, fs: seq<Finding>, cs: seq<CompositeRisk>)
    ensures forall d :: d in Table(rules, fs, cs).decisions <==> Says(rules, fs, cs, d)
    ensures forall x :: x in Table(rules, fs, cs).scores <==> Scores(rules, fs, cs, x)
    ensures forall id :: id in Table(rules, fs, cs).ids <==> Applies(rules, fs, cs, id)
  {
    hide RulesCase, FindingsCase, RisksCase, RuleSays, FindingScores, HitBy, RiskScores;
    RulesCaseMembers(rules, fs);
    FindingsCaseMembers(fs);
    RisksCaseMembers(cs);
  }

  function Base(maskingApplied: bool): Decision {
    if maskingApplied then MASK else ALLOW
  }

  /** The verdict: the strictest decision and the highest score of all that speak, and all of them named once. */
  lemma VerdictIsJoin(rules: seq<Rule>, fs: seq<Finding>, maskingApplied: bool, cs: seq<CompositeRisk>)
    ensures var v := Evaluate(rules, fs, maskingApplied, cs);
      && (v.decision == Base(maskingApplied) || Says(rules, fs, cs, v.decision))
      && Rank(Base(maskingApplied)) <= Rank(v.decision)
      && (forall d :: Says(rules, fs, cs, d) ==> Rank(d) <= Rank(v.decision))
    ensures var v, base := Evaluate(rules, fs, maskingApplied, cs), if maskingApplied then 45 else 5;
      && (v.riskScore == base || Scores(rules, fs, cs, v.riskScore))
      && base <= v.riskScore
      && (forall x :: Scores(rules, fs, cs, x) ==> x <= v.riskScore)
    ensures forall id :: id in Evaluate(rules, fs, maskingApplied, cs).appliedPolicies <==> Applies(rules, fs, cs, id)
  {
    hide Table, Says, Scores, Applies, Strictest, Highest;
    TableMembers(rules, fs, cs);
    StrictestIsJoin(Base(maskingApplied), Table(rules, fs, cs).decisions);
    HighestIsMax(if maskingApplied then 45 else 5, Table(rules, fs, cs).scores);
  }

  /** Blocked exactly if somebody says so; allowed exactly if nothing is masked and nobody asks for more. */
  lemma BlockedAndAllowedIff(rules: seq<Rule>, fs: seq<Finding>, maskingApplied: bool, cs: seq<CompositeRisk>)
    ensures var v := Evaluate(rules, fs, maskingApplied, cs);
      && (v.decision == BLOCK <==> Says(rules, fs, cs, BLOCK))
      && (v.decision == ALLOW <==> !maskingApplied && forall d :: Says(rules, fs, cs, d) ==> d == ALLOW)
  {
    hide Says, Evaluate;
    VerdictIsJoin(rules, fs, maskingApplied, cs);
  }

  /** The four decisions one by one, and the four levels. */
  lemma DecisionIff(rules: seq<Rule>, fs: seq<Finding>, maskingApplied: bool, cs: seq<CompositeRisk>)
    ensures var d := Evaluate(rules, fs, maskingApplied, cs).decision;
      var blocks, reviews := Says(rules, fs, cs, BLOCK), Says(rules, fs, cs, REVIEW);
      var masks := maskingApplied || Says(rules, fs, cs, MASK);
      && (d == BLOCK <==> blocks)
      && (d == REVIEW <==> reviews && !blocks)
      && (d == MASK <==> masks && !reviews && !blocks)
      && (d == ALLOW <==> !masks && !reviews && !blocks)
    ensures var v := Evaluate(rules, fs, maskingApplied, cs);
      && (v.riskLevel == CRITICAL <==> v.riskScore >= 85)
      && (v.riskLevel == HIGH <==> 70 <= v.riskScore < 85)
      && (v.riskLevel == MEDIUM <==> 40 <= v.riskScore < 70)
      && (v.riskLevel == LOW <==> v.riskScore < 40)
  {
    hide Says, Table, Strictest, Highest, Dedup;
    VerdictIsJoin(rules, fs, maskingApplied, cs);
  }

  /** A rule is applied if and only if it hits a finding, unless a risk bears its id; and when it hits, its score and
      what it says bound the verdict from below. */
  lemma RuleIsApplied(rules: seq<Rule>, r: Rule, fs: seq<Finding>, maskingApplied: bool, cs: seq<CompositeRisk>)
    requires r in rules
    requires (forall s :: s in rules && s.id == r.id ==> s == r) && forall c :: c in cs ==> c.ruleId != r.id
    ensures var v := Evaluate(rules, fs, maskingApplied, cs);
      && (r.id in v.appliedPolicies <==> HitBy(r, fs))
      && (HitBy(r, fs) ==> v.riskScore >= r.riskScore)
      && (HitBy(r, fs) && (r.reviewThreshold == 0 || Hits(r, fs) < r.reviewThreshold) ==>
            Rank(v.decision) >= Rank(r.decision))
      && (HitBy(r, fs) && r.reviewThreshold > 0 && Hits(r, fs) >= r.reviewThreshold ==>
            v.decision == REVIEW || v.decision == BLOCK)
  {
    hide HitBy, Hits, Evaluate, FindingScores, RiskScores;
    VerdictIsJoin(rules, fs, maskingApplied, cs);
    if HitBy(r, fs) {
      var d := if r.reviewThreshold > 0 && Hits(r, fs) >= r.reviewThreshold then REVIEW else r.decision;
      assert RuleSays(r, fs, d);
      assert Says(rules, fs, cs, d) && Scores(rules, fs, cs, r.riskScore);
    }
  }

  // ---------- More findings ----------

  lemma CountsGrow(p: Finding -> bool, fs: seq<Finding>, gs: seq<Finding>)
    requires multiset(fs) <= multiset(gs)
    ensures |Filter(p, fs)| <= |Filter(p, gs)|
  {
    var a, b := multiset(Filter(p, fs)), multiset(Filter(p, gs));
    forall x ensures a[x] <= b[x] {
      FilterCounts(p, fs, x);
      FilterCounts(p, gs, x);
      assert multiset(fs)[x] <= multiset(gs)[x];
    }
    assert a <= b && b == a + (b - a);
    assert |Filter(p, fs)| == |a| && |Filter(p, gs)| == |b|;
  }

  lemma MembersStay(fs: seq<Finding>, gs: seq<Finding>)
    requires multiset(fs) <= multiset(gs)
    ensures forall f :: f in fs ==> f in gs
  {
    forall f | f in fs ensures f in gs {
      assert f in multiset(fs) && f in multiset(gs);
    }
  }

  /** More findings, no fewer combinations. */
  lemma PresentGrows(i: nat, fs: seq<Finding>, gs: seq<Finding>)
    requires i < 13 && multiset(fs) <= multiset(gs) && Present(i, fs)
    ensures Present(i, gs)
  {
    hide IsOneOf;
    MembersStay(fs, gs);
    CountsGrow(OneOf(WALLET_TYPES), fs, gs);
    CountsGrow(OneOf(PERSONAL_TYPES), fs, gs);
  }

  lemma AtRiskGrows(i: nat, fs: seq<Finding>, gs: seq<Finding>, d: Destination)
    requires i < 4 && multiset(fs) <= multiset(gs) && AtRisk(i, fs, d)
    ensures AtRisk(i, gs, d)
  {
    hide IsOneOf;
    MembersStay(fs, gs);
  }

  lemma {:induction false} CompositesGrow(fs: seq<Finding>, gs: seq<Finding>, n: nat)
    requires n <= 13 && multiset(fs) <= multiset(gs)
    ensures forall c :: c in CompositesUpTo(fs, n) ==> c in CompositesUpTo(gs, n)
  {
    hide Present, Combination;
    if n > 0 {
      CompositesGrow(fs, gs, n - 1);
      if Present(n - 1, fs) { PresentGrows(n - 1, fs, gs); }
    }
  }

  lemma {:induction false} DestinationsGrow(fs: seq<Finding>, gs: seq<Finding>, d: Destination, n: nat)
    requires n <= 4 && multiset(fs) <= multiset(gs)
    ensures forall c :: c in DestinationUpTo(fs, d, n) ==> c in DestinationUpTo(gs, d, n)
  {
    hide AtRisk, DestinationRisk;
    if n > 0 {
      DestinationsGrow(fs, gs, d, n - 1);
      if AtRisk(n - 1, fs, d) { AtRiskGrows(n - 1, fs, gs, d); }
    }
  }

  /** A rule that never says less on more matches: its threshold is not above the first match, or it asks
      for a review at most. */
  predicate Tame(r: Rule) {
    r.reviewThreshold <= 1 || r.decision != BLOCK
  }

  /** That is exactly the condition. */
  lemma TameIffMonotone(r: Rule)
    ensures Tame(r) <==> forall n: nat, m: nat :: 0 < n <= m ==> Rank(RuleDecision(r, n)) <= Rank(RuleDecision(r, m))
  {
    if !Tame(r) {
      assert Rank(RuleDecision(r, 1)) > Rank(RuleDecision(r, r.reviewThreshold));
    }
  }

  lemma SaysGrows(rules: seq<Rule>, fs: seq<Finding>, cs: seq<CompositeRisk>,
                  gs: seq<Finding>, ds: seq<CompositeRisk>, d: Decision) returns (e: Decision)
    requires forall r :: r in rules ==> Tame(r)
    requires multiset(fs) <= multiset(gs) && forall c :: c in cs ==> c in ds
    requires Says(rules, fs, cs, d)
    ensures Says(rules, gs, ds, e) && Rank(d) <= Rank(e)
  {
    hide Hits, HitBy;
    MembersStay(fs, gs);
    if r :| r in rules && RuleSays(r, fs, d) {
      HitsGrow(r, fs, gs);
      HitsAreMatches(r, fs);
      e := if r.reviewThreshold > 0 && Hits(r, gs) >= r.reviewThreshold then REVIEW else r.decision;
      assert RuleSays(r, gs, e);
    } else {
      e := d;
    }
  }

  lemma ScoresAndNamesGrow(rules: seq<Rule>, fs: seq<Finding>, cs: seq<CompositeRisk>,
                           gs: seq<Finding>, ds: seq<CompositeRisk>)
    requires multiset(fs) <= multiset(gs) && forall c :: c in cs ==> c in ds
    ensures forall x :: Scores(rules, fs, cs, x) ==> Scores(rules, gs, ds, x)
    ensures forall id :: Applies(rules, fs, cs, id) ==> Applies(rules, gs, ds, id)
  {
    hide HitBy, FindingScores, RiskScores;
    MembersStay(fs, gs);
    forall r | r in rules && HitBy(r, fs) ensures HitBy(r, gs) {
      HitsGrow(r, fs, gs);
    }
  }

  ghost predicate NotLess(v: Verdict, w: Verdict) {
    && Rank(v.decision) <= Rank(w.decision)
    && v.riskScore <= w.riskScore
    && forall id :: id in v.appliedPolicies ==> id in w.appliedPolicies
  }

  lemma MoreFindingsMoreRisksNotLess(rules: seq<Rule>, fs: seq<Finding>, cs: seq<CompositeRisk>,
                                     gs: seq<Finding>, ds: seq<CompositeRisk>, maskingApplied: bool)
    requires forall r :: r in rules ==> Tame(r)
    requires multiset(fs) <= multiset(gs) && forall c :: c in cs ==> c in ds
    ensures NotLess(Evaluate(rules, fs, maskingApplied, cs), Evaluate(rules, gs, maskingApplied, ds))
  {
    hide Evaluate, Says, Scores, Applies, Tame;
    VerdictIsJoin(rules, fs, maskingApplied, cs);
    VerdictIsJoin(rules, gs, maskingApplied, ds);
    ScoresAndNamesGrow(rules, fs, cs, gs, ds);
    var d := Evaluate(rules, fs, maskingApplied, cs).decision;
    if Says(rules, fs, cs, d) {
      var e := SaysGrows(rules, fs, cs, gs, ds, d);
    }
  }

  lemma RisksGrow(fs: seq<Finding>, gs: seq<Finding>, destination: Option<Destination>)
    requires multiset(fs) <= multiset(gs)
    ensures forall c :: c in CompositeRisks(fs) + DestinationRisks(fs, destination) ==>
      c in CompositeRisks(gs) + DestinationRisks(gs, destination)
  {
    hide CompositesUpTo, DestinationUpTo;
    CompositesGrow(fs, gs, 13);
    if destination.Some? { DestinationsGrow(fs, gs, destination.value, 4); }
  }

  /** Monotone: further findings never soften the decision, lower the score or drop a policy, if every rule is tame. */
  lemma JudgeIsMonotone(rules: seq<Rule>, fs: seq<Finding>, gs: seq<Finding>, maskingApplied: bool,
                        destination: Option<Destination>)
    requires forall r :: r in rules ==> Tame(r)
    requires multiset(fs) <= multiset(gs)
    ensures NotLess(Judge(rules, fs, maskingApplied, destination), Judge(rules, gs, maskingApplied, destination))
  {
    hide Evaluate, CompositeRisks, DestinationRisks, NotLess, Tame;
    RisksGrow(fs, gs, destination);
    MoreFindingsMoreRisksNotLess(rules, fs, CompositeRisks(fs) + DestinationRisks(fs, destination),
      gs, CompositeRisks(gs) + DestinationRisks(gs, destination), maskingApplied);
  }

  /** Nobody asks for more than letting the input through. */
  ghost predicate NobodyObjects(rules: seq<Rule>, fs: seq<Finding>, cs: seq<CompositeRisk>) {
    forall d :: Says(rules, fs, cs, d) ==> d == ALLOW
  }

  ghost predicate NobodyScores(rules: seq<Rule>, fs: seq<Finding>, cs: seq<CompositeRisk>, bound: int) {
    forall x :: Scores(rules, fs, cs, x) ==> x < bound
  }

  /** Further findings that take the masking flag away: when the decision softens, to what, and when the score falls. */
  lemma LosingTheFlag(rules: seq<Rule>, fs: seq<Finding>, cs: seq<CompositeRisk>, gs: seq<Finding>,
                      ds: seq<CompositeRisk>)
    requires forall r :: r in rules ==> Tame(r)
    requires multiset(fs) <= multiset(gs) && forall c :: c in cs ==> c in ds
    ensures var a, b := Evaluate(rules, fs, true, cs), Evaluate(rules, gs, false, ds);
      && (Rank(b.decision) < Rank(a.decision) <==> NobodyObjects(rules, gs, ds))
      && (NobodyObjects(rules, gs, ds) ==> a.decision == MASK && b.decision == ALLOW)
  {
    hide Evaluate, Says, Scores, Applies, Tame;
    VerdictIsJoin(rules, fs, true, cs);
    VerdictIsJoin(rules, gs, false, ds);
    var d := Evaluate(rules, fs, true, cs).decision;
    if Says(rules, fs, cs, d) {
      var e := SaysGrows(rules, fs, cs, gs, ds, d);
    }
  }

  lemma LosingTheFlagAndTheScore(rules: seq<Rule>, fs: seq<Finding>, cs: seq<CompositeRisk>,
                                 gs: seq<Finding>, ds: seq<CompositeRisk>)
    requires multiset(fs) <= multiset(gs) && forall c :: c in cs ==> c in ds
    ensures var a, b := Evaluate(rules, fs, true, cs), Evaluate(rules, gs, false, ds);
      && (b.riskScore < a.riskScore <==> NobodyScores(rules, gs, ds, 45))
      && (NobodyScores(rules, gs, ds, 45) ==> a.riskScore == 45)
      && forall id :: id in a.appliedPolicies ==> id in b.appliedPolicies
  {
    hide Evaluate, Says, Scores, Applies;
    VerdictIsJoin(rules, fs, true, cs);
    VerdictIsJoin(rules, gs, false, ds);
    ScoresAndNamesGrow(rules, fs, cs, gs, ds);
  }

  // ---------- In any order ----------

  lemma {:induction false} RulesCaseIgnoresOrder(rules: seq<Rule>, fs: seq<Finding>, gs: seq<Finding>)
    requires multiset(fs) == multiset(gs)
    ensures RulesCase(rules, fs) == RulesCase(rules, gs)
  {
    hide Matches, Filter;
    if rules != [] {
      var r := rules[|rules| - 1];
      RulesCaseIgnoresOrder(rules[..|rules| - 1], fs, gs);
      CountsGrow(Matcher(r), fs, gs);
      CountsGrow(Matcher(r), gs, fs);
    }
  }

  lemma {:induction false} CompositesIgnoreOrder(fs: seq<Finding>, gs: seq<Finding>, n: nat)
    requires n <= 13 && multiset(fs) == multiset(gs)
    ensures CompositesUpTo(fs, n) == CompositesUpTo(gs, n)
  {
    hide Present, Combination;
    if n > 0 {
      CompositesIgnoreOrder(fs, gs, n - 1);
      if Present(n - 1, fs) { PresentGrows(n - 1, fs, gs); }
      if Present(n - 1, gs) { PresentGrows(n - 1, gs, fs); }
    }
  }

  lemma {:induction false} DestinationsIgnoreOrder(fs: seq<Finding>, gs: seq<Finding>, d: Destination, n: nat)
    requires n <= 4 && multiset(fs) == multiset(gs)
    ensures DestinationUpTo(fs, d, n) == DestinationUpTo(gs, d, n)
  {
    hide AtRisk, DestinationRisk;
    if n > 0 {
      DestinationsIgnoreOrder(fs, gs, d, n - 1);
      if AtRisk(n - 1, fs, d) { AtRiskGrows(n - 1, fs, gs, d); }
      if AtRisk(n - 1, gs, d) { AtRiskGrows(n - 1, gs, fs, d); }
    }
  }

  lemma SameIds(rules: seq<Rule>, fs: seq<Finding>, gs: seq<Finding>, cs: seq<CompositeRisk>)
    requires multiset(fs) == multiset(gs)
    ensures Table(rules, fs, cs).ids == Table(rules, gs, cs).ids
  {
    hide RulesCase, FindingsCase, RisksCase;
    RulesCaseIgnoresOrder(rules, fs, gs);
    FindingsCaseMembers(fs);
    FindingsCaseMembers(gs);
  }

  lemma SameSays(rules: seq<Rule>, fs: seq<Finding>, gs: seq<Finding>, cs: seq<CompositeRisk>)
    requires multiset(fs) == multiset(gs)
    ensures forall d :: Says(rules, fs, cs, d) <==> Says(rules, gs, cs, d)
  {
    hide Hits, HitBy;
    MembersStay(fs, gs);
    MembersStay(gs, fs);
    forall r ensures Hits(r, fs) == Hits(r, gs) && (HitBy(r, fs) <==> HitBy(r, gs)) {
      HitsGrow(r, fs, gs);
      HitsGrow(r, gs, fs);
    }
  }

  lemma EvaluateIgnoresOrder(rules: seq<Rule>, fs: seq<Finding>, gs: seq<Finding>, maskingApplied: bool,
                             cs: seq<CompositeRisk>)
    requires multiset(fs) == multiset(gs)
    ensures Evaluate(rules, fs, maskingApplied, cs) == Evaluate(rules, gs, maskingApplied, cs)
  {
    hide Table, Says, Scores, Applies, Strictest, Highest, Dedup;
    VerdictIsJoin(rules, fs, maskingApplied, cs);
    VerdictIsJoin(rules, gs, maskingApplied, cs);
    ScoresAndNamesGrow(rules, fs, cs, gs, cs);
    ScoresAndNamesGrow(rules, gs, cs, fs, cs);
    SameSays(rules, fs, gs, cs);
    SameIds(rules, fs, gs, cs);
  }

  /** The order of the findings shows nowhere in the verdict. */
  lemma JudgeIgnoresOrder(rules: seq<Rule>, fs: seq<Finding>, gs: seq<Finding>, maskingApplied: bool,
                          destination: Option<Destination>)
    requires multiset(fs) == multiset(gs)
    ensures Judge(rules, fs, maskingApplied, destination) == Judge(rules, gs, maskingApplied, destination)
  {
    hide Evaluate, CompositesUpTo, DestinationUpTo;
    CompositesIgnoreOrder(fs, gs, 13);
    if destination.Some? { DestinationsIgnoreOrder(fs, gs, destination.value, 4); }
    EvaluateIgnoresOrder(rules, fs, gs, maskingApplied, CompositeRisks(fs) + DestinationRisks(fs, destination));
  }

  // ---------- A rule that is not tame ----------

  function Copies(f: Finding, n: nat): (r: seq<Finding>)
    ensures |r| == n && forall x :: x in r ==> x == f
  {
    if n == 0 then [] else [f] + Copies(f, n - 1)
  }

  lemma {:induction false} CopiesMatch(r: Rule, f: Finding, n: nat)
    requires Hit(r, f)
    ensures Hits(r, Copies(f, n)) == n
    ensures n > 0 ==> HitBy(r, Copies(f, n))
  {
    hide Hit;
    HitsAreMatches(r, Copies(f, n));
    if n > 0 {
      CopiesMatch(r, f, n - 1);
      assert Copies(f, n)[1..] == Copies(f, n - 1);
    }
  }

  /** A blocking rule with a threshold above one is softened by more of the same: blocked at the first match,
      under review at the threshold. */
  lemma UntamedRuleSoftens(r: Rule, f: Finding)
    requires !Tame(r) && Hit(r, f) && f.contribution != Wants(BLOCK)
    ensures Evaluate([r], [f], false, []).decision == BLOCK
    ensures Evaluate([r], Copies(f, r.reviewThreshold), false, []).decision == REVIEW
  {
    hide Evaluate, Hit, Hits, HitBy;
    var n := r.reviewThreshold;
    CopiesMatch(r, f, 1);
    assert Copies(f, 1) == [f];
    CopiesMatch(r, f, n);
    VerdictIsJoin([r], [f], false, []);
    VerdictIsJoin([r], Copies(f, n), false, []);
    assert r in [r];
    assert RuleSays(r, [f], BLOCK) && RuleSays(r, Copies(f, n), REVIEW);
    assert Says([r], [f], [], BLOCK) && Says([r], Copies(f, n), [], REVIEW);
  }
}
