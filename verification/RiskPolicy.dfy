/** The decision pipeline of the input-control demo: composite risks, destination risks, policy rules. */
module RiskPolicy {
  import opened Wrappers
  import opened Sequences
  import opened Findings

  /** A rule of the policy file; a missing threshold is 0. */
  datatype Rule = Rule(
    id: string,
    matchTypes: set<string>,
    matchCategories: set<string>,
    decision: Decision,
    riskScore: int,
    reviewThreshold: nat)

  datatype Verdict = Verdict(decision: Decision, riskScore: int, riskLevel: Severity, appliedPolicies: seq<string>)

  function Rank(d: Decision): nat {
    match d
    case ALLOW => 0
    case MASK => 1
    case REVIEW => 2
    case BLOCK => 3
  }

  function RiskLevel(score: int): Severity {
    if score >= 85 then CRITICAL else if score >= 70 then HIGH else if score >= 40 then MEDIUM else LOW
  }

  // ---------- Composite risks ----------

  const WALLET_TYPES: set<string> := {
    "XRPL_PUBLIC_ADDRESS", "ETHEREUM_PUBLIC_ADDRESS", "BITCOIN_PUBLIC_ADDRESS",
    "XRPL_ADDRESS", "ETHEREUM_ADDRESS", "BITCOIN_ADDRESS"}

  const PERSONAL_TYPES: set<string> := {
    "PERSON_NAME", "EMAIL", "PHONE", "DATE_OF_BIRTH", "KR_RRN", "DETAILED_ADDRESS"}

  /** Is the finding's type one of these? */
  predicate IsOneOf(types: set<string>, f: Finding) {
    f.kind.Some? && f.kind.value in types
  }

  predicate AnyOf(fs: seq<Finding>, types: set<string>) {
    exists f :: f in fs && IsOneOf(types, f)
  }

  predicate Has(fs: seq<Finding>, types: set<string>) {
    forall t :: t in types ==> AnyOf(fs, {t})
  }

  function OneOf(types: set<string>): Finding -> bool {
    f => IsOneOf(types, f)
  }

  function CountOf(fs: seq<Finding>, types: set<string>): nat {
    |Filter(OneOf(types), fs)|
  }

  predicate Wallet(fs: seq<Finding>) {
    AnyOf(fs, WALLET_TYPES)
  }

  /** The thirteen combinations, by their number in the order they are looked for. */
  predicate Present(i: nat, fs: seq<Finding>)
    requires i < 13
  {
    if i == 0 then Has(fs, {"PERSON_NAME", "EMAIL"})
    else if i == 1 then Has(fs, {"PERSON_NAME", "PHONE"})
    else if i == 2 then Has(fs, {"PERSON_NAME", "DATE_OF_BIRTH", "PHONE"})
    else if i == 3 then Has(fs, {"PERSON_NAME", "KR_RRN"})
    else if i == 4 then Has(fs, {"CREDIT_CARD", "CARD_EXPIRY"}) || Has(fs, {"CREDIT_CARD", "CARD_CVV"})
    else if i == 5 then Wallet(fs) && Has(fs, {"PERSON_NAME"})
    else if i == 6 then Wallet(fs) && AnyOf(fs, {"CUSTOMER_NUMBER"})
    else if i == 7 then Wallet(fs) && AnyOf(fs, {"BLOCKCHAIN_PRIVATE_KEY", "XRPL_FAMILY_SEED"})
    else if i == 8 then Wallet(fs) && CountOf(fs, WALLET_TYPES) >= 10
    else if i == 9 then Wallet(fs) && AnyOf(fs, {"INVESTIGATION_CONTEXT"})
    else if i == 10 then Wallet(fs) && AnyOf(fs, {"ASSET_TRANSFER_INTENT"})
    else if i == 11 then AnyOf(fs, {"MNEMONIC_SEED_PHRASE", "XRPL_FAMILY_SEED"})
    else CountOf(fs, PERSONAL_TYPES) >= 4
  }

  /** What each of them is reported as. */
  function Combination(i: nat): CompositeRisk
    requires i < 13
  {
    if i == 0 then CompositeRisk("CR-IDENTITY-001", ["PERSON_NAME", "EMAIL"], MEDIUM, MASK)
    else if i == 1 then CompositeRisk("CR-IDENTITY-002", ["PERSON_NAME", "PHONE"], MEDIUM, MASK)
    else if i == 2 then CompositeRisk("CR-IDENTITY-003", ["PERSON_NAME", "DATE_OF_BIRTH", "PHONE"], HIGH, REVIEW)
    else if i == 3 then CompositeRisk("CR-IDENTITY-004", ["PERSON_NAME", "KR_RRN"], CRITICAL, BLOCK)
    else if i == 4 then CompositeRisk("CR-CARD-001", ["CREDIT_CARD"], CRITICAL, BLOCK)
    else if i == 5 then CompositeRisk("CR-WALLET-001", ["PUBLIC_BLOCKCHAIN_ADDRESS", "PERSON_NAME"], MEDIUM, REVIEW)
    else if i == 6 then CompositeRisk("CR-WALLET-003", ["PUBLIC_BLOCKCHAIN_ADDRESS", "CUSTOMER_NUMBER"], MEDIUM, REVIEW)
    else if i == 7 then CompositeRisk("CR-WALLET-002", ["PUBLIC_BLOCKCHAIN_ADDRESS", "PRIVATE_KEY"], CRITICAL, BLOCK)
    else if i == 8 then CompositeRisk("CR-WALLET-BULK-001", ["PUBLIC_BLOCKCHAIN_ADDRESS_LIST"], MEDIUM, REVIEW)
    else if i == 9 then CompositeRisk("CR-WALLET-AML-001", ["PUBLIC_BLOCKCHAIN_ADDRESS", "INVESTIGATION_CONTEXT"],
      MEDIUM, REVIEW)
    else if i == 10 then CompositeRisk("CR-WALLET-TRANSFER-001",
      ["PUBLIC_BLOCKCHAIN_ADDRESS", "ASSET_TRANSFER_INTENT"], MEDIUM, REVIEW)
    else if i == 11 then CompositeRisk("CR-SEED-001", ["SEED_PHRASE"], CRITICAL, BLOCK)
    else CompositeRisk("CR-PII-COUNT-001", ["MULTIPLE_PERSONAL_DATA"], HIGH, REVIEW)
  }

  /** The first `n` combinations as far as they are present. */
  function CompositesUpTo(fs: seq<Finding>, n: nat): seq<CompositeRisk>
    requires n <= 13
  {
    if n == 0 then []
    else CompositesUpTo(fs, n - 1) + if Present(n - 1, fs) then [Combination(n - 1)] else []
  }

  function CompositeRisks(fs: seq<Finding>): seq<CompositeRisk> {
    CompositesUpTo(fs, 13)
  }

  lemma CompositesAre(fs: seq<Finding>)
    ensures CompositeRisks(fs) == CompositesUpTo(fs, 13)
  {
  }

  lemma NoComposites(fs: seq<Finding>)
    ensures CompositesUpTo(fs, 0) == []
  {
  }

  lemma CompositeStep(fs: seq<Finding>, n: nat)
    requires n < 13
    ensures CompositesUpTo(fs, n + 1)
      == if Present(n, fs) then CompositesUpTo(fs, n) + [Combination(n)] else CompositesUpTo(fs, n)
  {
    hide Present, Combination;
  }

  method EvaluateCompositeRisks(fs: seq<Finding>) returns (r: seq<CompositeRisk>)
    ensures r == CompositeRisks(fs)
  {
    hide AnyOf, Has, CountOf, IsOneOf, Wallet, CompositesUpTo, CompositeRisks, Combination;
    r := [];
    NoComposites(fs);
    if Has(fs, {"PERSON_NAME", "EMAIL"}) {
      r := r + [Combination(0)];
    }
    assert r == CompositesUpTo(fs, 1) by { CompositeStep(fs, 0); }
    if Has(fs, {"PERSON_NAME", "PHONE"}) {
      r := r + [Combination(1)];
    }
    assert r == CompositesUpTo(fs, 2) by { CompositeStep(fs, 1); }
    if Has(fs, {"PERSON_NAME", "DATE_OF_BIRTH", "PHONE"}) {
      r := r + [Combination(2)];
    }
    assert r == CompositesUpTo(fs, 3) by { CompositeStep(fs, 2); }
    if Has(fs, {"PERSON_NAME", "KR_RRN"}) {
      r := r + [Combination(3)];
    }
    assert r == CompositesUpTo(fs, 4) by { CompositeStep(fs, 3); }
    if Has(fs, {"CREDIT_CARD", "CARD_EXPIRY"}) || Has(fs, {"CREDIT_CARD", "CARD_CVV"}) {
      r := r + [Combination(4)];
    }
    assert r == CompositesUpTo(fs, 5) by { CompositeStep(fs, 4); }
    if Wallet(fs) && Has(fs, {"PERSON_NAME"}) {
      r := r + [Combination(5)];
    }
    assert r == CompositesUpTo(fs, 6) by { CompositeStep(fs, 5); }
    if Wallet(fs) && AnyOf(fs, {"CUSTOMER_NUMBER"}) {
      r := r + [Combination(6)];
    }
    assert r == CompositesUpTo(fs, 7) by { CompositeStep(fs, 6); }
    if Wallet(fs) && AnyOf(fs, {"BLOCKCHAIN_PRIVATE_KEY", "XRPL_FAMILY_SEED"}) {
      r := r + [Combination(7)];
    }
    assert r == CompositesUpTo(fs, 8) by { CompositeStep(fs, 7); }
    if Wallet(fs) && CountOf(fs, WALLET_TYPES) >= 10 {
      r := r + [Combination(8)];
    }
    assert r == CompositesUpTo(fs, 9) by { CompositeStep(fs, 8); }
    if Wallet(fs) && AnyOf(fs, {"INVESTIGATION_CONTEXT"}) {
      r := r + [Combination(9)];
    }
    assert r == CompositesUpTo(fs, 10) by { CompositeStep(fs, 9); }
    if Wallet(fs) && AnyOf(fs, {"ASSET_TRANSFER_INTENT"}) {
      r := r + [Combination(10)];
    }
    assert r == CompositesUpTo(fs, 11) by { CompositeStep(fs, 10); }
    if AnyOf(fs, {"MNEMONIC_SEED_PHRASE", "XRPL_FAMILY_SEED"}) {
      r := r + [Combination(11)];
    }
    assert r == CompositesUpTo(fs, 12) by { CompositeStep(fs, 11); }
    if CountOf(fs, PERSONAL_TYPES) >= 4 {
      r := r + [Combination(12)];
    }
    assert r == CompositesUpTo(fs, 13) by { CompositeStep(fs, 12); }
    CompositesAre(fs);
  }

  // ---------- Destination risks ----------

  function TypeName(t: DestinationType): string {
    match t
    case InternalModel => "internal_model"
    case ApprovedExternalLlm => "approved_external_llm"
    case UnapprovedExternalLlm => "unapproved_external_llm"
    case ExternalApi => "external_api"
    case Unknown => "unknown"
  }

  predicate AnyCategory(fs: seq<Finding>, category: string) {
    exists f :: f in fs && f.category == category
  }

  predicate SecretPresent(fs: seq<Finding>) {
    AnyCategory(fs, "CREDENTIAL_SECRET")
    || AnyOf(fs, {"PRIVATE_KEY", "XRPL_FAMILY_SEED", "MNEMONIC_SEED_PHRASE", "DATABASE_CONNECTION_STRING"})
  }

  predicate PersonalPresent(fs: seq<Finding>) {
    AnyOf(fs, {"EMAIL", "PHONE", "PERSON_NAME", "DATE_OF_BIRTH", "DETAILED_ADDRESS", "BUSINESS_REGISTRATION_NUMBER"})
  }

  /** Which of the four destination risks there are. */
  predicate AtRisk(i: nat, fs: seq<Finding>, d: Destination)
    requires i < 4
  {
    if i == 0 then SecretPresent(fs) && d.kind in {Unknown, ExternalApi, UnapprovedExternalLlm}
    else if i == 1 then AnyCategory(fs, "CONFIDENTIAL_DOCUMENT") && d.kind == UnapprovedExternalLlm
    else if i == 2 then AnyCategory(fs, "CONFIDENTIAL_DOCUMENT") && d.kind == InternalModel && d.approved
    else PersonalPresent(fs) && d.kind == ApprovedExternalLlm
  }

  function DestinationRisk(i: nat, d: Destination): CompositeRisk
    requires i < 4
  {
    var t := TypeName(d.kind);
    if i == 0 then CompositeRisk("DR-SECRET-001", ["SECRET", t], CRITICAL, BLOCK)
    else if i == 1 then CompositeRisk("DR-CONF-001", ["CONFIDENTIAL_DOCUMENT", t], CRITICAL, BLOCK)
    else if i == 2 then CompositeRisk("DR-CONF-002", ["CONFIDENTIAL_DOCUMENT", t], MEDIUM, REVIEW)
    else CompositeRisk("DR-PII-001", ["PERSONAL_DATA", t], MEDIUM, MASK)
  }

  function DestinationUpTo(fs: seq<Finding>, d: Destination, n: nat): seq<CompositeRisk>
    requires n <= 4
  {
    if n == 0 then []
    else DestinationUpTo(fs, d, n - 1) + if AtRisk(n - 1, fs, d) then [DestinationRisk(n - 1, d)] else []
  }

  function DestinationRisks(fs: seq<Finding>, destination: Option<Destination>): seq<CompositeRisk> {
    if destination.None? then [] else DestinationUpTo(fs, destination.value, 4)
  }

  method EvaluateDestinationRisks(fs: seq<Finding>, destination: Option<Destination>) returns (r: seq<CompositeRisk>)
    ensures r == DestinationRisks(fs, destination)
  {
    hide AnyOf, AnyCategory;
    r := [];
    if destination.None? {
      return;
    }
    var d := destination.value;
    var t := TypeName(d.kind);
    var secret := SecretPresent(fs);
    var confidential := AnyCategory(fs, "CONFIDENTIAL_DOCUMENT");
    var pii := PersonalPresent(fs);
    if secret && (d.kind == Unknown || d.kind == ExternalApi || d.kind == UnapprovedExternalLlm) {
      r := r + [CompositeRisk("DR-SECRET-001", ["SECRET", t], CRITICAL, BLOCK)];
    }
    assert r == DestinationUpTo(fs, d, 1);
    if confidential && d.kind == UnapprovedExternalLlm {
      r := r + [CompositeRisk("DR-CONF-001", ["CONFIDENTIAL_DOCUMENT", t], CRITICAL, BLOCK)];
    }
    assert r == DestinationUpTo(fs, d, 2);
    if confidential && d.kind == InternalModel && d.approved {
      r := r + [CompositeRisk("DR-CONF-002", ["CONFIDENTIAL_DOCUMENT", t], MEDIUM, REVIEW)];
    }
    assert r == DestinationUpTo(fs, d, 3);
    if pii && d.kind == ApprovedExternalLlm {
      r := r + [CompositeRisk("DR-PII-001", ["PERSONAL_DATA", t], MEDIUM, MASK)];
    }
  }

  // ---------- The policy ----------

  predicate Matches(r: Rule, f: Finding) {
    IsOneOf(r.matchTypes, f) || f.category in r.matchCategories
  }

  function Matcher(r: Rule): Finding -> bool {
    f => Matches(r, f)
  }

  function MatchCount(r: Rule, fs: seq<Finding>): nat {
    |Filter(Matcher(r), fs)|
  }

  /** What a rule decides on `n` matches. */
  function RuleDecision(r: Rule, n: nat): Decision {
    if r.reviewThreshold > 0 && n >= r.reviewThreshold then REVIEW else r.decision
  }

  /** What speaks for what: the decisions and scores on the table, and whose they are. */
  datatype Case = Case(decisions: seq<Decision>, scores: seq<int>, ids: seq<string>)

  function Both(a: Case, b: Case): Case {
    Case(a.decisions + b.decisions, a.scores + b.scores, a.ids + b.ids)
  }

  function RuleCase(r: Rule, fs: seq<Finding>): Case {
    var n := MatchCount(r, fs);
    if n == 0 then Case([], [], []) else Case([RuleDecision(r, n)], [r.riskScore], [r.id])
  }

  function RulesCase(rules: seq<Rule>, fs: seq<Finding>): Case {
    if rules == [] then Case([], [], [])
    else Both(RulesCase(rules[..|rules| - 1], fs), RuleCase(rules[|rules| - 1], fs))
  }

  function FindingCase(f: Finding): Case {
    Case(
      if f.contribution.Wants? then [f.contribution.decision] else [],
      if f.category == "PUBLIC_IDENTIFIER" || f.contribution.Neutral? then []
      else if f.severity == CRITICAL then [90]
      else if f.severity == HIGH then [70]
      else [],
      [])
  }

  function FindingsCase(fs: seq<Finding>): Case {
    if fs == [] then Case([], [], []) else Both(FindingsCase(fs[..|fs| - 1]), FindingCase(fs[|fs| - 1]))
  }

  function RiskScore(c: CompositeRisk): int {
    match c.risk case CRITICAL => 95 case HIGH => 75 case MEDIUM => 50 case LOW => 20
  }

  function RiskCase(c: CompositeRisk): Case {
    Case([c.decisionContribution], [RiskScore(c)], [c.ruleId])
  }

  function RisksCase(cs: seq<CompositeRisk>): Case {
    if cs == [] then Case([], [], []) else Both(RisksCase(cs[..|cs| - 1]), RiskCase(cs[|cs| - 1]))
  }

  function Table(rules: seq<Rule>, fs: seq<Finding>, cs: seq<CompositeRisk>): Case {
    Both(Both(RulesCase(rules, fs), FindingsCase(fs)), RisksCase(cs))
  }

  /** The strictest of some decisions; on a tie the earlier, which is the same. */
  function Strictest(base: Decision, ds: seq<Decision>): Decision {
    if ds == [] then base
    else
      var d := Strictest(base, ds[..|ds| - 1]);
      if Rank(ds[|ds| - 1]) > Rank(d) then ds[|ds| - 1] else d
  }

  function Highest(base: int, scores: seq<int>): int {
    if scores == [] then base
    else
      var s := Highest(base, scores[..|scores| - 1]);
      if scores[|scores| - 1] > s then scores[|scores| - 1] else s
  }

  function Evaluate(rules: seq<Rule>, fs: seq<Finding>, maskingApplied: bool, cs: seq<CompositeRisk>): Verdict {
    var table := Table(rules, fs, cs);
    var score := Highest(if maskingApplied then 45 else 5, table.scores);
    Verdict(Strictest(if maskingApplied then MASK else ALLOW, table.decisions), score, RiskLevel(score),
      Dedup(table.ids))
  }

  ghost predicate Standing(base: Decision, baseScore: int, c: Case, d: Decision, score: int, applied: seq<string>) {
    d == Strictest(base, c.decisions) && score == Highest(baseScore, c.scores) && applied == c.ids
  }

  lemma StandingStep(base: Decision, baseScore: int, c: Case, e: Case, d: Decision, score: int, applied: seq<string>)
    requires Standing(base, baseScore, c, d, score, applied)
    requires |e.decisions| <= 1 && |e.scores| <= 1
    ensures Standing(base, baseScore, Both(c, e),
      if |e.decisions| == 1 && Rank(e.decisions[0]) > Rank(d) then e.decisions[0] else d,
      if |e.scores| == 1 && e.scores[0] > score then e.scores[0] else score,
      applied + e.ids)
  {
    var ds, ss := c.decisions + e.decisions, c.scores + e.scores;
    assert |e.decisions| == 1 ==> ds[..|ds| - 1] == c.decisions;
    assert |e.decisions| == 0 ==> ds == c.decisions;
    assert |e.scores| == 1 ==> ss[..|ss| - 1] == c.scores;
    assert |e.scores| == 0 ==> ss == c.scores;
  }

  lemma BothAssoc(a: Case, b: Case, c: Case)
    ensures Both(a, Both(b, c)) == Both(Both(a, b), c)
  {
    assert a.decisions + (b.decisions + c.decisions) == (a.decisions + b.decisions) + c.decisions;
    assert a.scores + (b.scores + c.scores) == (a.scores + b.scores) + c.scores;
    assert a.ids + (b.ids + c.ids) == (a.ids + b.ids) + c.ids;
  }

  lemma BothEmpty(a: Case)
    ensures Both(a, Case([], [], [])) == a
  {
    assert a.decisions + [] == a.decisions && a.scores + [] == a.scores && a.ids + [] == a.ids;
  }

  method EvaluatePolicy(rules: seq<Rule>, fs: seq<Finding>, maskingApplied: bool, cs: seq<CompositeRisk>)
    returns (v: Verdict)
    ensures v == Evaluate(rules, fs, maskingApplied, cs)
  {
    hide Strictest, Highest, Matches, Dedup, MatchCount, Both, Filter, Standing, RulesCase, FindingsCase, RisksCase,
      Table;
    var decision := if maskingApplied then MASK else ALLOW;
    var riskScore := if maskingApplied then 45 else 5;
    var applied: seq<string> := [];
    ghost var base, baseScore := decision, riskScore;
    StandingAtFirst(base, baseScore);
    NoCase(fs);
    for i := 0 to |rules|
      invariant Standing(base, baseScore, RulesCase(rules[..i], fs), decision, riskScore, applied)
    {
      var r := rules[i];
      RulesSnoc(rules, i, fs);
      StandingStep(base, baseScore, RulesCase(rules[..i], fs), RuleCase(r, fs), decision, riskScore, applied);
      var matched := MatchCount(r, fs);
      if matched == 0 {
        assert applied + [] == applied;
        continue;
      }
      var d := r.decision;
      if r.reviewThreshold > 0 && matched >= r.reviewThreshold {
        d := REVIEW;
      }
      if Rank(d) > Rank(decision) {
        decision := d;
      }
      riskScore := Max(riskScore, r.riskScore);
      applied := applied + [r.id];
    }
    ghost var before := RulesCase(rules, fs);
    assert rules[..|rules|] == rules;
    BothEmpty(before);
    for i := 0 to |fs|
      invariant Standing(base, baseScore, Both(before, FindingsCase(fs[..i])), decision, riskScore, applied)
    {
      var f := fs[i];
      FindingsSnoc(fs, i);
      BothAssoc(before, FindingsCase(fs[..i]), FindingCase(f));
      StandingStep(base, baseScore, Both(before, FindingsCase(fs[..i])), FindingCase(f), decision, riskScore, applied);
      assert applied + [] == applied;
      if f.contribution.Wants? && Rank(f.contribution.decision) > Rank(decision) {
        decision := f.contribution.decision;
      }
      if f.category == "PUBLIC_IDENTIFIER" || f.contribution.Neutral? {
        continue;
      }
      if f.severity == CRITICAL {
        riskScore := Max(riskScore, 90);
      } else if f.severity == HIGH {
        riskScore := Max(riskScore, 70);
      }
    }
    assert fs[..|fs|] == fs;
    before := Both(before, FindingsCase(fs));
    BothEmpty(before);
    for i := 0 to |cs|
      invariant Standing(base, baseScore, Both(before, RisksCase(cs[..i])), decision, riskScore, applied)
    {
      var c := cs[i];
      RisksSnoc(cs, i);
      BothAssoc(before, RisksCase(cs[..i]), RiskCase(c));
      StandingStep(base, baseScore, Both(before, RisksCase(cs[..i])), RiskCase(c), decision, riskScore, applied);
      if Rank(c.decisionContribution) > Rank(decision) {
        decision := c.decisionContribution;
      }
      riskScore := Max(riskScore,
        if c.risk == CRITICAL then 95 else if c.risk == HIGH then 75 else if c.risk == MEDIUM then 50 else 20);
      applied := applied + [c.ruleId];
    }
    assert cs[..|cs|] == cs;
    TableIs(rules, fs, cs);
    StandingIsVerdict(base, baseScore, Table(rules, fs, cs), decision, riskScore, applied);
    return Verdict(decision, riskScore, RiskLevel(riskScore), Dedup(applied));
  }

  lemma NoCase(fs: seq<Finding>)
    ensures RulesCase([], fs) == FindingsCase([]) == RisksCase([]) == Case([], [], [])
  {
  }

  lemma RulesSnoc(rules: seq<Rule>, i: nat, fs: seq<Finding>)
    requires i < |rules|
    ensures RulesCase(rules[..i + 1], fs) == Both(RulesCase(rules[..i], fs), RuleCase(rules[i], fs))
  {
    hide RuleCase, Both;
    assert rules[..i + 1][..i] == rules[..i];
  }

  lemma FindingsSnoc(fs: seq<Finding>, i: nat)
    requires i < |fs|
    ensures FindingsCase(fs[..i + 1]) == Both(FindingsCase(fs[..i]), FindingCase(fs[i]))
  {
    hide FindingCase, Both;
    assert fs[..i + 1][..i] == fs[..i];
  }

  lemma RisksSnoc(cs: seq<CompositeRisk>, i: nat)
    requires i < |cs|
    ensures RisksCase(cs[..i + 1]) == Both(RisksCase(cs[..i]), RiskCase(cs[i]))
  {
    hide RiskCase, Both;
    assert cs[..i + 1][..i] == cs[..i];
  }

  lemma TableIs(rules: seq<Rule>, fs: seq<Finding>, cs: seq<CompositeRisk>)
    ensures Table(rules, fs, cs) == Both(Both(RulesCase(rules, fs), FindingsCase(fs)), RisksCase(cs))
  {
  }

  lemma StandingAtFirst(base: Decision, baseScore: int)
    ensures Standing(base, baseScore, Case([], [], []), base, baseScore, [])
  {
  }

  lemma StandingIsVerdict(base: Decision, baseScore: int, c: Case, d: Decision, score: int, applied: seq<string>)
    requires Standing(base, baseScore, c, d, score, applied)
    ensures d == Strictest(base, c.decisions) && score == Highest(baseScore, c.scores) && applied == c.ids
  {
  }

  /** Everything `inspectText` decides by, once the masking is done. */
  function Judge(rules: seq<Rule>, fs: seq<Finding>, maskingApplied: bool, destination: Option<Destination>): Verdict {
    Evaluate(rules, fs, maskingApplied, CompositeRisks(fs) + DestinationRisks(fs, destination))
  }
}
