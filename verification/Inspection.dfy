/** One inspection: mask, look again, judge, and write down what happened. */
module Inspection {
  import opened Wrappers
  import opened Sequences
  import opened Findings
  import opened Masking
  import opened MaskingProofs
  import opened RiskPolicy
  import opened RiskPolicyProofs
  import DocxText

  datatype Policy = Policy(maxPromptLength: nat, rules: seq<Rule>)

  datatype Report = Report(
    verdict: Verdict,
    findings: seq<Finding>,
    maskedCount: nat,
    safeText: Option<string>,
    compositeRisks: seq<CompositeRisk>)

  datatype Response = Refused(error: string) | Inspected(report: Report)

  datatype AuditEvent = AuditEvent(
    event: string,
    detectedTypes: seq<string>,
    detectedCount: nat,
    decision: Option<Decision>,
    maskingApplied: bool)

  /** `!text.trim()` */
  predicate Blank(text: string) {
    forall i :: 0 <= i < |text| ==> DocxText.IsSpace(text[i])
  }

  /** What the detectors still find in the masked text, but for the types that masks look like. */
  function Residue(text: string, found: seq<Finding>, detect: Detector): seq<Finding> {
    Filter(Residual, detect(MaskedText(text, found)))
  }

  /** The whole of the decision, as a function of what was found. */
  function Inspect(policy: Policy, text: string, found: seq<Finding>, destination: Option<Destination>,
                   detect: Detector): Report
  {
    var residue := Residue(text, found, detect);
    var all := found + residue;
    var masked := MaskableOf(found) != [];
    Report(
      Judge(policy.rules, all, masked && residue == [], destination),
      all,
      |MaskableOf(found)|,
      if masked then Some(MaskedText(text, found)) else None,
      CompositeRisks(all) + DestinationRisks(all, destination))
  }

  function Labels(fs: seq<Finding>): (r: seq<string>)
    ensures |r| == |fs| && forall i :: 0 <= i < |fs| ==> r[i] == Or(fs[i].kind, fs[i].category)
  {
    seq(|fs|, i requires 0 <= i < |fs| => Or(fs[i].kind, fs[i].category))
  }

  function LastEvent(d: Decision): string {
    match d
    case ALLOW => "input_allowed"
    case BLOCK => "input_blocked"
    case REVIEW => "input_review_required"
    case MASK => "masking_applied"
  }

  /** What is written down up to the masking, and after it. */
  function Opening(found: seq<Finding>, masked: bool): seq<AuditEvent> {
    var fs := MaskableOf(found);
    [AuditEvent("input_received", [], 0, None, false)]
    + [AuditEvent("prompt_inspected", Dedup(Labels(found)), |found|, None, false)]
    + if masked then [AuditEvent("masking_applied", Dedup(Kinds(fs)), |fs|, None, true)] else []
  }

  function Closing(fs: seq<Finding>, d: Decision, masked: bool): seq<AuditEvent> {
    [AuditEvent("policy_evaluated", Dedup(Labels(fs)), |fs|, Some(d), masked)]
    + [AuditEvent(LastEvent(d), [], 0, Some(d), masked)]
  }

  /** The audit trail of one inspection. */
  function Trail(found: seq<Finding>, report: Report): seq<AuditEvent> {
    var masked := report.safeText.Some?;
    Opening(found, masked) + Closing(report.findings, report.verdict.decision, masked)
  }

  /** The inspection engine with its audit list. */
  class InspectionEngine {
    var audit: seq<AuditEvent>
    const policy: Policy

    constructor (policy: Policy)
      ensures this.policy == policy && audit == []
    {
      this.policy := policy;
      audit := [];
    }

    method Record(event: AuditEvent)
      modifies this`audit
      ensures audit == old(audit) + [event]
    {
      audit := audit + [event];
    }

    method InspectText(text: string, found: seq<Finding>, destination: Option<Destination>, detect: Detector)
      returns (r: Response)
      modifies this`audit
      ensures Blank(text) ==> r == Refused("prompt_required")
      ensures !Blank(text) && |text| > policy.maxPromptLength ==> r == Refused("prompt_too_long")
      ensures !Blank(text) && |text| <= policy.maxPromptLength ==>
        r == Inspected(Inspect(policy, text, found, destination, detect))
      ensures audit == if r.Refused? then old(audit) else old(audit) + Trail(found, r.report)
    {
      hide MaskedText, MaskableOf, Evaluate, CompositeRisks, DestinationRisks, Dedup, Filter, Kinds, Labels;
      hide Opening, Closing, LastEvent;
      if Blank(text) {
        return Refused("prompt_required");
      }
      if |text| > policy.maxPromptLength {
        return Refused("prompt_too_long");
      }
      Record(AuditEvent("input_received", [], 0, None, false));
      Record(AuditEvent("prompt_inspected", Dedup(Labels(found)), |found|, None, false));
      var masking := MaskText(text, found, detect);
      if masking.maskingApplied {
        Record(AuditEvent("masking_applied", masking.maskedTypes, masking.maskedCount, None, true));
      }
      OpeningIs(old(audit), found, masking.maskingApplied);
      ghost var begun := audit;
      assert begun == old(audit) + Opening(found, masking.maskingApplied);
      var all := found + masking.residualFindings;
      var composites := EvaluateCompositeRisks(all);
      var destinations := EvaluateDestinationRisks(all, destination);
      var risks := composites + destinations;
      var verdict := EvaluatePolicy(policy.rules, all, masking.maskingApplied && masking.residualFindings == [], risks);
      Record(AuditEvent("policy_evaluated", Dedup(Labels(all)), |all|, Some(verdict.decision), masking.maskingApplied));
      Record(AuditEvent(LastEvent(verdict.decision), [], 0, Some(verdict.decision), masking.maskingApplied));
      ClosingIs(begun, all, verdict.decision, masking.maskingApplied);
      Assoc(old(audit), Opening(found, masking.maskingApplied), Closing(all, verdict.decision, masking.maskingApplied));
      return Inspected(Report(verdict, all, masking.maskedCount,
          if masking.maskingApplied then Some(masking.safeText) else None, risks));
    }
  }

  lemma OpeningIs(before: seq<AuditEvent>, found: seq<Finding>, masked: bool)
    ensures var fs := MaskableOf(found);
      var two := before + [AuditEvent("input_received", [], 0, None, false)]
        + [AuditEvent("prompt_inspected", Dedup(Labels(found)), |found|, None, false)];
      before + Opening(found, masked)
      == if masked then two + [AuditEvent("masking_applied", Dedup(Kinds(fs)), |fs|, None, true)] else two
  {
    hide MaskableOf, Dedup, Labels, Kinds;
  }

  lemma ClosingIs(before: seq<AuditEvent>, fs: seq<Finding>, d: Decision, masked: bool)
    ensures before + Closing(fs, d, masked)
      == before + [AuditEvent("policy_evaluated", Dedup(Labels(fs)), |fs|, Some(d), masked)]
         + [AuditEvent(LastEvent(d), [], 0, Some(d), masked)]
  {
    hide LastEvent, Dedup, Labels;
  }

  // ---------- Across masking and decision ----------

  lemma SameResidue(text: string, found: seq<Finding>, others: seq<Finding>, detect: Detector)
    requires multiset(found) == multiset(others)
    requires OneAtEachStart(MaskableOf(found))
    ensures MaskedText(text, found) == MaskedText(text, others)
    ensures Residue(text, found, detect) == Residue(text, others, detect)
    ensures |MaskableOf(found)| == |MaskableOf(others)|
  {
    hide MaskedText, OneAtEachStart, Filter, Maskable;
    MaskingIgnoresOrder(text, found, others);
    CountsGrow(Maskable, found, others);
    CountsGrow(Maskable, others, found);
  }

  /** If no two findings start at one position, the order in which the detectors report shows in nothing but the
      list of findings. */
  lemma InspectionIgnoresOrder(policy: Policy, text: string, found: seq<Finding>, others: seq<Finding>,
                               destination: Option<Destination>, detect: Detector)
    requires multiset(found) == multiset(others)
    requires OneAtEachStart(MaskableOf(found))
    ensures var a, b := Inspect(policy, text, found, destination, detect),
      Inspect(policy, text, others, destination, detect);
      a == b.(findings := a.findings) && multiset(a.findings) == multiset(b.findings)
  {
    hide MaskedText, OneAtEachStart, MaskableOf, Evaluate, CompositesUpTo, DestinationUpTo, Residue;
    SameResidue(text, found, others, detect);
    var residue := Residue(text, found, detect);
    var flag := MaskableOf(found) != [] && residue == [];
    JudgeIgnoresOrder(policy.rules, found + residue, others + residue, flag, destination);
    CompositesIgnoreOrder(found + residue, others + residue, 13);
    if destination.Some? { DestinationsIgnoreOrder(found + residue, others + residue, destination.value, 4); }
  }

  /** The verdict on the findings alone, before the masked text is looked at again. */
  ghost function FirstVerdict(policy: Policy, found: seq<Finding>, destination: Option<Destination>): Verdict {
    Judge(policy.rules, found, MaskableOf(found) != [], destination)
  }

  /** Findings left in a masked text take the masking flag away. */
  ghost predicate LosesFlag(text: string, found: seq<Finding>, detect: Detector) {
    MaskableOf(found) != [] && Residue(text, found, detect) != []
  }

  ghost function RisksOf(fs: seq<Finding>, destination: Option<Destination>): seq<CompositeRisk> {
    CompositeRisks(fs) + DestinationRisks(fs, destination)
  }

  /** Looking at the masked text again can soften the decision. It does so exactly if something was masked, something
      is left, and nobody asks for more than ALLOW: then MASK becomes ALLOW. */
  lemma ResidueSoftensDecisionIff(policy: Policy, text: string, found: seq<Finding>, destination: Option<Destination>,
                                  detect: Detector)
    requires forall r :: r in policy.rules ==> Tame(r)
    ensures var first, last := FirstVerdict(policy, found, destination),
              Inspect(policy, text, found, destination, detect).verdict;
      var all := found + Residue(text, found, detect);
      var softens := LosesFlag(text, found, detect) && NobodyObjects(policy.rules, all, RisksOf(all, destination));
      && (Rank(last.decision) < Rank(first.decision) <==> softens)
      && (softens ==> first.decision == MASK && last.decision == ALLOW)
  {
    hide MaskableOf, Evaluate, Residue, CompositeRisks, DestinationRisks, NobodyObjects, Tame, NotLess;
    var residue := Residue(text, found, detect);
    assert multiset(found + residue) == multiset(found) + multiset(residue);
    RisksGrow(found, found + residue, destination);
    if LosesFlag(text, found, detect) {
      LosingTheFlag(policy.rules, found, RisksOf(found, destination), found + residue,
        RisksOf(found + residue, destination));
    } else {
      MoreFindingsKeepDecision(policy.rules, found, found + residue, MaskableOf(found) != [], destination);
    }
  }

  lemma MoreFindingsKeepDecision(rules: seq<Rule>, fs: seq<Finding>, gs: seq<Finding>, masked: bool,
                                 destination: Option<Destination>)
    requires (forall r :: r in rules ==> Tame(r)) && multiset(fs) <= multiset(gs)
    ensures Rank(Judge(rules, fs, masked, destination).decision) <= Rank(Judge(rules, gs, masked, destination).decision)
  {
    hide Judge, Tame;
    JudgeIsMonotone(rules, fs, gs, masked, destination);
  }

  /** The score falls, from 45, exactly if something was masked, something is left, and nothing scores 45 or more.
      No rule has to be tame for this, and no applied policy is ever lost. */
  lemma ResidueLowersScoreIff(policy: Policy, text: string, found: seq<Finding>, destination: Option<Destination>,
                              detect: Detector)
    ensures var first, last := FirstVerdict(policy, found, destination),
              Inspect(policy, text, found, destination, detect).verdict;
      var all := found + Residue(text, found, detect);
      var lowers := LosesFlag(text, found, detect) && NobodyScores(policy.rules, all, RisksOf(all, destination), 45);
      && (last.riskScore < first.riskScore <==> lowers)
      && (lowers ==> first.riskScore == 45)
      && (forall id :: id in first.appliedPolicies ==> id in last.appliedPolicies)
  {
    hide MaskableOf, Evaluate, Residue, CompositeRisks, DestinationRisks, NobodyScores;
    var residue := Residue(text, found, detect);
    var all := found + residue;
    assert multiset(all) == multiset(found) + multiset(residue);
    RisksGrow(found, all, destination);
    if LosesFlag(text, found, detect) {
      LosingTheFlagAndTheScore(policy.rules, found, RisksOf(found, destination), all, RisksOf(all, destination));
    } else {
      KeepingTheFlag(policy.rules, found, RisksOf(found, destination), all, RisksOf(all, destination),
        MaskableOf(found) != []);
    }
  }

  lemma KeepingTheFlag(rules: seq<Rule>, fs: seq<Finding>, cs: seq<CompositeRisk>, gs: seq<Finding>,
                       ds: seq<CompositeRisk>, masked: bool)
    requires multiset(fs) <= multiset(gs) && forall c :: c in cs ==> c in ds
    ensures var a, b := Evaluate(rules, fs, masked, cs), Evaluate(rules, gs, masked, ds);
      a.riskScore <= b.riskScore && forall id :: id in a.appliedPolicies ==> id in b.appliedPolicies
  {
    hide Evaluate, Says, Scores, Applies;
    VerdictIsJoin(rules, fs, masked, cs);
    VerdictIsJoin(rules, gs, masked, ds);
    ScoresAndNamesGrow(rules, fs, cs, gs, ds);
  }

  // ---------- An input that is softened ----------

  const PHONE_TEXT := "010-1234-5678-12-35"
  const PHONE_MASKED := "01*********78-12-35"

  /** What the detectors find in that text, and what they find in it once it is masked. */
  const PHONE := Finding("SENSITIVE_DATA", MEDIUM, Some("PHONE"), Location("prompt", 0, 13),
                         Some("01*********78"), None, Unset)
  const ACCOUNT := Finding("SENSITIVE_DATA", MEDIUM, Some("BANK_ACCOUNT"), Location("prompt", 11, 19),
                           Some("78****35"), None, Unset)

  lemma EndsAndStars(kind: string, front: string, middle: string, back: string, stars: string)
    requires StyleOf(kind) == Other && |front| == |back| == 2 && 0 < |middle| <= 12
    requires |stars| == |middle| && forall i :: 0 <= i < |stars| ==> stars[i] == '*'
    ensures MaskValue(kind, front + middle + back) == front + stars + back
  {
    hide MaskValue;
    var v := front + middle + back;
    OtherMask(kind, v);
    assert v[..2] == front && v[|v| - 2..] == back;
    assert stars == Stars(|middle|);
  }

  /** The masks are those of the two types, and the text is masked as said. */
  lemma PhoneIsMasked()
    ensures MaskValue("PHONE", "010-1234-5678") == "01*********78" && PHONE_TEXT == "010-1234-5678" + "-12-35"
    ensures MaskValue("BANK_ACCOUNT", "78-12-35") == "78****35" && PHONE_MASKED == "01*********" + "78-12-35"
    ensures MaskedText(PHONE_TEXT, [PHONE]) == PHONE_MASKED
  {
    hide MaskValue, MaskedText, Splice, StyleOf;
    ShownAtBothEnds();
    EndsAndStars("PHONE", "01", "0-1234-56", "78", "*********");
    assert "01" + "0-1234-56" + "78" == "010-1234-5678" && "01" + "*********" + "78" == "01*********78";
    EndsAndStars("BANK_ACCOUNT", "78", "-12-", "35", "****");
    assert "78" + "-12-" + "35" == "78-12-35" && "78" + "****" + "35" == "78****35";
    OneSplice(PHONE_TEXT, PHONE);
    SpliceInText(PHONE_TEXT, PHONE);
    assert PHONE_TEXT[..0] + ("01*********78" + PHONE_TEXT[13..]) == PHONE_MASKED;
  }

  lemma OneSplice(text: string, f: Finding)
    requires Maskable(f)
    ensures MaskedText(text, [f]) == Splice(text, f)
  {
    hide Splice, Maskable;
    assert MaskableOf([f]) == [f] by { FilterOne(Maskable, f); }
    assert [f][1..] == [];
    assert SortFromRight([f]) == InsertByStart(f, []) == [f];
    assert SpliceAll(text, [f]) == SpliceAll(Splice(text, f), []);
  }

  /** A second look that softens: the phone number is masked, and what follows it then reads as an account number.
      With no rule for either type, the input is masked at 45 without the second look, and let through at 5 with it. */
  lemma SoftenedInput(rules: seq<Rule>, detect: Detector, limit: nat)
    requires detect(PHONE_MASKED) == [ACCOUNT]
    requires forall r :: r in rules ==> !Hit(r, PHONE) && !Hit(r, ACCOUNT)
    ensures MaskedText(PHONE_TEXT, [PHONE]) == PHONE_MASKED
    ensures FirstVerdict(Policy(limit, rules), [PHONE], None) == Verdict(MASK, 45, MEDIUM, [])
    ensures Inspect(Policy(limit, rules), PHONE_TEXT, [PHONE], None, detect).verdict == Verdict(ALLOW, 5, LOW, [])
  {
    hide MaskedText, DestinationRisks, Evaluate, CompositeRisks, Hit;
    PhoneIsMasked();
    assert MaskableOf([PHONE]) == [PHONE] by { FilterOne(Maskable, PHONE); }
    assert Residue(PHONE_TEXT, [PHONE], detect) == [ACCOUNT] by { FilterOne(Residual, ACCOUNT); }
    assert [PHONE] + [ACCOUNT] == [PHONE, ACCOUNT];
    QuietFindings([PHONE]);
    QuietFindings([PHONE, ACCOUNT]);
    hide MaskableOf, Residue;
    QuietVerdict(rules, [PHONE], true);
    QuietVerdict(rules, [PHONE, ACCOUNT], false);
  }

  lemma FilterOne(p: Finding -> bool, f: Finding)
    ensures Filter(p, [f]) == if p(f) then [f] else []
  {
    assert [f][1..] == [];
  }

  /** Findings that nothing is made of: at most three, of these two types, without a contribution, below HIGH. */
  ghost predicate Quiet(fs: seq<Finding>) {
    |fs| < 4 && forall f :: f in fs ==>
      && f.kind in {Some("PHONE"), Some("BANK_ACCOUNT")}
      && f.contribution == Unset && (f.severity == LOW || f.severity == MEDIUM)
  }

  lemma QuietFindings(fs: seq<Finding>)
    requires Quiet(fs)
    ensures CompositeRisks(fs) == []
  {
    hide Present;
    forall i: nat | i < 13 ensures !Present(i, fs) {
      QuietIsAbsent(fs, i);
    }
    NothingPresent(fs, 13);
  }

  lemma {:induction false} NothingPresent(fs: seq<Finding>, n: nat)
    requires n <= 13 && forall i: nat :: i < 13 ==> !Present(i, fs)
    ensures CompositesUpTo(fs, n) == []
  {
    hide Present;
    if n > 0 { NothingPresent(fs, n - 1); }
  }

  lemma QuietIsAbsent(fs: seq<Finding>, i: nat)
    requires i < 13 && Quiet(fs)
    ensures !Present(i, fs)
  {
    hide Filter;
    NoneOf(fs, WALLET_TYPES);
    NoneOf(fs, {"PERSON_NAME"});
    NoneOf(fs, {"CREDIT_CARD"});
    NoneOf(fs, {"MNEMONIC_SEED_PHRASE", "XRPL_FAMILY_SEED"});
    assert "PERSON_NAME" in {"PERSON_NAME", "EMAIL"} && "PERSON_NAME" in {"PERSON_NAME", "PHONE"};
    assert "PERSON_NAME" in {"PERSON_NAME", "DATE_OF_BIRTH", "PHONE"} && "PERSON_NAME" in {"PERSON_NAME", "KR_RRN"};
    assert "CREDIT_CARD" in {"CREDIT_CARD", "CARD_EXPIRY"} && "CREDIT_CARD" in {"CREDIT_CARD", "CARD_CVV"};
  }

  lemma NoneOf(fs: seq<Finding>, types: set<string>)
    requires Quiet(fs) && "PHONE" !in types && "BANK_ACCOUNT" !in types
    ensures !AnyOf(fs, types) && CountOf(fs, types) == 0
  {
    HeadIsMember(Filter(OneOf(types), fs));
  }

  lemma QuietVerdict(rules: seq<Rule>, fs: seq<Finding>, flag: bool)
    requires Quiet(fs) && CompositeRisks(fs) == []
    requires forall r, f :: r in rules && f in fs ==> !Hit(r, f)
    ensures Judge(rules, fs, flag, None) == if flag then Verdict(MASK, 45, MEDIUM, []) else Verdict(ALLOW, 5, LOW, [])
  {
    hide Evaluate, CompositeRisks, Hits, Hit;
    assert CompositeRisks(fs) + DestinationRisks(fs, None) == [];
    VerdictIsJoin(rules, fs, flag, []);
    var v := Evaluate(rules, fs, flag, []);
    assert forall d :: !Says(rules, fs, [], d);
    assert forall x :: !Scores(rules, fs, [], x);
    HeadIsMember(v.appliedPolicies);
    LevelIsOfScore(rules, fs, flag, []);
  }

  lemma LevelIsOfScore(rules: seq<Rule>, fs: seq<Finding>, flag: bool, cs: seq<CompositeRisk>)
    ensures Evaluate(rules, fs, flag, cs).riskLevel == RiskLevel(Evaluate(rules, fs, flag, cs).riskScore)
  {
  }
}
