/** The runtime policy engine: hard limits, ledger checks and risk thresholds, one verdict. */
module RuntimePolicy {
  import opened Wrappers
  import opened AuditLog
  import opened Sequences

  /** The values `evaluate_policy` reads from the policy file. */
  datatype Policy = Policy(
    agentId: string,
    allowedActions: set<string>,
    allowedPurposes: set<string>,
    maxAmount: int,
    dailyLimit: Option<int>,
    approveBelow: int,
    conditionalFrom: int,
    blockFrom: int)

  /** What is asked to be paid, by whom and for what; amounts are in drops. */
  datatype Payment = Payment(agentId: string, action: string, amount: int, destination: string, purpose: string)

  /** What the ledger checks and the context answer. */
  datatype Circumstances = Circumstances(
    strictAddress: bool,
    whitelisted: bool,
    accountPassed: bool,
    accountReason: string,
    trustlinePassed: bool,
    trustlineReason: string,
    trustlineFlags: seq<string>,
    newDestinationBlocked: bool,
    newDestinationReason: string,
    newDestinationFlags: seq<string>,
    newDestinationRisk: int,
    afterHours: bool,
    frequencySpike: bool,
    splitRisk: bool)

  datatype Evaluation = Evaluation(decision: Status, riskScore: int, flags: seq<string>, reason: Option<string>)

  predicate ValidAddress(destination: string, strict: bool) {
    && destination != ""
    && destination[0] == 'r'
    && (strict ==> 25 <= |destination| <= 35)
  }

  function FlagWeight(flag: string): int {
    if flag == "after_hours_execution" || flag == "frequency_spike" || flag == "split_transaction_risk" then 20 else 0
  }

  function FlagScore(flags: seq<string>): int {
    if flags == [] then 0 else FlagScore(flags[..|flags| - 1]) + FlagWeight(flags[|flags| - 1])
  }

  function Blocked(reason: string, flags: seq<string>): Evaluation {
    Evaluation(BLOCKED, 100, flags, Some(reason))
  }

  // ---------- The verdict ----------

  predicate AmountInRange(p: Policy, pay: Payment) {
    0 < pay.amount <= p.maxAmount
  }

  predicate WithinDailyLimit(p: Policy, pay: Payment, usedToday: int) {
    p.dailyLimit.Some? ==> usedToday + pay.amount <= p.dailyLimit.value
  }

  function If(c: bool, flag: string): seq<string> {
    if c then [flag] else []
  }

  function LimitFlags(p: Policy, pay: Payment, usedToday: int, c: Circumstances): seq<string> {
    If(!AmountInRange(p, pay), "amount_limit_exceeded")
    + If(!WithinDailyLimit(p, pay, usedToday), "daily_limit_exceeded")
    + If(!c.whitelisted, "destination_not_whitelisted")
  }

  /** The first limit that is violated gives the reason. */
  function LimitReason(p: Policy, pay: Payment, usedToday: int, c: Circumstances): Option<string> {
    if !AmountInRange(p, pay) then Some("amount_policy_violation")
    else if !WithinDailyLimit(p, pay, usedToday) then Some("DAILY_LIMIT_EXCEEDED")
    else if !ValidAddress(pay.destination, c.strictAddress) then Some("invalid_destination")
    else None
  }

  function ContextFlags(c: Circumstances): seq<string> {
    If(c.afterHours, "after_hours_execution")
    + If(c.frequencySpike, "frequency_spike")
    + If(c.splitRisk, "split_transaction_risk")
  }

  function AllFlags(p: Policy, pay: Payment, usedToday: int, c: Circumstances): seq<string> {
    LimitFlags(p, pay, usedToday, c) + c.trustlineFlags + c.newDestinationFlags + ContextFlags(c)
  }

  function Risk(p: Policy, pay: Payment, usedToday: int, c: Circumstances): int {
    c.newDestinationRisk + FlagScore(AllFlags(p, pay, usedToday, c))
  }

  /** The thresholds: decision, reported score and reason. */
  function Decide(p: Policy, blockedReason: Option<string>, whitelisted: bool, risk: int): (Status, int, Option<string>)
  {
    if blockedReason.Some? then (BLOCKED, risk, blockedReason)
    else if risk >= p.blockFrom then (BLOCKED, risk, Some("risk_score_blocked"))
    else if !whitelisted then (CONDITIONAL_APPROVAL, 40, Some("destination_not_whitelisted_but_valid"))
    else if risk >= p.conditionalFrom && risk > p.approveBelow
    then (CONDITIONAL_APPROVAL, risk, Some("conditional_approval"))
    else (APPROVED, risk, None)
  }

  function Evaluate(p: Policy, pay: Payment, usedToday: int, c: Circumstances): Evaluation {
    var limitFlags, reason := LimitFlags(p, pay, usedToday, c), LimitReason(p, pay, usedToday, c);
    var risk := Risk(p, pay, usedToday, c);
    if pay.agentId != p.agentId then Blocked("unknown_agent", [])
    else if pay.action !in p.allowedActions then Blocked("action_not_allowed", [])
    else if pay.purpose !in p.allowedPurposes then Blocked("purpose_not_allowed", [])
    else if !AmountInRange(p, pay) || !ValidAddress(pay.destination, c.strictAddress)
    then Blocked(reason.value, Dedup(limitFlags))
    else if !c.accountPassed then Blocked(c.accountReason, Dedup(limitFlags + ["destination_account_not_found"]))
    else if !c.trustlinePassed then Blocked(c.trustlineReason, Dedup(limitFlags + c.trustlineFlags))
    else if c.newDestinationBlocked
    then Blocked(c.newDestinationReason, Dedup(limitFlags + c.trustlineFlags + c.newDestinationFlags))
    else
      var verdict := Decide(p, reason, c.whitelisted, risk);
      Evaluation(verdict.0, verdict.1, Dedup(AllFlags(p, pay, usedToday, c)), verdict.2)
  }

  /** The limits part of `evaluate_policy`: the daily limit fixes a reason but does not block at once. */
  method CheckLimits(p: Policy, pay: Payment, usedToday: int, c: Circumstances)
    returns (flags: seq<string>, blockedReason: Option<string>, hardBlock: bool)
    ensures flags == LimitFlags(p, pay, usedToday, c)
    ensures blockedReason == LimitReason(p, pay, usedToday, c)
    ensures hardBlock <==> !AmountInRange(p, pay) || !ValidAddress(pay.destination, c.strictAddress)
  {
    flags, blockedReason, hardBlock := [], None, false;
    if pay.amount <= 0 || pay.amount > p.maxAmount {
      flags := flags + ["amount_limit_exceeded"];
      blockedReason := Some("amount_policy_violation");
      hardBlock := true;
    }
    if p.dailyLimit.Some? && usedToday + pay.amount > p.dailyLimit.value {
      flags := flags + ["daily_limit_exceeded"];
      blockedReason := if blockedReason.Some? then blockedReason else Some("DAILY_LIMIT_EXCEEDED");
    }
    if !ValidAddress(pay.destination, c.strictAddress) {
      blockedReason := if blockedReason.Some? then blockedReason else Some("invalid_destination");
      hardBlock := true;
    }
    if !c.whitelisted {
      flags := flags + ["destination_not_whitelisted"];
    }
  }

  /** `evaluate_policy`: flags are collected and the reason is fixed as the checks go by. */
  method EvaluatePolicy(p: Policy, pay: Payment, usedToday: int, c: Circumstances) returns (e: Evaluation)
    ensures e == Evaluate(p, pay, usedToday, c)
  {
    hide Dedup, FlagScore, ValidAddress, LimitFlags, WithinDailyLimit;
    if pay.agentId != p.agentId {
      return Blocked("unknown_agent", []);
    }
    if pay.action !in p.allowedActions {
      return Blocked("action_not_allowed", []);
    }
    if pay.purpose !in p.allowedPurposes {
      return Blocked("purpose_not_allowed", []);
    }
    var flags, blockedReason, hardBlock := CheckLimits(p, pay, usedToday, c);
    if hardBlock {
      return Blocked(blockedReason.value, Dedup(flags));
    }
    if !c.accountPassed {
      flags := flags + ["destination_account_not_found"];
      return Blocked(c.accountReason, Dedup(flags));
    }
    flags := flags + c.trustlineFlags;
    if !c.trustlinePassed {
      return Blocked(c.trustlineReason, Dedup(flags));
    }
    flags := flags + c.newDestinationFlags;
    if c.newDestinationBlocked {
      return Blocked(c.newDestinationReason, Dedup(flags));
    }
    ghost var before := flags;
    if c.afterHours {
      flags := flags + ["after_hours_execution"];
    }
    if c.frequencySpike {
      flags := flags + ["frequency_spike"];
    }
    if c.splitRisk {
      flags := flags + ["split_transaction_risk"];
    }
    assert flags == before + ContextFlags(c);
    hide ContextFlags;
    var riskScore := c.newDestinationRisk + FlagScore(flags);
    var decision, reason := APPROVED, None;
    if blockedReason.Some? {
      decision, reason := BLOCKED, blockedReason;
    } else if riskScore >= p.blockFrom {
      decision, reason := BLOCKED, Some("risk_score_blocked");
    } else if !c.whitelisted {
      decision, reason := CONDITIONAL_APPROVAL, Some("destination_not_whitelisted_but_valid");
      riskScore := 40;
    } else if riskScore >= p.conditionalFrom && riskScore > p.approveBelow {
      decision, reason := CONDITIONAL_APPROVAL, Some("conditional_approval");
    }
    assert (decision, riskScore, reason)
        == Decide(p, blockedReason, c.whitelisted, c.newDestinationRisk + FlagScore(flags));
    hide Decide;
    e := Evaluation(decision, riskScore, Dedup(flags), reason);
  }

  // ---------- What the verdict means ----------

  /** It begins with an `r`, and has the length of an address if that is asked for. */
  ghost predicate ReadsAsAddress(destination: string, strict: bool) {
    "r" <= destination && (strict ==> 25 <= |destination| <= 35)
  }

  /** The checks that block at once, in terms of the payment: who, what, what for, how much, where to. */
  ghost predicate Admitted(p: Policy, pay: Payment, c: Circumstances) {
    && pay.agentId == p.agentId
    && pay.action in p.allowedActions
    && pay.purpose in p.allowedPurposes
    && 0 < pay.amount <= p.maxAmount
    && ReadsAsAddress(pay.destination, c.strictAddress)
    && c.accountPassed && c.trustlinePassed && !c.newDestinationBlocked
  }

  /** How often the three flags that carry weight occur. */
  ghost function Weights(flags: seq<string>): nat {
    var m := multiset(flags);
    m["after_hours_execution"] + m["frequency_spike"] + m["split_transaction_risk"]
  }

  /** The risk: twenty for each of the three flags, from the ledger checks or from the context. */
  ghost function RiskOf(c: Circumstances): int {
    c.newDestinationRisk + 20 * (Weights(c.trustlineFlags) + Weights(c.newDestinationFlags))
    + (if c.afterHours then 20 else 0) + (if c.frequencySpike then 20 else 0) + (if c.splitRisk then 20 else 0)
  }

  /** No check blocks, no limit is exceeded, and the risk is below the threshold. */
  ghost predicate NotBlocked(p: Policy, pay: Payment, usedToday: int, c: Circumstances) {
    && Admitted(p, pay, c)
    && (p.dailyLimit.Some? ==> usedToday + pay.amount <= p.dailyLimit.value)
    && RiskOf(c) < p.blockFrom
  }

  ghost predicate Suspicious(p: Policy, c: Circumstances) {
    !c.whitelisted || (RiskOf(c) >= p.conditionalFrom && RiskOf(c) > p.approveBelow)
  }

  lemma {:induction false} FlagScoreCounts(flags: seq<string>)
    ensures FlagScore(flags) == 20 * Weights(flags)
  {
    if flags != [] {
      var front, last := flags[..|flags| - 1], flags[|flags| - 1];
      FlagScoreCounts(front);
      assert flags == front + [last];
      assert multiset(flags) == multiset(front) + multiset{last};
    }
  }

  lemma ContextScore(c: Circumstances)
    ensures FlagScore(ContextFlags(c))
      == (if c.afterHours then 20 else 0) + (if c.frequencySpike then 20 else 0) + (if c.splitRisk then 20 else 0)
  {
    FlagScoreCounts(ContextFlags(c));
  }

  /** The risk score is what the flags and the new destination weigh; what is asked and what was spent do not count. */
  lemma RiskIsOf(p: Policy, pay: Payment, usedToday: int, c: Circumstances)
    ensures Risk(p, pay, usedToday, c) == RiskOf(c)
  {
    hide Weights, FlagScore, ContextFlags, Risk;
    RiskIgnoresLimits(p, pay, usedToday, c);
    FlagScoreCounts(c.trustlineFlags);
    FlagScoreCounts(c.newDestinationFlags);
    ContextScore(c);
  }

  /** The verdict, and the score that is reported with it. The engine never asks for human approval. */
  lemma VerdictIff(p: Policy, pay: Payment, usedToday: int, c: Circumstances)
    ensures var e := Evaluate(p, pay, usedToday, c);
      && (e.decision == BLOCKED <==> !NotBlocked(p, pay, usedToday, c))
      && (e.decision == CONDITIONAL_APPROVAL <==> NotBlocked(p, pay, usedToday, c) && Suspicious(p, c))
      && (e.decision == APPROVED <==> NotBlocked(p, pay, usedToday, c) && !Suspicious(p, c))
      && e.riskScore == (if !Admitted(p, pay, c) then 100
                         else if NotBlocked(p, pay, usedToday, c) && !c.whitelisted then 40
                         else RiskOf(c))
  {
    hide Risk, RiskOf, Dedup;
    RiskIsOf(p, pay, usedToday, c);
  }

  /** The reason that is reported: of the checks in this order the first that fails. */
  lemma ReasonSaysWhy(p: Policy, pay: Payment, usedToday: int, c: Circumstances)
    ensures Evaluate(p, pay, usedToday, c).reason ==
      if pay.agentId != p.agentId then Some("unknown_agent")
      else if pay.action !in p.allowedActions then Some("action_not_allowed")
      else if pay.purpose !in p.allowedPurposes then Some("purpose_not_allowed")
      else if pay.amount <= 0 || pay.amount > p.maxAmount then Some("amount_policy_violation")
      else if p.dailyLimit.Some? && usedToday + pay.amount > p.dailyLimit.value
        && (Admitted(p, pay, c) || !ReadsAsAddress(pay.destination, c.strictAddress)) then Some("DAILY_LIMIT_EXCEEDED")
      else if !ReadsAsAddress(pay.destination, c.strictAddress) then Some("invalid_destination")
      else if !c.accountPassed then Some(c.accountReason)
      else if !c.trustlinePassed then Some(c.trustlineReason)
      else if c.newDestinationBlocked then Some(c.newDestinationReason)
      else if RiskOf(c) >= p.blockFrom then Some("risk_score_blocked")
      else if !c.whitelisted then Some("destination_not_whitelisted_but_valid")
      else if RiskOf(c) >= p.conditionalFrom && RiskOf(c) > p.approveBelow then Some("conditional_approval")
      else None
  {
    hide Risk, RiskOf, Dedup;
    RiskIsOf(p, pay, usedToday, c);
  }

  lemma AdmittedFlags(p: Policy, pay: Payment, usedToday: int, c: Circumstances)
    requires Admitted(p, pay, c)
    ensures forall f :: f in Evaluate(p, pay, usedToday, c).flags <==> f in AllFlags(p, pay, usedToday, c)
    ensures AmountInRange(p, pay)
  {
    hide Risk, Decide, AllFlags;
  }

  lemma AllFlagsIff(p: Policy, pay: Payment, usedToday: int, c: Circumstances, flag: string)
    ensures flag in AllFlags(p, pay, usedToday, c) <==>
      || flag in c.trustlineFlags
      || flag in c.newDestinationFlags
      || (flag == "amount_limit_exceeded" && !AmountInRange(p, pay))
      || (flag == "daily_limit_exceeded" && p.dailyLimit.Some? && usedToday + pay.amount > p.dailyLimit.value)
      || (flag == "destination_not_whitelisted" && !c.whitelisted)
      || (flag == "after_hours_execution" && c.afterHours)
      || (flag == "frequency_spike" && c.frequencySpike)
      || (flag == "split_transaction_risk" && c.splitRisk)
  {
    hide AmountInRange;
  }

  /** The flags of a payment that is admitted: those of the ledger checks, and one for each thing found wrong here. */
  lemma FlagsIff(p: Policy, pay: Payment, usedToday: int, c: Circumstances, flag: string)
    requires Admitted(p, pay, c)
    ensures flag in Evaluate(p, pay, usedToday, c).flags <==>
      || flag in c.trustlineFlags
      || flag in c.newDestinationFlags
      || (flag == "daily_limit_exceeded" && p.dailyLimit.Some? && usedToday + pay.amount > p.dailyLimit.value)
      || (flag == "destination_not_whitelisted" && !c.whitelisted)
      || (flag == "after_hours_execution" && c.afterHours)
      || (flag == "frequency_spike" && c.frequencySpike)
      || (flag == "split_transaction_risk" && c.splitRisk)
  {
    hide *;
    AdmittedFlags(p, pay, usedToday, c);
    AllFlagsIff(p, pay, usedToday, c, flag);
  }

  /** Approved is exactly what passes every check. */
  lemma ApprovedIff(p: Policy, pay: Payment, usedToday: int, c: Circumstances)
    ensures Evaluate(p, pay, usedToday, c).decision in {BLOCKED, CONDITIONAL_APPROVAL, APPROVED}
    ensures Evaluate(p, pay, usedToday, c).decision == APPROVED <==>
      && pay.agentId == p.agentId && pay.action in p.allowedActions && pay.purpose in p.allowedPurposes
      && AmountInRange(p, pay) && WithinDailyLimit(p, pay, usedToday)
      && ValidAddress(pay.destination, c.strictAddress) && c.whitelisted
      && c.accountPassed && c.trustlinePassed && !c.newDestinationBlocked
      && Risk(p, pay, usedToday, c) < p.blockFrom
      && (Risk(p, pay, usedToday, c) < p.conditionalFrom || Risk(p, pay, usedToday, c) <= p.approveBelow)
  {
  }

  function Rank(s: Status): int {
    if s == APPROVED then 2 else if s == CONDITIONAL_APPROVAL then 1 else 0
  }

  lemma {:induction false} FlagScoreAppend(a: seq<string>, b: seq<string>)
    ensures FlagScore(a + b) == FlagScore(a) + FlagScore(b)
  {
    if b == [] {
      assert a + b == a;
    } else {
      assert (a + b)[..|a + b| - 1] == a + b[..|b| - 1];
      FlagScoreAppend(a, b[..|b| - 1]);
    }
  }

  lemma {:induction false} WeightlessFlags(flags: seq<string>)
    requires forall i :: 0 <= i < |flags| ==> FlagWeight(flags[i]) == 0
    ensures FlagScore(flags) == 0
  {
    if flags != [] {
      WeightlessFlags(flags[..|flags| - 1]);
    }
  }

  /** The limit flags carry no weight, so the risk score does not depend on what was spent or asked. */
  lemma RiskIgnoresLimits(p: Policy, pay: Payment, usedToday: int, c: Circumstances)
    ensures Risk(p, pay, usedToday, c)
         == c.newDestinationRisk + FlagScore(c.trustlineFlags) + FlagScore(c.newDestinationFlags)
           + FlagScore(ContextFlags(c))
  {
    var limit := LimitFlags(p, pay, usedToday, c);
    assert FlagScore(limit) == 0 by {
      WeightlessFlags(limit);
    }
    hide LimitFlags, ContextFlags, FlagScore;
    FlagScoreAppend(limit, c.trustlineFlags);
    FlagScoreAppend(limit + c.trustlineFlags, c.newDestinationFlags);
    FlagScoreAppend(limit + c.trustlineFlags + c.newDestinationFlags, ContextFlags(c));
  }

  /** Having spent more, or asking for more, never gets a better verdict. */
  lemma SpendingMoreNeverHelps(p: Policy, pay: Payment, more: int, usedToday: int, usedMore: int, c: Circumstances)
    requires 0 < pay.amount <= more && usedToday <= usedMore
    ensures Rank(Evaluate(p, pay.(amount := more), usedMore, c).decision)
         <= Rank(Evaluate(p, pay, usedToday, c).decision)
  {
    hide Dedup, FlagScore, Risk, LimitFlags;
    RiskIgnoresLimits(p, pay, usedToday, c);
    RiskIgnoresLimits(p, pay.(amount := more), usedMore, c);
  }
}
