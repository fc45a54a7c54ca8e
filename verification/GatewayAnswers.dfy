/** What the gateway answers, in terms of what it was asked and of what happened before: which payments are let through,
    and which approvals are granted. */
module GatewayAnswers {
  import opened Wrappers
  import opened PyValues
  import opened AuditLog
  import opened Gateway
  import opened GatewayRuns
  import opened DailyLimit
  import RP = RuntimePolicy

  // ---------- What was spent ----------

  /** The record counts for the day of `now` or a later one, and for this agent or this wallet. */
  ghost predicate Counts(r: AuditRecord, agent: PyValue, wallet: PyValue, now: int) {
    && r.status == APPROVED
    && r.timestamp / 86400 >= now / 86400
    && (Get(r.request, "agent_id", PyNone) == agent || Get(r.request, "wallet_address", PyNone) == wallet)
  }

  /** The amounts of those records, summed up from the front. */
  ghost function Spent(records: seq<AuditRecord>, agent: PyValue, wallet: PyValue, now: int): real {
    if records == [] then 0.0
    else
      (if Counts(records[0], agent, wallet, now) then Float(Get(records[0].request, "amount", PyNum(0.0))) else 0.0)
      + Spent(records[1..], agent, wallet, now)
  }

  /** The same in whole units of the raw amounts. */
  ghost function SpentRaw(records: seq<AuditRecord>, agent: PyValue, wallet: PyValue, now: int): int {
    if records == [] then 0
    else
      var amount := Get(records[0].request, "amount_raw", Get(records[0].request, "amount", PyNum(0.0)));
      (if Counts(records[0], agent, wallet, now) then Trunc(Float(amount)) else 0)
      + SpentRaw(records[1..], agent, wallet, now)
  }

  lemma SinceMidnight(stamp: int, now: int)
    ensures StartOfDay(now) <= stamp <==> stamp / 86400 >= now / 86400
  {
    var d, e := now / 86400, stamp / 86400;
    assert now - now % 86400 == 86400 * d && 86400 * e <= stamp < 86400 * (e + 1);
  }

  lemma {:induction false} SpentSnoc(records: seq<AuditRecord>, r: AuditRecord, agent: PyValue, wallet: PyValue,
                                     now: int)
    ensures Spent(records + [r], agent, wallet, now) == Spent(records, agent, wallet, now)
      + (if Counts(r, agent, wallet, now) then Float(Get(r.request, "amount", PyNum(0.0))) else 0.0)
  {
    hide Counts;
    if records == [] {
      assert records + [r] == [r] && [r][1..] == [];
    } else {
      assert (records + [r])[1..] == records[1..] + [r];
      SpentSnoc(records[1..], r, agent, wallet, now);
    }
  }

  lemma {:induction false} SpentRawSnoc(records: seq<AuditRecord>, r: AuditRecord, agent: PyValue, wallet: PyValue,
                                        now: int)
    ensures SpentRaw(records + [r], agent, wallet, now) == SpentRaw(records, agent, wallet, now)
      + (if Counts(r, agent, wallet, now)
         then Trunc(Float(Get(r.request, "amount_raw", Get(r.request, "amount", PyNum(0.0))))) else 0)
  {
    hide Counts;
    if records == [] {
      assert records + [r] == [r] && [r][1..] == [];
    } else {
      assert (records + [r])[1..] == records[1..] + [r];
      SpentRawSnoc(records[1..], r, agent, wallet, now);
    }
  }

  lemma UsedSnocOf(front: seq<AuditRecord>, r: AuditRecord, agent: PyValue, wallet: PyValue, now: int)
    ensures Used(front + [r], LedgerAmount, StartOfDay(now), agent, wallet)
      == Used(front, LedgerAmount, StartOfDay(now), agent, wallet)
         + (if Counts(r, agent, wallet, now) then Float(Get(r.request, "amount", PyNum(0.0))) else 0.0)
    ensures UsedRaw(front + [r], StartOfDay(now), agent, wallet)
      == UsedRaw(front, StartOfDay(now), agent, wallet)
         + (if Counts(r, agent, wallet, now)
            then Trunc(Float(Get(r.request, "amount_raw", Get(r.request, "amount", PyNum(0.0))))) else 0)
  {
    hide StartOfDay, Trunc, Float, Get;
    SinceMidnight(r.timestamp, now);
    assert (front + [r])[..|front + [r]| - 1] == front;
  }

  /** What the checks take as used is what was spent. */
  lemma {:induction false} UsedIsSpent(records: seq<AuditRecord>, agent: PyValue, wallet: PyValue, now: int)
    ensures Used(records, LedgerAmount, StartOfDay(now), agent, wallet) == Spent(records, agent, wallet, now)
    ensures UsedRaw(records, StartOfDay(now), agent, wallet) == SpentRaw(records, agent, wallet, now)
  {
    if records == [] {
    } else {
      hide *;
      var front, last := records[..|records| - 1], records[|records| - 1];
      UsedIsSpent(front, agent, wallet, now);
      UsedSnocOf(front, last, agent, wallet, now);
      SpentSnoc(front, last, agent, wallet, now);
      SpentRawSnoc(front, last, agent, wallet, now);
      assert records == front + [last];
    }
  }

  // ---------- process_action ----------

  /** The payment is within the maximum and on every list of the policy; empty lists list everything, and an empty
      destination needs no merchant. */
  ghost predicate InPolicy(p: Policy, i: ActionInput) {
    && (p.maxAmount.Some? ==> i.amount <= p.maxAmount.value)
    && (p.allowedActions == {} || i.action in p.allowedActions)
    && (p.allowedPurposes == {} || i.purpose in p.allowedPurposes)
    && (i.destination == "" || p.allowedMerchants == {} || i.destination in p.allowedMerchants)
    && (p.allowedDestinations == {} || i.destination in p.allowedDestinations)
  }

  /** With what was spent today it is within the daily limit. */
  ghost predicate InLimit(p: Policy, records: seq<AuditRecord>, i: ActionInput, now: int) {
    p.dailyLimit.Some? ==>
      Spent(records, PyStr(i.agentId), PyStr(i.walletAddress), now) + i.amount <= p.dailyLimit.value
  }

  lemma ActionEntries(env: Env, i: ActionInput, now: int)
    ensures var r := ActionRequest(env, i, now);
      && "agent_id" in r && r["agent_id"] == PyStr(i.agentId)
      && "wallet_address" in r && r["wallet_address"] == PyStr(i.walletAddress)
      && "amount" in r && r["amount"] == PyNum(i.amount)
      && "action" in r && r["action"] == PyStr(i.action)
      && "purpose" in r && r["purpose"] == PyStr(i.purpose)
      && "destination" in r && r["destination"] == PyStr(i.destination)
      && "merchant" in r && r["merchant"] == PyStr(i.destination)
  {
  }

  lemma NoReasonIff(env: Env, b: Books, i: ActionInput, clock: Clock)
    ensures ProcessReason(env, b, ActionRequest(env, i, clock.check), clock).None?
      <==> InPolicy(env.policy, i) && InLimit(env.policy, b.records, i, clock.check)
  {
    hide ActionRequest, Used, Spent, StartOfDay;
    ActionEntries(env, i, clock.check);
    UsedIsSpent(b.records, PyStr(i.agentId), PyStr(i.walletAddress), clock.check);
  }

  /** The answer of process_action, for every state: blocked is exactly what is not within the policy and the limit; a
      risk below 31 is approved, one below 40 approved conditionally, and otherwise a human is asked. A token comes with
      an approval, conditional or not, and is for this agent and this payment. */
  lemma ProcessAnswerIff(env: Env, b: Books, i: ActionInput, risk: RiskAnswer, ids: FreshIds, clock: Clock)
    ensures var (after, reply) := Step(env, b, ProcessAction(i, risk, ids, clock));
      var passes := InPolicy(env.policy, i) && InLimit(env.policy, b.records, i, clock.check);
      && reply.Decided?
      && (reply.decision == BLOCKED <==> !passes)
      && (reply.decision == APPROVED <==> passes && risk.score < 31)
      && (reply.decision == CONDITIONAL_APPROVAL <==> passes && 31 <= risk.score < 40)
      && (reply.decision == REQUIRE_APPROVAL <==> passes && risk.score >= 40)
      && (reply.given.Some? <==> passes && risk.score < 40)
      && (reply.given.Some? ==>
            reply.given.value.payload.subject == i.agentId
            && ForPayment(reply.given.value.payload.action, i))
      && |after.records| == |b.records| + 1 && after.records[..|b.records|] == b.records
      && after.records[|b.records|].status == reply.decision
  {
    hide ProcessReason, ActionRequest, LedgerRequest, RecordHash, InPolicy, InLimit;
    NoReasonIff(env, b, i, clock);
    ActionEntries(env, i, clock.check);
  }

  /** The reason that process_action gives: of the checks in this order the first that fails, and else the risk. */
  lemma ProcessSaysWhy(env: Env, b: Books, i: ActionInput, risk: RiskAnswer, ids: FreshIds, clock: Clock)
    ensures var p, reply := env.policy, Step(env, b, ProcessAction(i, risk, ids, clock)).1;
      reply.Decided? && reply.reason ==
        if p.maxAmount.Some? && i.amount > p.maxAmount.value then Some("amount_exceeds_limit")
        else if p.allowedActions != {} && i.action !in p.allowedActions then Some("action_not_allowed")
        else if p.allowedPurposes != {} && i.purpose !in p.allowedPurposes then Some("purpose_not_allowed")
        else if i.destination != "" && p.allowedMerchants != {} && i.destination !in p.allowedMerchants
        then Some("merchant_not_allowed")
        else if p.allowedDestinations != {} && i.destination !in p.allowedDestinations
        then Some("DESTINATION_NOT_ALLOWED")
        else if !InLimit(p, b.records, i, clock.check) then Some("DAILY_LIMIT_EXCEEDED")
        else if risk.score >= 40 then Some("RISK_SCORE_THRESHOLD")
        else if risk.score >= 31 then Some("CONDITIONAL_RISK_ALLOWED")
        else None
  {
    hide ActionRequest, LedgerRequest, RecordHash, Used, Spent, StartOfDay;
    ActionEntries(env, i, clock.check);
    UsedIsSpent(b.records, PyStr(i.agentId), PyStr(i.walletAddress), clock.check);
  }

  /** The request of a token names this payment. */
  ghost predicate ForPayment(action: Dict, i: ActionInput) {
    && Get(action, "amount", PyNone) == PyNum(i.amount)
    && Get(action, "action", PyNone) == PyStr(i.action)
    && Get(action, "purpose", PyNone) == PyStr(i.purpose)
    && Get(action, "destination", PyNone) == PyStr(i.destination)
    && Get(action, "wallet_address", PyNone) == PyStr(i.walletAddress)
  }

  // ---------- request_execution ----------

  const XRP_TEXTS: set<string> := {"XRP", "XRp", "XrP", "Xrp", "xRP", "xRp", "xrP", "xrp"}

  /** The amount that is asked for, in drops if the currency is XRP, in whatever letters. */
  ghost function Asked(request: Dict): real {
    Float(Get(request, "amount", PyNum(0.0)))
  }

  ghost function InUnits(request: Dict): real {
    if Text(Get(request, "currency", PyStr(""))) in XRP_TEXTS then Asked(request) * 1000000.0 else Asked(request)
  }

  /** Destination and merchant stand in for one another. */
  ghost function DestinationOf(request: Dict): PyValue {
    if "destination" in request then request["destination"]
    else if "merchant" in request then request["merchant"]
    else PyStr("")
  }

  ghost function MerchantOf(request: Dict): PyValue {
    if "merchant" in request then request["merchant"] else DestinationOf(request)
  }

  ghost predicate Listed(allowed: set<string>, v: PyValue) {
    allowed == {} || exists t :: t in allowed && v == PyStr(t)
  }

  /** The guards of the legacy path: at most a thousand, within the maximum, on every list. */
  ghost predicate LegacyGuards(p: Policy, request: Dict) {
    && InUnits(request) <= 1000.0
    && (p.maxAmount.Some? ==> InUnits(request) <= p.maxAmount.value)
    && Listed(p.allowedActions, Get(request, "action", PyNone))
    && Listed(p.allowedPurposes, Get(request, "purpose", PyNone))
    && (MerchantOf(request).PyStr? && MerchantOf(request).s != "" ==> Listed(p.allowedMerchants, MerchantOf(request)))
    && Listed(p.allowedDestinations, DestinationOf(request))
  }

  lemma RestrictsIff(allowed: set<string>, v: PyValue)
    ensures Restricts(allowed, v) <==> !Listed(allowed, v)
  {
  }

  lemma XrpIff(currency: string)
    ensures IsXrp(currency) <==> currency in XRP_TEXTS
  {
    if |currency| == 3 {
      assert currency == [currency[0], currency[1], currency[2]];
    }
  }

  lemma NormalizedEntries(env: Env, request: Dict)
    ensures var n := Normalize(env, request);
      && "amount" in n && n["amount"] == PyNum(InUnits(request))
      && "amount_raw" in n && n["amount_raw"] == PyNum(Asked(request))
      && (forall key :: key !in {"amount", "amount_raw", "amount_normalized", "request_hash"} ==>
            (key in n <==> key in request) && (key in request ==> n[key] == request[key]))
  {
    XrpIff(Text(Get(request, "currency", PyStr(""))));
    hide IsXrp;
    assert "amount" != "request_hash" && "amount_raw" != "request_hash" && "amount_raw" != "amount_normalized"
        && "amount_raw" != "amount";
  }

  lemma LegacyEntries(agentDid: string, request: Dict)
    ensures var r := LegacyRequest(agentDid, request);
      && "destination" in r && r["destination"] == DestinationOf(request)
      && "merchant" in r && r["merchant"] == MerchantOf(request)
      && (forall key :: key !in {"agent_id", "wallet_address", "destination", "merchant"} ==>
            (key in r <==> key in request) && (key in request ==> r[key] == request[key]))
  {
  }

  /** What the legacy path reads of the request, in terms of the one that was given. */
  lemma LegacyReads(env: Env, agentDid: string, given: Dict)
    ensures var r := LegacyRequest(agentDid, Normalize(env, given));
      && Get(r, "amount", PyNum(0.0)) == PyNum(InUnits(given))
      && Get(r, "action", PyNone) == Get(given, "action", PyNone)
      && Get(r, "purpose", PyNone) == Get(given, "purpose", PyNone)
      && "destination" in r && r["destination"] == DestinationOf(given)
      && "merchant" in r && r["merchant"] == MerchantOf(given)
  {
    hide Normalize, LegacyRequest;
    NormalizedEntries(env, given);
    LegacyEntries(agentDid, Normalize(env, given));
  }

  lemma LegacyReasonIff(env: Env, agentDid: string, given: Dict)
    ensures LegacyReason(env, LegacyRequest(agentDid, Normalize(env, given))).None? <==> LegacyGuards(env.policy, given)
  {
    hide Normalize, LegacyRequest, Restricts, Listed, InUnits, DestinationOf, MerchantOf;
    var p := env.policy;
    LegacyReads(env, agentDid, given);
    RestrictsIff(p.allowedActions, Get(given, "action", PyNone));
    RestrictsIff(p.allowedPurposes, Get(given, "purpose", PyNone));
    RestrictsIff(p.allowedMerchants, MerchantOf(given));
    RestrictsIff(p.allowedDestinations, DestinationOf(given));
  }

  /** The answer of request_execution on the legacy path, for every state: a token exactly if the guards let the request
      through and its risk is below 40 or simulated; an approval is opened exactly if only the risk stands against
      it. */
  lemma LegacyAnswerIff(env: Env, b: Books, agentDid: string, given: Dict, facts: RP.Circumstances, risk: RiskAnswer,
                        details: Dict, ids: FreshIds, clock: Clock)
    requires env.policy.maxAmount.Some?
    ensures var (after, reply) :=
        Step(env, b, RequestExecution(agentDid, given, facts, risk, details, ids, clock));
      && (reply.Token? <==> LegacyGuards(env.policy, given) && (risk.demo || risk.score < 40))
      && (reply.NoToken? <==> !reply.Token?)
      && (|after.approvals| == |b.approvals| + 1 <==>
            LegacyGuards(env.policy, given) && !risk.demo && risk.score >= 40)
      && (reply.Token? ==> reply.token.payload.subject == agentDid && ForRequest(reply.token.payload.action, given))
      && |after.records| == |b.records| + 1 && after.records[..|b.records|] == b.records
      && after.records[|b.records|].status
         == (if !LegacyGuards(env.policy, given) then BLOCKED
             else if risk.demo || risk.score < 40 then APPROVED else REQUIRE_APPROVAL)
  {
    hide LegacyRequest, LegacyReason, Normalize, Annotate, RecordHash, LedgerRequest, LegacyGuards;
    LegacyReasonIff(env, agentDid, given);
    LegacyReads(env, agentDid, given);
  }

  /** The request of a token names what was asked for. */
  ghost predicate ForRequest(action: Dict, given: Dict) {
    && Get(action, "amount", PyNum(0.0)) == PyNum(InUnits(given))
    && Get(action, "action", PyNone) == Get(given, "action", PyNone)
    && Get(action, "purpose", PyNone) == Get(given, "purpose", PyNone)
    && Get(action, "destination", PyNone) == DestinationOf(given)
  }

  /** The payment that the runtime policy is asked about. */
  ghost function PaymentOf(agentDid: string, given: Dict): RP.Payment {
    RP.Payment(Text(Get(given, "agent_id", PyStr(agentDid))), Text(Get(given, "action", PyStr(""))),
               Trunc(if Text(Get(given, "currency", PyStr(""))) == "XRP" then Asked(given) else InUnits(given)),
               Text(Get(given, "destination", PyStr(""))), Text(Get(given, "purpose", PyStr(""))))
  }

  /** What the payer has used today, in raw amounts. */
  ghost function UsedBefore(records: seq<AuditRecord>, given: Dict, now: int): int {
    SpentRaw(records, Get(given, "agent_id", PyNone), Get(given, "wallet_address", PyNone), now)
  }

  lemma RuntimeReads(env: Env, agentDid: string, given: Dict, records: seq<AuditRecord>, now: int)
    ensures RuntimePayment(agentDid, Normalize(env, given)) == PaymentOf(agentDid, given)
    ensures RuntimeUsed(records, Normalize(env, given), now) == UsedBefore(records, given, now)
    ensures Get(Normalize(env, given), "amount_raw", PyNum(0.0)) == PyNum(Asked(given))
  {
    hide Normalize, UsedRaw, SpentRaw, Trunc, InUnits, Text;
    NormalizedEntries(env, given);
    UsedIsSpent(records, Get(given, "agent_id", PyNone), Get(given, "wallet_address", PyNone), now);
  }

  /** The answer of request_execution under the runtime policy, for every state: a token exactly if this policy does not
      block the payment, with what was spent today counted in. */
  lemma RuntimeAnswerIff(env: Env, b: Books, agentDid: string, given: Dict, facts: RP.Circumstances, risk: RiskAnswer,
                         details: Dict, ids: FreshIds, clock: Clock)
    requires env.policy.maxAmount.None?
    ensures var (after, reply) :=
        Step(env, b, RequestExecution(agentDid, given, facts, risk, details, ids, clock));
      var pay, used := PaymentOf(agentDid, given), UsedBefore(b.records, given, clock.check);
      var passes := RP.NotBlocked(env.runtime, pay, used, facts);
      && (reply.Token? <==> passes) && (reply.NoToken? <==> !passes)
      && after.approvals == b.approvals
      && |after.records| == |b.records| + 1 && after.records[..|b.records|] == b.records
      && after.records[|b.records|].status
         == (if !passes then BLOCKED
             else if RP.Suspicious(env.runtime, facts) then CONDITIONAL_APPROVAL else APPROVED)
  {
    hide Normalize, RuntimePayment, RuntimeUsed, Annotate, RecordHash, RP.Evaluate, RP.NotBlocked, RP.Suspicious;
    RuntimeReads(env, agentDid, given, b.records, clock.check);
    RP.VerdictIff(env.runtime, PaymentOf(agentDid, given), UsedBefore(b.records, given, clock.check), facts);
  }
}
