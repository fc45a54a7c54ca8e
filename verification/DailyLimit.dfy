/** The daily limit over whole runs: for every agent, every wallet and every UTC day, what the audit log
    shows as approved stays within the limit, even if a call checks on one day and records on the next. */
module DailyLimit {
  import opened Wrappers
  import opened PyValues
  import opened AuditLog
  import opened Gateway
  import opened GatewayRuns

  function Day(timestamp: int): int {
    timestamp / SECONDS_PER_DAY
  }

  /** The two ways of saying who pays. */
  ghost predicate PayerKey(key: string) {
    key == "agent_id" || key == "wallet_address"
  }

  /** What one payer has been approved for on one day. */
  ghost function DaySum(records: seq<AuditRecord>, weight: AuditRecord -> real, key: string, payer: PyValue,
                        day: int): real
  {
    if records == [] then 0.0
    else
      var r := records[|records| - 1];
      DaySum(records[..|records| - 1], weight, key, payer, day)
      + (if r.status == APPROVED && Day(r.timestamp) == day && Get(r.request, key, PyNone) == payer
         then weight(r) else 0.0)
  }

  ghost predicate NeverNegative(records: seq<AuditRecord>, weight: AuditRecord -> real) {
    forall i :: 0 <= i < |records| && records[i].status == APPROVED ==> weight(records[i]) >= 0.0
  }

  ghost predicate WithinDays(records: seq<AuditRecord>, weight: AuditRecord -> real, limit: real) {
    forall key, payer, day :: PayerKey(key) ==> DaySum(records, weight, key, payer, day) <= limit
  }

  ghost predicate Limited(records: seq<AuditRecord>, weight: AuditRecord -> real, limit: real) {
    NeverNegative(records, weight) && WithinDays(records, weight, limit)
  }

  /** The check at time `now` sees everything recorded for the payer on that day and on later ones. */
  lemma {:induction false} CheckSeesTheDay(records: seq<AuditRecord>, weight: AuditRecord -> real, key: string,
                                           agent: PyValue, wallet: PyValue, day: int, now: int)
    requires NeverNegative(records, weight) && PayerKey(key) && Day(now) <= day
    ensures DaySum(records, weight, key, if key == "agent_id" then agent else wallet, day)
         <= Used(records, weight, StartOfDay(now), agent, wallet)
  {
    if records != [] {
      var front, r := records[..|records| - 1], records[|records| - 1];
      assert forall i :: 0 <= i < |front| ==> front[i] == records[i];
      CheckSeesTheDay(front, weight, key, agent, wallet, day, now);
      assert Day(r.timestamp) == day ==> StartOfDay(now) <= r.timestamp;
    }
  }

  lemma DaySumSnoc(records: seq<AuditRecord>, r: AuditRecord, weight: AuditRecord -> real, key: string,
                   payer: PyValue, day: int)
    ensures DaySum(records + [r], weight, key, payer, day)
         == DaySum(records, weight, key, payer, day)
          + (if r.status == APPROVED && Day(r.timestamp) == day && Get(r.request, key, PyNone) == payer
             then weight(r) else 0.0)
  {
    assert (records + [r])[..|records + [r]| - 1] == records;
  }

  /** A record approved on a check that left room for it keeps every payer and every day within the limit. */
  lemma ApprovalKeepsLimit(records: seq<AuditRecord>, r: AuditRecord, weight: AuditRecord -> real, limit: real,
                           now: int)
    requires Limited(records, weight, limit)
    requires r.status == APPROVED && weight(r) >= 0.0 && now <= r.timestamp
    requires Used(records, weight, StartOfDay(now), Get(r.request, "agent_id", PyNone),
      Get(r.request, "wallet_address", PyNone))
           + weight(r) <= limit
    ensures Limited(records + [r], weight, limit)
  {
    forall key, payer, day | PayerKey(key) ensures DaySum(records + [r], weight, key, payer, day) <= limit {
      DaySumSnoc(records, r, weight, key, payer, day);
      if Day(r.timestamp) == day && Get(r.request, key, PyNone) == payer {
        CheckSeesTheDay(records, weight, key, Get(r.request, "agent_id", PyNone),
          Get(r.request, "wallet_address", PyNone), day, now);
      }
    }
  }

  lemma {:induction false} OtherRecordsKeepLimit(records: seq<AuditRecord>, more: seq<AuditRecord>,
                                                 weight: AuditRecord -> real, limit: real)
    requires Limited(records, weight, limit)
    requires forall i :: 0 <= i < |more| ==> more[i].status != APPROVED
    ensures Limited(records + more, weight, limit)
  {
    if more == [] {
      assert records + more == records;
    } else {
      var front, r := more[..|more| - 1], more[|more| - 1];
      OtherRecordsKeepLimit(records, front, weight, limit);
      assert records + more == records + front + [r];
      forall key, payer, day | PayerKey(key) ensures DaySum(records + more, weight, key, payer, day) <= limit {
        DaySumSnoc(records + front, r, weight, key, payer, day);
      }
    }
  }

  lemma {:induction false} ExpiryApprovesNothing(approvals: seq<Approval>, now: int, stamp: int)
    ensures forall i :: 0 <= i < |ExpiryRecords(approvals, now, stamp)| ==>
      ExpiryRecords(approvals, now, stamp)[i].status != APPROVED
  {
    if approvals != [] {
      ExpiryApprovesNothing(approvals[..|approvals| - 1], now, stamp);
    }
  }

  /** Effects other than an approved record leave the day sums alone. */
  lemma OtherEffectsKeepLimit(b: Books, e: Effect, weight: AuditRecord -> real, limit: real)
    requires Limited(b.records, weight, limit)
    requires e.Logged? ==> e.record.status != APPROVED
    ensures Limited(Apply(b, e).records, weight, limit)
  {
    hide Limited, RecordHash, LedgerRequest, ExpiryRecords, Annotate;
    match e
    case Logged(r) => OtherRecordsKeepLimit(b.records, [Sealed(r)], weight, limit);
    case Created(request, reason, score, flags, id, clock) =>
      var r := LedgerRecord(request, REQUIRE_APPROVAL, None, Some(reason), false, score, flags, clock.stamp);
      OtherRecordsKeepLimit(b.records, [Sealed(r.(request := r.request["approval_id" := PyStr(id)]))], weight, limit);
    case Granting(id, submit, ids, clock) =>
      var es := AfterExpiry(b, clock.check, clock.stamp);
      ExpiryApprovesNothing(b.approvals, clock.check, clock.stamp);
      OtherRecordsKeepLimit(b.records, ExpiryRecords(b.approvals, clock.check, clock.stamp), weight, limit);
      var i := Find(es.approvals, id);
      if i.Some? {
        OtherRecordsKeepLimit(es.records, [Sealed(GrantRecord(es.approvals[i.value], ids.jti, submit, clock.stamp))],
          weight, limit);
      }
    case Rejecting(id, clock) =>
      var es := AfterExpiry(b, clock.check, clock.stamp);
      ExpiryApprovesNothing(b.approvals, clock.check, clock.stamp);
      OtherRecordsKeepLimit(b.records, ExpiryRecords(b.approvals, clock.check, clock.stamp), weight, limit);
      var i := Find(es.approvals, id);
      if i.Some? {
        OtherRecordsKeepLimit(es.records, [Sealed(RejectionRecord(es.approvals[i.value], clock.stamp))], weight, limit);
      }
    case _ =>
  }

  ghost function Max(a: real, b: real): real {
    if a < b then b else a
  }

  // ---------- The runtime path ----------

  lemma {:induction false} RawUseIsUse(records: seq<AuditRecord>, start: int, agent: PyValue, wallet: PyValue)
    ensures UsedRaw(records, start, agent, wallet) as real == Used(records, RawLedgerAmount, start, agent, wallet)
  {
    if records != [] {
      RawUseIsUse(records[..|records| - 1], start, agent, wallet);
    }
  }

  /** A positive amount in policy units is no less than the raw amount in whole units, which is not negative:
      the factor of a million only makes it larger. */
  lemma PolicyAmountCoversRaw(env: Env, given: Dict)
    requires PolicyAmount(Normalize(env, given)) > 0
    ensures var raw := Trunc(Float(Get(Normalize(env, given), "amount_raw", PyNum(0.0))));
      0 <= raw <= PolicyAmount(Normalize(env, given))
  {
    var raw := Float(Get(given, "amount", PyNum(0.0)));
    NormalizedAmounts(env, given);
    TruncScales(raw);
  }

  lemma TruncScales(x: real)
    ensures Trunc(x * 1000000.0) > 0 ==> 0 <= Trunc(x) <= Trunc(x * 1000000.0)
    ensures Trunc(x) > 0 ==> x > 0.0
  {
  }

  lemma NormalizedAmounts(env: Env, given: Dict)
    ensures var n := Normalize(env, given);
      var raw := Float(Get(given, "amount", PyNum(0.0)));
      && "amount_raw" in n && n["amount_raw"] == PyNum(raw)
      && "amount" in n && (n["amount"] == PyNum(raw) || n["amount"] == PyNum(raw * 1000000.0))
  {
    assert "amount_raw" != "amount_normalized" && "amount" != "request_hash";
    assert "amount_raw" != "amount" && "amount_raw" != "request_hash";
  }

  lemma AnnotationKeepsPayment(request: Dict, details: Dict, key: string, default: PyValue)
    requires key == "agent_id" || key == "wallet_address" || key == "amount_raw" || key == "amount"
    ensures Get(Annotate(request, details), key, default) == Get(request, key, default)
  {
    assert key !in DETAIL_KEYS;
  }

  lemma AnnotationKeepsRawAmount(request: Dict, details: Dict, r: AuditRecord)
    requires "amount_raw" in request && r.request == Annotate(request, details)
    ensures RawAmount(r) == Trunc(Float(Get(request, "amount_raw", PyNum(0.0))))
  {
    AnnotationKeepsPayment(request, details, "amount_raw", PyNum(0.0));
    assert "amount_raw" in r.request;
  }

  lemma RuntimeRecord(env: Env, b: Books, agentDid: string, request: Dict, facts: RP.Circumstances, details: Dict,
                      ids: FreshIds, clock: Clock)
    ensures var e := RP.Evaluate(env.runtime, RuntimePayment(agentDid, request),
      RuntimeUsed(b.records, request, clock.check), facts);
      var after := AfterRuntime(env, b, agentDid, request, facts, details, ids, clock).0;
      && |after.records| == |b.records| + 1
      && var r := after.records[|b.records|];
      && after.records == b.records + [r]
      && r.status == e.decision && r.request == Annotate(request, details) && r.timestamp == clock.stamp
  {
    hide RP.Evaluate, RuntimePayment, RuntimeUsed, Annotate, RecordHash;
  }

  /** One runtime call keeps the limit. */
  lemma RuntimeCallKeepsLimit(env: Env, b: Books, agentDid: string, given: Dict, facts: RP.Circumstances, details: Dict,
                              ids: FreshIds, clock: Clock, limit: int)
    requires env.runtime.dailyLimit == Some(limit) && clock.check <= clock.stamp
    requires Limited(b.records, RawLedgerAmount, Max(limit as real, 0.0))
    ensures Limited(AfterRuntime(env, b, agentDid, Normalize(env, given), facts, details, ids, clock).0.records,
                    RawLedgerAmount, Max(limit as real, 0.0))
  {
    hide Limited, RP.Evaluate, Normalize, Annotate, RecordHash, AfterRuntime;
    var request := Normalize(env, given);
    var used := RuntimeUsed(b.records, request, clock.check);
    var pay := RuntimePayment(agentDid, request);
    var after := AfterRuntime(env, b, agentDid, request, facts, details, ids, clock).0;
    RuntimeRecord(env, b, agentDid, request, facts, details, ids, clock);
    var r := after.records[|b.records|];
    if r.status == APPROVED {
      RP.ApprovedIff(env.runtime, pay, used, facts);
      PolicyAmountCoversRaw(env, given);
      NormalizedAmounts(env, given);
      AnnotationKeepsRawAmount(request, details, r);
      AnnotationKeepsPayment(request, details, "agent_id", PyNone);
      AnnotationKeepsPayment(request, details, "wallet_address", PyNone);
      RawUseIsUse(b.records, StartOfDay(clock.check), Get(request, "agent_id", PyNone),
        Get(request, "wallet_address", PyNone));
      ApprovalKeepsLimit(b.records, r, RawLedgerAmount, Max(limit as real, 0.0), clock.check);
    } else {
      OtherRecordsKeepLimit(b.records, [r], RawLedgerAmount, Max(limit as real, 0.0));
    }
  }

  ghost predicate RuntimeCall(c: Call) {
    && !c.ProcessAction?
    && (c.RequestExecution? ==> c.clock.check <= c.clock.stamp)
  }

  /** In every run of runtime executions and approval calls, for every agent and wallet and every UTC day, the
      approved raw amounts, in whole units, sum to at most the daily limit. The clock may jump between
      calls; within one it must not run backwards. */
  lemma {:induction false} RuntimeDailyLimit(env: Env, calls: seq<Call>, limit: int)
    requires env.policy.maxAmount.None? && env.runtime.dailyLimit == Some(limit)
    requires forall i :: 0 <= i < |calls| ==> RuntimeCall(calls[i])
    ensures Limited(Run(env, calls).records, RawLedgerAmount, Max(limit as real, 0.0))
  {
    if calls != [] {
      hide Limited, AfterRuntime, AfterApprove, AfterReject, Normalize;
      var front, last := calls[..|calls| - 1], calls[|calls| - 1];
      assert forall i :: 0 <= i < |front| ==> front[i] == calls[i];
      RuntimeDailyLimit(env, front, limit);
      var b := Run(env, front);
      if last.RequestExecution? {
        RuntimeCallKeepsLimit(env, b, last.agentDid, last.request, last.facts, last.details, last.ids, last.clock,
          limit);
      } else {
        hide Apply, Step;
        var e := CallEffect(env, b, last);
        OtherEffectsKeepLimit(b, e, RawLedgerAmount, Max(limit as real, 0.0));
      }
    }
  }

  // ---------- process_action ----------

  lemma LedgerLookups(request: Dict, decision: Status, tokenId: Option<string>, reason: Option<string>,
                      payload: bool, score: int, flags: seq<string>)
    ensures var r := LedgerRequest(request, decision, tokenId, reason, payload, score, flags);
      && Get(r, "agent_id", PyNone) == Get(request, "agent_id", PyStr(""))
      && Get(r, "wallet_address", PyNone) == Get(request, "wallet_address", PyStr(""))
      && Get(r, "amount", PyNum(0.0)) == PyNum(Float(Get(request, "amount", PyNum(0.0))))
  {
  }

  lemma ActionLookups(env: Env, i: ActionInput, now: int)
    ensures var r := ActionRequest(env, i, now);
      && "agent_id" in r && r["agent_id"] == PyStr(i.agentId)
      && "wallet_address" in r && r["wallet_address"] == PyStr(i.walletAddress)
      && "amount" in r && r["amount"] == PyNum(i.amount)
  {
  }

  /** One process_action call with an amount that is not negative keeps the limit. */
  lemma ProcessCallKeepsLimit(env: Env, b: Books, i: ActionInput, risk: RiskAnswer, ids: FreshIds, clock: Clock,
                              limit: real)
    requires env.policy.dailyLimit == Some(limit) && clock.check <= clock.stamp && i.amount >= 0.0
    requires Limited(b.records, LedgerAmount, Max(limit, 0.0))
    ensures Limited(AfterProcess(env, b, i, risk, ids, clock).0.records, LedgerAmount, Max(limit, 0.0))
  {
    var request := ActionRequest(env, i, clock.check);
    var reason := ProcessReason(env, b, request, clock);
    if reason.None? && DecideRisk(risk.score).0 == APPROVED {
      assert WithinDailyLimit(env.policy, b.records, request, clock.check);
      hide Limited, ActionRequest, LedgerRequest, ProcessReason, RecordHash;
      ActionLookups(env, i, clock.check);
      LedgerLookups(request, APPROVED, Some(ids.jti), Some("policy_ok"), true, risk.score, risk.flags);
      var r := Sealed(LedgerRecord(request, APPROVED, Some(ids.jti), Some("policy_ok"), true, risk.score, risk.flags,
        clock.stamp));
      ApprovalKeepsLimit(b.records, r, LedgerAmount, Max(limit, 0.0), clock.check);
    } else {
      hide Limited, ActionRequest, LedgerRequest, ProcessReason, RecordHash, Apply, AfterProcess;
      var e := ProcessEffect(env, b, i, risk, ids, clock);
      if e.Logged? { NotApproved(env, b, i, risk, ids, clock, e); }
      OtherEffectsKeepLimit(b, e, LedgerAmount, Max(limit, 0.0));
    }
  }

  /** A refused or low-ranked action does not end in an APPROVED record. */
  lemma NotApproved(env: Env, b: Books, i: ActionInput, risk: RiskAnswer, ids: FreshIds, clock: Clock, e: Effect)
    requires e.Logged?
    ensures
      AfterProcess(env, b, i, risk, ids, clock).0 == Apply(b, e)
      && (ProcessReason(env, b, ActionRequest(env, i, clock.check), clock).Some?
        || DecideRisk(risk.score).0 != APPROVED)
      ==> e.record.status != APPROVED
  {
    hide ActionRequest, LedgerRequest, ProcessReason, RecordHash;
    assert Apply(b, e).records[|b.records|].status == e.record.status;
  }

  ghost predicate ProcessCall(c: Call) {
    && !c.RequestExecution?
    && (c.ProcessAction? ==> c.clock.check <= c.clock.stamp && c.input.amount >= 0.0)
  }

  /** The same for process_action, in exact amounts, if no amount is negative. */
  lemma {:induction false} ProcessDailyLimit(env: Env, calls: seq<Call>, limit: real)
    requires env.policy.dailyLimit == Some(limit)
    requires forall i :: 0 <= i < |calls| ==> ProcessCall(calls[i])
    ensures Limited(Run(env, calls).records, LedgerAmount, Max(limit, 0.0))
  {
    if calls != [] {
      hide Limited, AfterProcess, AfterApprove, AfterReject;
      var front, last := calls[..|calls| - 1], calls[|calls| - 1];
      assert forall i :: 0 <= i < |front| ==> front[i] == calls[i];
      ProcessDailyLimit(env, front, limit);
      var b := Run(env, front);
      if last.ProcessAction? {
        ProcessCallKeepsLimit(env, b, last.input, last.risk, last.ids, last.clock, limit);
      } else {
        hide Apply, Step;
        var e := CallEffect(env, b, last);
        OtherEffectsKeepLimit(b, e, LedgerAmount, Max(limit, 0.0));
      }
    }
  }
}
