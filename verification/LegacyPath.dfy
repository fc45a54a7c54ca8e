/** The legacy path of `request_execution`, which no daily limit reaches. */
module LegacyPath {
  import opened Wrappers
  import opened PyValues
  import opened AuditLog
  import opened Gateway
  import opened GatewayRuns
  import opened RealTimes
  import opened Anomaly
  import opened DailyLimit
  import opened LimitFailures

  /** For one answer of the risk detectors, the legacy path replies the same whatever the audit log says, and adds the
      same record to it. */
  lemma LegacyIgnoresTheLedger(env: Env, b: Books, c: Books, agentDid: string, given: Dict, risk: RiskAnswer,
                               details: Dict, ids: FreshIds, clock: Clock)
    ensures var x, y := AfterLegacy(env, b, agentDid, given, risk, details, ids, clock),
              AfterLegacy(env, c, agentDid, given, risk, details, ids, clock);
      && x.1 == y.1
      && |x.0.records| == |b.records| + 1 && |y.0.records| == |c.records| + 1
      && x.0.records[|b.records|] == y.0.records[|c.records|]
  {
    hide LegacyRequest, LegacyReason, Annotate, RecordHash, LedgerRequest;
  }

  // ---------- What the legacy path adds to the log ----------

  /** The copy of the request that the legacy path works on. */
  ghost function LegacyCopy(env: Env, c: Call): Dict
    requires c.RequestExecution?
  {
    LegacyRequest(c.agentDid, Normalize(env, c.request))
  }

  ghost function AskedAmount(c: Call): real
    requires c.RequestExecution?
  {
    Float(Get(c.request, "amount", PyNum(0.0)))
  }

  /** A request with a positive amount that no guard of the legacy path refuses. */
  ghost predicate Payable(env: Env, c: Call) {
    c.RequestExecution? && LegacyReason(env, LegacyCopy(env, c)).None? && AskedAmount(c) > 0.0
  }

  lemma LegacyCopyKeeps(env: Env, c: Call)
    requires c.RequestExecution?
    ensures var amount := Float(Get(LegacyCopy(env, c), "amount", PyNum(0.0)));
      amount == AskedAmount(c) || amount == AskedAmount(c) * 1000000.0
  {
    hide Normalize;
    NormalizedAmounts(env, c.request);
    assert "amount" != "agent_id" && "amount" != "wallet_address" && "amount" != "destination"
      && "amount" != "merchant";
  }

  /** Every call adds one record; it approves a positive amount only of a request that passes. */
  lemma LegacyAdds(env: Env, b: Books, c: Call) returns (r: AuditRecord)
    requires env.policy.maxAmount.Some? && c.RequestExecution?
    ensures Step(env, b, c).0.records == b.records + [r]
    ensures r.status == APPROVED && LedgerAmount(r) > 0.0 ==> Payable(env, c)
  {
    LegacyCopyKeeps(env, c);
    AnnotationKeepsPayment(LegacyCopy(env, c), c.details, "amount", PyNum(0.0));
    hide LegacyRequest, LegacyReason, Normalize, Annotate, RecordHash, LedgerRequest;
    r := Step(env, b, c).0.records[|b.records|];
  }

  /** With the risk low enough, a request that passes is approved. */
  lemma PassingIsApproved(env: Env, b: Books, c: Call) returns (r: AuditRecord)
    requires env.policy.maxAmount.Some? && c.RequestExecution? && c.risk.score < 40
    ensures LegacyReason(env, LegacyCopy(env, c)).None? ==> Step(env, b, c).0.records == b.records + [r]
    ensures r.status == APPROVED && r.timestamp == c.clock.stamp
    ensures r.request == Annotate(LegacyCopy(env, c), c.details)
  {
    hide LegacyRequest, LegacyReason, Normalize, Annotate, RecordHash, LedgerRequest, AfterCreate;
    r := Sealed(AuditRecord(APPROVED, c.agentDid, Annotate(LegacyCopy(env, c), c.details), Some("policy_ok"),
                            Some(c.ids.jti), c.clock.stamp, None));
  }

  // ---------- The same request again and again ----------

  /** The request without its time, and with a context that says nothing. */
  ghost function Plain(request: Dict): Dict {
    (request - {"timestamp"})["context" := PyDict(map[])]
  }

  ghost function PlainCopy(env: Env, c: Call): Dict
    requires c.RequestExecution?
  {
    LegacyRequest(c.agentDid, Normalize(env, Plain(c.request)))
  }

  /** This call once more: with an id of its own and with the risk as the detectors see it. */
  ghost function PlainCall(env: Env, c: Call, k: nat, records: seq<AuditRecord>): (r: Call)
    requires c.RequestExecution?
    ensures r.RequestExecution? && LegacyCopy(env, r) == PlainCopy(env, c)
  {
    RequestExecution(c.agentDid, Plain(c.request), c.facts, LegacyRisk(records, PlainCopy(env, c), c.clock.check),
                     map[], FreshIds(Numeral(k), Numeral(k)), c.clock)
  }

  ghost function PlainRun(env: Env, c: Call, n: nat): (calls: seq<Call>)
    requires c.RequestExecution?
    ensures |calls| == n
  {
    if n == 0 then []
    else
      var front := PlainRun(env, c, n - 1);
      front + [PlainCall(env, c, n - 1, Run(env, front).records)]
  }

  /** The two requests differ at most in what no guard reads. */
  ghost predicate SameGuarded(a: Dict, b: Dict) {
    forall key :: key !in {"timestamp", "context", "request_hash"} ==> Same(a, b, key)
  }

  ghost predicate Same(a: Dict, b: Dict, key: string) {
    if key in a then key in b && a[key] == b[key] else key !in b
  }

  lemma NormalizeKeepsGuarded(env: Env, a: Dict, b: Dict)
    requires SameGuarded(a, b)
    ensures SameGuarded(Normalize(env, a), Normalize(env, b))
  {
    assert Same(a, b, "amount") && Same(a, b, "currency");
    forall key | key !in {"timestamp", "context", "request_hash"}
      ensures Same(Normalize(env, a), Normalize(env, b), key)
    {
      assert Same(a, b, key);
    }
  }

  lemma LegacyKeepsGuarded(agentDid: string, a: Dict, b: Dict)
    requires SameGuarded(a, b)
    ensures SameGuarded(LegacyRequest(agentDid, a), LegacyRequest(agentDid, b))
  {
    assert Same(a, b, "agent_id") && Same(a, b, "wallet_address") && Same(a, b, "destination")
      && Same(a, b, "merchant");
    forall key | key !in {"timestamp", "context", "request_hash"}
      ensures Same(LegacyRequest(agentDid, a), LegacyRequest(agentDid, b), key)
    {
      assert Same(a, b, key);
    }
  }

  lemma GuardsAgree(env: Env, a: Dict, b: Dict)
    requires SameGuarded(a, b)
    ensures LegacyReason(env, a) == LegacyReason(env, b)
    ensures Get(a, "amount", PyNum(0.0)) == Get(b, "amount", PyNum(0.0))
  {
    assert Same(a, b, "amount") && Same(a, b, "action") && Same(a, b, "purpose");
    assert Same(a, b, "destination") && Same(a, b, "merchant");
  }

  lemma PlainIsGuardedAlike(env: Env, c: Call)
    requires c.RequestExecution?
    ensures LegacyReason(env, PlainCopy(env, c)) == LegacyReason(env, LegacyCopy(env, c))
    ensures AmountOf(PlainCopy(env, c)) == AmountOf(LegacyCopy(env, c))
  {
    hide Normalize, LegacyRequest, LegacyReason;
    assert SameGuarded(Plain(c.request), c.request);
    NormalizeKeepsGuarded(env, Plain(c.request), c.request);
    LegacyKeepsGuarded(c.agentDid, Normalize(env, Plain(c.request)), Normalize(env, c.request));
    GuardsAgree(env, PlainCopy(env, c), LegacyCopy(env, c));
  }

  /** The detectors read no more from such a request than what they read from the log. */
  lemma PlainSaysNothing(env: Env, c: Call, records: seq<AuditRecord>, now: int)
    requires c.RequestExecution?
    ensures var copy := PlainCopy(env, c);
      && !ContextSays(copy, "split_transaction_risk") && !ContextSays(copy, "after_hours_execution")
      && LegacyRisk(records, copy, now).score == AnomalyScore(records, copy, now)
  {
    hide AnomalyScore, AnomalyFlags;
    var copy := PlainCopy(env, c);
    assert Get(copy, "context", PyNone) == PyDict(map[]) && "timestamp" !in copy;
  }

  /** Every record so far is an approval of this request, at the time of this call. */
  ghost predicate AllCopies(env: Env, c: Call, records: seq<AuditRecord>)
    requires c.RequestExecution?
  {
    forall i :: 0 <= i < |records| ==>
      records[i].request == PlainCopy(env, c) && records[i].status == APPROVED && records[i].timestamp == c.clock.stamp
  }

  lemma CopiesAreLike(env: Env, c: Call, records: seq<AuditRecord>)
    requires c.RequestExecution? && AllCopies(env, c, records)
    ensures AllLike(records, PlainCopy(env, c))
  {
    hide PlainCopy, Target, AmountOf;
  }

  /** Once more the same request: it is approved once more. */
  lemma OnceMore(env: Env, c: Call, k: nat, b: Books) returns (r: AuditRecord)
    requires env.policy.maxAmount.Some? && Payable(env, c)
    requires AllCopies(env, c, b.records)
    ensures Step(env, b, PlainCall(env, c, k, b.records)).0.records == b.records + [r]
    ensures AllCopies(env, c, b.records + [r])
  {
    hide Step, PlainCopy, AnomalyScore, LegacyReason, LegacyCopy, LegacyRisk, AllLike;
    var call := PlainCall(env, c, k, b.records);
    PlainIsGuardedAlike(env, c);
    LegacyCopyKeeps(env, c);
    CopiesAreLike(env, c, b.records);
    PlainSaysNothing(env, c, b.records, c.clock.check);
    RepeatsScoreLow(b.records, PlainCopy(env, c), c.clock.check);
    r := PassingIsApproved(env, b, call);
    NothingAnnotated(PlainCopy(env, c));
  }

  lemma NothingAnnotated(request: Dict)
    ensures Annotate(request, map[]) == request
  {
  }

  lemma {:induction false} PlainRunIsApproved(env: Env, c: Call, n: nat)
    requires env.policy.maxAmount.Some? && c.RequestExecution?
    ensures Payable(env, c) ==>
      var records := Run(env, PlainRun(env, c, n)).records;
      |records| == n && AllCopies(env, c, records)
  {
    hide Step, PlainCall, AllCopies, Payable;
    if n == 0 {
      NoCopies(env, c);
    } else if Payable(env, c) {
      var front := PlainRun(env, c, n - 1);
      PlainRunIsApproved(env, c, n - 1);
      var r := OnceMore(env, c, n - 1, Run(env, front));
      assert PlainRun(env, c, n)[..n - 1] == front;
    }
  }

  lemma NoCopies(env: Env, c: Call)
    requires c.RequestExecution?
    ensures AllCopies(env, c, [])
  {
  }

  lemma {:induction false} CopiesSum(env: Env, c: Call, records: seq<AuditRecord>)
    requires c.RequestExecution? && AllCopies(env, c, records)
    ensures DaySum(records, LedgerAmount, "agent_id", Get(PlainCopy(env, c), "agent_id", PyNone), Day(c.clock.stamp))
         == Times(|records|, AmountOf(PlainCopy(env, c)))
  {
    hide PlainCopy, Times;
    OneMoreTime(|records|, AmountOf(PlainCopy(env, c)));
    if records != [] {
      var front := records[..|records| - 1];
      assert forall i :: 0 <= i < |front| ==> front[i] == records[i];
      CopiesSum(env, c, front);
    }
  }

  // ---------- Exactly when there is no limit ----------

  /** A run of the legacy path: fresh ids, and the risk of every call as the detectors find it in the log. */
  ghost predicate LegacyRun(env: Env, calls: seq<Call>) {
    && FreshRun(calls)
    && forall i :: 0 <= i < |calls| ==>
        && calls[i].RequestExecution?
        && calls[i].risk
           == LegacyRisk(Run(env, calls[..i]).records, LegacyCopy(env, calls[i]), calls[i].clock.check)
  }

  /** Some run of the legacy path brings a payer over this limit on one day. */
  ghost predicate CanExceed(env: Env, limit: real) {
    exists calls :: LegacyRun(env, calls) && !WithinDays(Run(env, calls).records, LedgerAmount, limit)
  }

  lemma PlainRunSteps(env: Env, c: Call, n: nat)
    requires c.RequestExecution? && n > 0
    ensures PlainRun(env, c, n)
         == PlainRun(env, c, n - 1) + [PlainCall(env, c, n - 1, Run(env, PlainRun(env, c, n - 1)).records)]
  {
    hide PlainCall, Run;
  }

  lemma {:induction false} PlainRunUnfolds(env: Env, c: Call, n: nat, i: nat)
    requires c.RequestExecution? && i < n
    ensures PlainRun(env, c, n)[..i] == PlainRun(env, c, i)
    ensures PlainRun(env, c, n)[i] == PlainCall(env, c, i, Run(env, PlainRun(env, c, i)).records)
  {
    hide *;
    PlainRunSteps(env, c, n);
    if i < n - 1 {
      var front := PlainRun(env, c, n - 1);
      PlainRunUnfolds(env, c, n - 1, i);
      assert PlainRun(env, c, n)[..i] == front[..i];
    } else {
      assert PlainRun(env, c, n)[..i] == PlainRun(env, c, i);
    }
  }

  lemma PlainRunIsLegacyRun(env: Env, c: Call, n: nat)
    requires c.RequestExecution?
    ensures LegacyRun(env, PlainRun(env, c, n))
  {
    hide PlainRun, Run, LegacyRisk, PlainCopy, LegacyCopy, FreshRun, Plain;
    forall i: nat | i < n {
      PlainRunUnfolds(env, c, n, i);
    }
    NumberedIsFresh(PlainRun(env, c, n));
  }

  lemma ManyExceed(env: Env, c: Call, limit: real)
    requires env.policy.maxAmount.Some?
    ensures Payable(env, c) ==> CanExceed(env, limit)
  {
    hide Run, PlainRun, PlainCopy, LegacyCopy, LegacyRun, DaySum, AllCopies, Times, LegacyReason;
    if Payable(env, c) {
      PlainIsGuardedAlike(env, c);
      LegacyCopyKeeps(env, c);
      var n := EnoughTimes(limit, AmountOf(PlainCopy(env, c)));
      PlainRunIsLegacyRun(env, c, n);
      PlainRunIsApproved(env, c, n);
      CopiesSum(env, c, Run(env, PlainRun(env, c, n)).records);
      assert PayerKey("agent_id");
    }
  }

  lemma {:induction false} NothingPositive(env: Env, calls: seq<Call>)
    requires env.policy.maxAmount.Some? && forall i :: 0 <= i < |calls| ==> calls[i].RequestExecution?
    ensures (forall c :: !Payable(env, c)) ==> NonePositive(Run(env, calls).records)
  {
    if calls != [] {
      hide Step, Payable, LedgerAmount;
      var front, last := calls[..|calls| - 1], calls[|calls| - 1];
      assert forall i :: 0 <= i < |front| ==> front[i] == calls[i];
      NothingPositive(env, front);
      var r := LegacyAdds(env, Run(env, front), last);
    }
  }

  /** On the legacy path every limit can be exceeded, if and only if some request with a positive amount passes its
      guards. */
  lemma LegacyHasNoLimitIff(env: Env)
    requires env.policy.maxAmount.Some?
    ensures (forall limit :: CanExceed(env, limit)) <==> exists c :: Payable(env, c)
  {
    hide Run, DaySum, Payable;
    if c :| Payable(env, c) {
      forall limit ensures CanExceed(env, limit) {
        ManyExceed(env, c, limit);
      }
    }
    if forall c :: !Payable(env, c) {
      forall calls | LegacyRun(env, calls) ensures WithinDays(Run(env, calls).records, LedgerAmount, 0.0) {
        NothingPositive(env, calls);
        forall key, payer, day ensures DaySum(Run(env, calls).records, LedgerAmount, key, payer, day) <= 0.0 {
          NonePositiveSum(Run(env, calls).records, key, payer, day);
        }
      }
      assert !CanExceed(env, 0.0);
    }
  }
}
