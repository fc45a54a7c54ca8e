/** Where the daily limit of process_action does not hold, and exactly when: amounts that may be negative. */
module LimitFailures {
  import opened Wrappers
  import opened PyValues
  import opened AuditLog
  import opened Gateway
  import opened GatewayRuns
  import opened RealTimes
  import opened DailyLimit

  // ---------- Fresh ids ----------

  /** A text for every number. */
  ghost function Numeral(k: nat): (r: string)
    ensures |r| == k
  {
    seq(k, i => 'I')
  }

  /** Every call draws the number of its place. */
  ghost predicate Numbered(calls: seq<Call>) {
    forall i: nat :: i < |calls| ==> JtiOf(calls[i]) <= {Numeral(i)} && FreshOf(calls[i]) <= {Numeral(i)}
  }

  ghost predicate FreshRun(calls: seq<Call>) {
    FreshJtis(calls) && FreshApprovalIds(calls)
  }

  lemma NumberedIsFresh(calls: seq<Call>)
    requires Numbered(calls)
    ensures FreshRun(calls)
  {
    hide JtiOf, FreshOf;
    forall i: nat, j: nat | i < j < |calls|
      ensures JtiOf(calls[i]) !! JtiOf(calls[j]) && FreshOf(calls[i]) !! FreshOf(calls[j])
    {
      assert |Numeral(i)| != |Numeral(j)|;
    }
  }

  // ---------- Payments on an open route ----------

  /** What a payment is for, and where it goes. */
  datatype Route = Route(action: string, purpose: string, destination: string)

  /** The policy lets payments through on this route, up to its maximum. */
  ghost predicate OpenRoute(p: Policy, route: Route) {
    && (p.allowedActions == {} || route.action in p.allowedActions)
    && (p.allowedPurposes == {} || route.purpose in p.allowedPurposes)
    && (p.allowedDestinations == {} || route.destination in p.allowedDestinations)
    && (route.destination == "" || p.allowedMerchants == {} || route.destination in p.allowedMerchants)
  }

  ghost predicate Affordable(p: Policy, amount: real) {
    p.maxAmount.Some? ==> amount <= p.maxAmount.value
  }

  ghost function PaymentInput(route: Route, agent: string, amount: real): ActionInput {
    ActionInput(agent, "wallet", route.action, amount, "XRP", route.destination, route.purpose, PyNone)
  }

  ghost function Paying(route: Route, agent: string, amount: real, score: int, k: nat, now: int): Call {
    ProcessAction(PaymentInput(route, agent, amount), RiskAnswer(score, [], false),
                  FreshIds(Numeral(k), Numeral(k)), Clock(now, now, now))
  }

  /** On an open route only the maximum and the daily limit can refuse. */
  lemma OpenRoutePasses(env: Env, b: Books, route: Route, agent: string, amount: real, now: int)
    requires OpenRoute(env.policy, route) && Affordable(env.policy, amount)
    ensures var request := ActionRequest(env, PaymentInput(route, agent, amount), now);
      WithinDailyLimit(env.policy, b.records, request, now) ==>
        ProcessReason(env, b, request, Clock(now, now, now)).None?
  {
    hide WithinDailyLimit;
  }

  lemma PaymentPasses(env: Env, b: Books, route: Route, agent: string, amount: real, now: int)
    requires env.policy.dailyLimit.Some? && OpenRoute(env.policy, route) && Affordable(env.policy, amount)
    requires Used(b.records, LedgerAmount, StartOfDay(now), PyStr(agent), PyStr("wallet")) + amount
          <= env.policy.dailyLimit.value
    ensures ProcessReason(env, b, ActionRequest(env, PaymentInput(route, agent, amount), now),
      Clock(now, now, now)).None?
  {
    hide ActionRequest, Used, OpenRoute, ProcessReason;
    ActionLookups(env, PaymentInput(route, agent, amount), now);
    OpenRoutePasses(env, b, route, agent, amount, now);
  }

  /** What an allowed action does: it is logged with its token, unless a human is asked first. */
  lemma AllowedIsLogged(env: Env, b: Books, i: ActionInput, risk: RiskAnswer, ids: FreshIds, clock: Clock)
    returns (r: AuditRecord)
    requires ProcessReason(env, b, ActionRequest(env, i, clock.check), clock).None? && risk.score < 40
    ensures var (after, reply) := AfterProcess(env, b, i, risk, ids, clock);
      && after.records == b.records + [r]
      && reply.Decided? && reply.given == Some(Issue(i.agentId, ActionRequest(env, i, clock.check), ids, clock))
    ensures r.status == (if risk.score < 31 then APPROVED else CONDITIONAL_APPROVAL)
    ensures r.timestamp == clock.stamp && LedgerAmount(r) == i.amount
    ensures Get(r.request, "agent_id", PyNone) == PyStr(i.agentId)
    ensures Get(r.request, "wallet_address", PyNone) == PyStr(i.walletAddress)
  {
    var request := ActionRequest(env, i, clock.check);
    ActionLookups(env, i, clock.check);
    hide ActionRequest, LedgerRequest, RecordHash, ProcessReason;
    var (decision, why) := DecideRisk(risk.score);
    var text := if decision == APPROVED then Some("policy_ok") else why;
    LedgerLookups(request, decision, Some(ids.jti), text, true, risk.score, risk.flags);
    r := Sealed(LedgerRecord(request, decision, Some(ids.jti), text, true, risk.score, risk.flags, clock.stamp));
  }

  lemma ProcessStep(env: Env, b: Books, i: ActionInput, risk: RiskAnswer, ids: FreshIds, clock: Clock)
    ensures Step(env, b, ProcessAction(i, risk, ids, clock)) == AfterProcess(env, b, i, risk, ids, clock)
  {
    hide AfterProcess;
  }

  /** So is a payment that fits under the limit. */
  lemma PayingIsLogged(env: Env, b: Books, route: Route, agent: string, amount: real, score: int, k: nat, now: int)
    returns (r: AuditRecord)
    requires env.policy.dailyLimit.Some? && OpenRoute(env.policy, route) && Affordable(env.policy, amount) && score < 40
    requires Used(b.records, LedgerAmount, StartOfDay(now), PyStr(agent), PyStr("wallet")) + amount
          <= env.policy.dailyLimit.value
    ensures var (after, reply) := Step(env, b, Paying(route, agent, amount, score, k, now));
      && after.records == b.records + [r]
      && TokenOf(reply).Some? && TokenOf(reply).value.payload.subject == agent
      && GivenAmount(TokenOf(reply).value) == amount
    ensures r.status == (if score < 31 then APPROVED else CONDITIONAL_APPROVAL)
    ensures r.timestamp == now && LedgerAmount(r) == amount
    ensures Get(r.request, "agent_id", PyNone) == PyStr(agent)
    ensures Get(r.request, "wallet_address", PyNone) == PyStr("wallet")
  {
    hide ActionRequest, Used, OpenRoute, ProcessReason, AfterProcess, Step, LedgerAmount, Affordable, Numeral;
    var i, ids, clock := PaymentInput(route, agent, amount), FreshIds(Numeral(k), Numeral(k)), Clock(now, now, now);
    PaymentPasses(env, b, route, agent, amount, now);
    r := AllowedIsLogged(env, b, i, RiskAnswer(score, [], false), ids, clock);
    ProcessStep(env, b, i, RiskAnswer(score, [], false), ids, clock);
    IssuedAmount(env, i, ids, clock);
  }

  lemma IssuedAmount(env: Env, i: ActionInput, ids: FreshIds, clock: Clock)
    ensures var token := Issue(i.agentId, ActionRequest(env, i, clock.check), ids, clock);
      token.payload.subject == i.agentId && GivenAmount(token) == i.amount
  {
    hide ActionRequest;
    ActionLookups(env, i, clock.check);
  }

  /** The amount of the action a token is for. */
  ghost function GivenAmount(token: ActionToken): real {
    Float(Get(token.payload.action, "amount", PyNum(0.0)))
  }

  // ---------- Counting ----------

  lemma UsedSnoc(records: seq<AuditRecord>, r: AuditRecord, start: int, agent: PyValue, wallet: PyValue)
    ensures Used(records + [r], LedgerAmount, start, agent, wallet)
         == Used(records, LedgerAmount, start, agent, wallet)
          + (if r.status == APPROVED && start <= r.timestamp && SharesPayer(r, agent, wallet)
             then LedgerAmount(r) else 0.0)
  {
    assert (records + [r])[..|records + [r]| - 1] == records;
  }

  // ---------- Exactly which amounts keep the limit ----------

  /** A run of process_action and approval calls with fresh ids, clocks that do not run backwards within a call, and no
      amount below a bound. */
  ghost predicate NoAmountBelow(calls: seq<Call>, bound: real) {
    && FreshRun(calls)
    && forall i :: 0 <= i < |calls| ==>
        && !calls[i].RequestExecution?
        && (calls[i].ProcessAction? ==> calls[i].clock.check <= calls[i].clock.stamp && calls[i].input.amount >= bound)
  }

  /** First `refunds` refunds of one agent, then payments of another that shares the wallet. */
  ghost function Refunded(route: Route, refund: real, payment: real, refunds: nat, n: nat, now: int): (calls: seq<Call>)
    ensures |calls| == n
  {
    seq(n, i requires 0 <= i < n =>
      if i < refunds then Paying(route, "a", refund, 0, i, now) else Paying(route, "b", payment, 0, i, now))
  }

  lemma RefundedUnfolds(env: Env, route: Route, refund: real, payment: real, refunds: nat, n: nat, now: int)
    requires n > 0
    ensures Run(env, Refunded(route, refund, payment, refunds, n, now))
      == Step(env, Run(env, Refunded(route, refund, payment, refunds, n - 1, now)),
              if n <= refunds then Paying(route, "a", refund, 0, n - 1, now)
              else Paying(route, "b", payment, 0, n - 1, now)).0
  {
    hide Step, Paying;
    var calls := Refunded(route, refund, payment, refunds, n, now);
    assert calls[..n - 1] == Refunded(route, refund, payment, refunds, n - 1, now);
  }

  /** What the wallet has used, and what the second agent has been approved for. */
  ghost predicate Balance(records: seq<AuditRecord>, now: int, used: real, spent: real) {
    && Used(records, LedgerAmount, StartOfDay(now), PyStr("a"), PyStr("wallet")) == used
    && Used(records, LedgerAmount, StartOfDay(now), PyStr("b"), PyStr("wallet")) == used
    && DaySum(records, LedgerAmount, "agent_id", PyStr("b"), Day(now)) == spent
  }

  lemma PayingMoves(env: Env, b: Books, route: Route, agent: string, amount: real, k: nat, now: int, used: real,
                    spent: real)
    requires env.policy.dailyLimit.Some? && OpenRoute(env.policy, route) && Affordable(env.policy, amount)
    requires Balance(b.records, now, used, spent) && (agent == "a" || agent == "b")
    requires used + amount <= env.policy.dailyLimit.value
    ensures Balance(Step(env, b, Paying(route, agent, amount, 0, k, now)).0.records, now, used + amount,
                    if agent == "b" then spent + amount else spent)
  {
    hide Step, Paying, OpenRoute, Used, DaySum;
    var r := PayingIsLogged(env, b, route, agent, amount, 0, k, now);
    UsedSnoc(b.records, r, StartOfDay(now), PyStr("a"), PyStr("wallet"));
    UsedSnoc(b.records, r, StartOfDay(now), PyStr("b"), PyStr("wallet"));
    DaySumSnoc(b.records, r, LedgerAmount, "agent_id", PyStr("b"), Day(now));
  }

  /** What `n` of those calls use up, and what the second agent gets of it. */
  ghost function UsedBy(refund: real, payment: real, refunds: nat, n: nat): real {
    if n <= refunds then Times(n, refund) else Times(refunds, refund) + Times(n - refunds, payment)
  }

  ghost function SpentBy(payment: real, refunds: nat, n: nat): real {
    if n <= refunds then 0.0 else Times(n - refunds, payment)
  }

  /** The refunds make room for the payments. */
  ghost predicate RoomFor(refund: real, payment: real, refunds: nat, payments: nat, limit: real) {
    && refund <= 0.0 <= payment && refund <= limit
    && Times(refunds, refund) + Times(payments, payment) <= limit
  }

  lemma OneMoreCall(refund: real, payment: real, refunds: nat, payments: nat, n: nat, limit: real)
    requires n <= refunds + payments && RoomFor(refund, payment, refunds, payments, limit)
    ensures n == 0 ==> UsedBy(refund, payment, refunds, 0) == SpentBy(payment, refunds, 0) == 0.0
    ensures n > 0 ==>
      UsedBy(refund, payment, refunds, n)
      == UsedBy(refund, payment, refunds, n - 1) + (if n <= refunds then refund else payment) <= limit
    ensures n > 0 ==>
      SpentBy(payment, refunds, n) == SpentBy(payment, refunds, n - 1) + if n <= refunds then 0.0 else payment
  {
    hide Times;
    OneMoreTime(n, refund);
    if 0 < n <= refunds {
      MoreTimes(1, n, refund);
    } else if refunds < n {
      OneMoreTime(n - refunds, payment);
      MoreTimes(n - refunds, payments, payment);
    }
  }

  lemma NothingYet(now: int, env: Env, route: Route, refund: real, payment: real, refunds: nat)
    ensures Balance(Run(env, Refunded(route, refund, payment, refunds, 0, now)).records, now, 0.0, 0.0)
  {
    assert Refunded(route, refund, payment, refunds, 0, now) == [];
  }

  lemma {:induction false} RefundedBalance(env: Env, route: Route, limit: real, refund: real, payment: real,
                                           refunds: nat, payments: nat, n: nat, now: int)
    requires env.policy.dailyLimit == Some(limit) && OpenRoute(env.policy, route)
    requires Affordable(env.policy, refund) && Affordable(env.policy, payment)
    requires RoomFor(refund, payment, refunds, payments, limit) && n <= refunds + payments
    ensures Balance(Run(env, Refunded(route, refund, payment, refunds, n, now)).records, now,
                    UsedBy(refund, payment, refunds, n), SpentBy(payment, refunds, n))
  {
    hide *;
    OneMoreCall(refund, payment, refunds, payments, n, limit);
    if n == 0 {
      NothingYet(now, env, route, refund, payment, refunds);
    } else {
      RefundedBalance(env, route, limit, refund, payment, refunds, payments, n - 1, now);
      RefundedUnfolds(env, route, refund, payment, refunds, n, now);
      PayingMoves(env, Run(env, Refunded(route, refund, payment, refunds, n - 1, now)), route,
        if n <= refunds then "a" else "b", if n <= refunds then refund else payment, n - 1, now,
        UsedBy(refund, payment, refunds, n - 1), SpentBy(payment, refunds, n - 1));
    }
  }

  /** For every limit that is not negative and every refund `x`, a refund of one agent lets another agent that shares
      the wallet exceed the limit by `x` on the same day. */
  lemma NegativeAmountsBreakTheLimit(env: Env, route: Route, limit: real, x: real, now: int)
    requires env.policy.dailyLimit == Some(limit) && OpenRoute(env.policy, route)
    requires limit >= 0.0 && x > 0.0 && Affordable(env.policy, limit + x)
    ensures DaySum(Run(env, Refunded(route, -x, limit + x, 1, 2, now)).records,
                   LedgerAmount, "agent_id", PyStr("b"), Day(now)) == limit + x > limit
  {
    hide Run, OpenRoute, Refunded, Times;
    OneMoreTime(1, -x);
    OneMoreTime(1, limit + x);
    RefundedBalance(env, route, limit, -x, limit + x, 1, 1, 2, now);
  }

  /** Enough refunds make room for payments that are too much together, whatever the limit and the maximum. */
  lemma RefundsBreakTheLimit(env: Env, route: Route, limit: real, refund: real, payment: real, now: int)
    returns (refunds: nat, payments: nat)
    requires env.policy.dailyLimit == Some(limit) && OpenRoute(env.policy, route)
    requires refund < 0.0 < payment && refund <= limit && Affordable(env.policy, payment)
    ensures DaySum(Run(env, Refunded(route, refund, payment, refunds, refunds + payments, now)).records,
                   LedgerAmount, "agent_id", PyStr("b"), Day(now)) > Max(limit, 0.0)
  {
    hide Run, OpenRoute, Refunded, Times;
    payments := EnoughTimes(Max(limit, 0.0), payment);
    refunds := EnoughTimes(Times(payments, payment) - limit, -refund);
    TimesNegated(refunds, refund);
    OneMoreTime(0, payment);
    RefundedBalance(env, route, limit, refund, payment, refunds, payments, refunds + payments, now);
  }

  ghost predicate NoneApproved(records: seq<AuditRecord>) {
    forall i :: 0 <= i < |records| ==> records[i].status != APPROVED
  }

  /** No approved amount is positive. */
  ghost predicate NonePositive(records: seq<AuditRecord>) {
    forall i :: 0 <= i < |records| && records[i].status == APPROVED ==> LedgerAmount(records[i]) <= 0.0
  }

  lemma {:induction false} NothingSpent(records: seq<AuditRecord>, start: int, agent: PyValue, wallet: PyValue)
    requires NoneApproved(records)
    ensures Used(records, LedgerAmount, start, agent, wallet) == 0.0
  {
    if records != [] {
      var front := records[..|records| - 1];
      assert forall i :: 0 <= i < |front| ==> front[i] == records[i];
      NothingSpent(front, start, agent, wallet);
    }
  }

  lemma {:induction false} NonePositiveSum(records: seq<AuditRecord>, key: string, payer: PyValue, day: int)
    requires NonePositive(records)
    ensures DaySum(records, LedgerAmount, key, payer, day) <= 0.0
  {
    if records != [] {
      var front := records[..|records| - 1];
      assert forall i :: 0 <= i < |front| ==> front[i] == records[i];
      NonePositiveSum(front, key, payer, day);
    }
  }

  /** What an effect adds to the log; approved is only what is logged as approved. */
  lemma EffectAdds(b: Books, e: Effect) returns (more: seq<AuditRecord>)
    ensures Apply(b, e).records == b.records + more
    ensures e.Logged? ==> more == [Sealed(e.record)]
    ensures !e.Logged? ==> NoneApproved(more)
  {
    hide RecordHash, LedgerRequest, ExpiryRecords, Annotate, ExpireAll;
    more := Apply(b, e).records[|b.records|..];
    match e
    case Granting(_, _, _, clock) => ExpiryApprovesNothing(b.approvals, clock.check, clock.stamp);
    case Rejecting(_, clock) => ExpiryApprovesNothing(b.approvals, clock.check, clock.stamp);
    case _ =>
  }

  /** A request with no reason against it fits under the maximum and, with what is used, under the limit. */
  lemma AllowedFits(env: Env, b: Books, i: ActionInput, clock: Clock, limit: real) returns (used: real)
    requires env.policy.dailyLimit == Some(limit)
    ensures ProcessReason(env, b, ActionRequest(env, i, clock.check), clock).None? ==>
      used + i.amount <= limit && Affordable(env.policy, i.amount)
    ensures NoneApproved(b.records) ==> used == 0.0
  {
    hide Used, ActionRequest;
    var request := ActionRequest(env, i, clock.check);
    ActionLookups(env, i, clock.check);
    var agent, wallet := Get(request, "agent_id", PyNone), Get(request, "wallet_address", PyNone);
    used := Used(b.records, LedgerAmount, StartOfDay(clock.check), agent, wallet);
    if NoneApproved(b.records) { NothingSpent(b.records, StartOfDay(clock.check), agent, wallet); }
  }

  /** Whatever process_action approves fits. */
  lemma ApprovedFits(env: Env, b: Books, i: ActionInput, risk: RiskAnswer, ids: FreshIds, clock: Clock, limit: real)
    returns (more: seq<AuditRecord>, used: real)
    requires env.policy.dailyLimit == Some(limit)
    ensures AfterProcess(env, b, i, risk, ids, clock).0.records == b.records + more
    ensures NoneApproved(b.records) ==> used == 0.0
    ensures NoneApproved(more)
      || (|more| == 1 && LedgerAmount(more[0]) == i.amount && used + i.amount <= limit
        && Affordable(env.policy, i.amount))
  {
    hide ActionRequest, ProcessReason, Apply, AfterProcess, LedgerAmount;
    used := AllowedFits(env, b, i, clock, limit);
    if ProcessReason(env, b, ActionRequest(env, i, clock.check), clock).None? && DecideRisk(risk.score).0 == APPROVED {
      var r := AllowedIsLogged(env, b, i, risk, ids, clock);
      more := [r];
    } else {
      var e := ProcessEffect(env, b, i, risk, ids, clock);
      if e.Logged? { NotApproved(env, b, i, risk, ids, clock, e); }
      more := EffectAdds(b, e);
    }
  }

  /** What any call other than an execution adds to the log. */
  lemma CallAdds(env: Env, b: Books, c: Call, limit: real) returns (more: seq<AuditRecord>, used: real)
    requires env.policy.dailyLimit == Some(limit) && !c.RequestExecution?
    ensures Step(env, b, c).0.records == b.records + more
    ensures NoneApproved(b.records) ==> used == 0.0
    ensures NoneApproved(more)
      || (c.ProcessAction? && |more| == 1 && LedgerAmount(more[0]) == c.input.amount
          && used + c.input.amount <= limit && Affordable(env.policy, c.input.amount))
  {
    hide AfterProcess, Apply, NoneApproved, Affordable;
    if c.ProcessAction? {
      more, used := ApprovedFits(env, b, c.input, c.risk, c.ids, c.clock, limit);
    } else {
      var e := CallEffect(env, b, c);
      more := EffectAdds(b, e);
      used := 0.0;
    }
  }

  /** Above a negative limit nothing can be approved first, and so nothing ever is. */
  lemma {:induction false} NothingFitsANegativeLimit(env: Env, calls: seq<Call>, limit: real, bound: real)
    requires env.policy.dailyLimit == Some(limit) && bound > limit
    requires forall i :: 0 <= i < |calls| ==>
      !calls[i].RequestExecution? && (calls[i].ProcessAction? ==> calls[i].input.amount >= bound)
    ensures NoneApproved(Run(env, calls).records)
  {
    if calls != [] {
      hide Step;
      var front, last := calls[..|calls| - 1], calls[|calls| - 1];
      assert forall i :: 0 <= i < |front| ==> front[i] == calls[i];
      NothingFitsANegativeLimit(env, front, limit, bound);
      var more, used := CallAdds(env, Run(env, front), last, limit);
    }
  }

  /** Under a maximum that is not positive nothing positive is approved. */
  lemma {:induction false} NothingPositiveFits(env: Env, calls: seq<Call>, limit: real)
    requires env.policy.dailyLimit == Some(limit) && env.policy.maxAmount.Some? && env.policy.maxAmount.value <= 0.0
    requires forall i :: 0 <= i < |calls| ==> !calls[i].RequestExecution?
    ensures NonePositive(Run(env, calls).records)
  {
    if calls != [] {
      hide Step, LedgerAmount, NonePositive;
      var front, last := calls[..|calls| - 1], calls[|calls| - 1];
      assert forall i :: 0 <= i < |front| ==> front[i] == calls[i];
      NothingPositiveFits(env, front, limit);
      var more, used := CallAdds(env, Run(env, front), last, limit);
      StillNonePositive(Run(env, front).records, more);
    } else {
      assert Run(env, calls).records == [];
    }
  }

  lemma StillNonePositive(records: seq<AuditRecord>, more: seq<AuditRecord>)
    requires NonePositive(records)
    requires NoneApproved(more) || (|more| == 1 && LedgerAmount(more[0]) <= 0.0)
    ensures NonePositive(records + more)
  {
    hide LedgerAmount;
  }

  lemma RefundedIsGood(route: Route, refund: real, payment: real, refunds: nat, n: nat, now: int)
    requires refund <= payment
    ensures NoAmountBelow(Refunded(route, refund, payment, refunds, n, now), refund)
  {
    NumberedIsFresh(Refunded(route, refund, payment, refunds, n, now));
  }

  /** With any open route, the limit holds in every run with amounts from `bound` on, if and only if none of them is
      negative; or all are above a limit that is itself negative, so that none is ever approved; or the maximum lets
      nothing positive through. */
  lemma LimitHoldsIff(env: Env, route: Route, limit: real, bound: real)
    requires env.policy.dailyLimit == Some(limit) && OpenRoute(env.policy, route)
    ensures (forall calls :: NoAmountBelow(calls, bound) ==>
              WithinDays(Run(env, calls).records, LedgerAmount, Max(limit, 0.0)))
       <==> bound >= 0.0 || bound > limit || (env.policy.maxAmount.Some? && env.policy.maxAmount.value <= 0.0)
  {
    hide Run, OpenRoute, DaySum, FreshRun, Refunded;
    if bound >= 0.0 || bound > limit || (env.policy.maxAmount.Some? && env.policy.maxAmount.value <= 0.0) {
      forall calls | NoAmountBelow(calls, bound)
        ensures WithinDays(Run(env, calls).records, LedgerAmount, Max(limit, 0.0))
      {
        LimitHolds(env, calls, limit, bound);
      }
    } else {
      var payment := if env.policy.maxAmount.Some? then env.policy.maxAmount.value else 1.0;
      var refunds, payments := RefundsBreakTheLimit(env, route, limit, bound, payment, 0);
      RefundedIsGood(route, bound, payment, refunds, refunds + payments, 0);
      assert PayerKey("agent_id");
    }
  }

  lemma LimitHolds(env: Env, calls: seq<Call>, limit: real, bound: real)
    requires env.policy.dailyLimit == Some(limit) && NoAmountBelow(calls, bound)
    requires bound >= 0.0 || bound > limit || (env.policy.maxAmount.Some? && env.policy.maxAmount.value <= 0.0)
    ensures WithinDays(Run(env, calls).records, LedgerAmount, Max(limit, 0.0))
  {
    hide Run, DaySum, FreshRun;
    if bound >= 0.0 {
      ProcessDailyLimit(env, calls, limit);
    } else {
      if bound > limit {
        NothingFitsANegativeLimit(env, calls, limit, bound);
      } else {
        NothingPositiveFits(env, calls, limit);
      }
      forall key, payer, day ensures DaySum(Run(env, calls).records, LedgerAmount, key, payer, day) <= 0.0 {
        NonePositiveSum(Run(env, calls).records, key, payer, day);
      }
    }
  }
}
